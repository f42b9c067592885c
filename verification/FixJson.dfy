/** The recursive walk that writes the fixed message token by token, and the two flags that tell which format it
    found. */
module FixJson {
  import opened JsonModel
  import opened JsonTheorems

  datatype JsonFormat = DefaultFlatbuffers | ContentOnlyTypesInUnions | TypesInUnions

  /** What is written for a value under a name. */
  function FieldFor(key: string, u: Json): seq<Member> {
    (if Tagged(u) then [Member(Tag(key), Fixed(u.members[Find(u.members, TYPE_KEY)].value))] else [])
      + [Member(key, Fixed(u))]
  }

  lemma {:induction false} FieldIs(v: Json, j: nat)
    requires v.Obj? && j < |v.members|
    ensures Field(v, j) == FieldFor(v.members[j].key, v.members[j].value)
  {}

  /** No member of any object has an empty name. */
  ghost predicate Named(v: Json) {
    match v
    case Leaf(_) => true
    case Arr(items) => forall i | 0 <= i < |items| :: Named(items[i])
    case Obj(ms) => forall i | 0 <= i < |ms| :: |ms[i].key| > 0 && Named(ms[i].value)
  }

  // ---------------------------------------------------------------- which tags are moved

  /** A `_type` is moved out of some object in v. */
  predicate Moves(v: Json)
    decreases v, 1, 0
  {
    match v
    case Leaf(_) => false
    case Arr(items) => MovesItems(v, |items|)
    case Obj(ms) => MovesFirst(v, |ms|) || MovesSecond(v, |ms|)
  }

  /** ... or out of v itself, if v has a name. */
  predicate MovesField(v: Json)
    decreases v, 1, 1
  {
    Tagged(v) || Moves(v)
  }

  predicate MovesItems(v: Json, n: nat)
    requires v.Arr? && n <= |v.items|
    decreases v, 0, n
  {
    n > 0 && (MovesItems(v, n - 1) || Moves(v.items[n - 1]))
  }

  predicate MovesFirst(v: Json, n: nat)
    requires v.Obj? && n <= |v.members|
    decreases v, 0, n
  {
    n > 0 && (MovesFirst(v, n - 1)
              || (IsTag(v.members, n - 1)
                && (Moves(v.members[n - 1].value) || MovesField(v.members[UnionOf(v.members, n - 1)].value))))
  }

  predicate MovesSecond(v: Json, n: nat)
    requires v.Obj? && n <= |v.members|
    decreases v, 0, n
  {
    n > 0 && (MovesSecond(v, n - 1) || (IsLeft(v.members, n - 1) && MovesField(v.members[n - 1].value)))
  }

  // ---------------------------------------------------------------- tokens

  lemma {:induction false} MemberTokensSame(a: seq<Member>, b: seq<Member>, n: nat)
    requires n <= |a|
    ensures MemberTokens(a + b, n) == MemberTokens(a, n)
  {
    if n > 0 {
      MemberTokensSame(a, b, n - 1);
      assert (a + b)[n - 1] == a[n - 1];
    }
  }

  lemma {:induction false} MemberTokensConcat(a: seq<Member>, b: seq<Member>, n: nat)
    requires n <= |b|
    ensures MemberTokens(a + b, |a| + n) == MemberTokens(a, |a|) + MemberTokens(b, n)
  {
    if n == 0 {
      MemberTokensSame(a, b, |a|);
    } else {
      MemberTokensConcat(a, b, n - 1);
      assert (a + b)[|a| + n - 1] == b[n - 1];
    }
  }

  function AllTokens(ms: seq<Member>): seq<Token> {
    MemberTokens(ms, |ms|)
  }

  lemma {:induction false} AllTokensConcat(a: seq<Member>, b: seq<Member>)
    ensures AllTokens(a + b) == AllTokens(a) + AllTokens(b)
  {
    MemberTokensConcat(a, b, |b|);
  }

  lemma {:induction false} OneMember(m: Member)
    ensures AllTokens([m]) == [Key(m.key)] + Tokens(m.value)
  {
    assert MemberTokens([m], 0) == [];
  }

  lemma {:induction false} NoMember()
    ensures AllTokens([]) == []
  {}

  lemma {:induction false} ItemTokensSame(a: seq<Json>, b: seq<Json>, n: nat)
    requires n <= |a|
    ensures ItemTokens(a + b, n) == ItemTokens(a, n)
  {
    if n > 0 {
      ItemTokensSame(a, b, n - 1);
      assert (a + b)[n - 1] == a[n - 1];
    }
  }

  lemma {:induction false} OneMoreItem(v: Json, n: nat)
    requires v.Arr? && n < |v.items|
    ensures ItemTokens(FixedItems(v, n + 1), |FixedItems(v, n + 1)|) ==
        ItemTokens(FixedItems(v, n), |FixedItems(v, n)|) + Tokens(Fixed(v.items[n]))
  {
    ItemTokensSame(FixedItems(v, n), [Fixed(v.items[n])], |FixedItems(v, n)|);
  }

  /** Name and tag, but not the value. */
  function KeyTokens(key: string, u: Json): seq<Token> {
    (if Tagged(u) then [Key(Tag(key))] + Tokens(Fixed(u.members[Find(u.members, TYPE_KEY)].value)) else []) + [Key(key)]
  }

  lemma {:induction false} FieldTokens(key: string, u: Json)
    ensures AllTokens(FieldFor(key, u)) == KeyTokens(key, u) + Tokens(Fixed(u))
  {
    OneMember(Member(key, Fixed(u)));
    if Tagged(u) {
      var t := Member(Tag(key), Fixed(u.members[Find(u.members, TYPE_KEY)].value));
      OneMember(t);
      AllTokensConcat([t], [Member(key, Fixed(u))]);
    } else {
      assert FieldFor(key, u) == [Member(key, Fixed(u))];
    }
  }

  /** What the n-th member adds in the first pass. */
  lemma {:induction false} FirstPassTokens(v: Json, n: nat)
    requires v.Obj? && n < |v.members|
    ensures AllTokens(FirstPass(v, n + 1)) == AllTokens(FirstPass(v, n)) + PairTokens(v, n)
  {
    AllTokensConcat(FirstPass(v, n), Pair(v, n));
    if IsTag(v.members, n) {
      var m, u := v.members[n], UnionOf(v.members, n);
      OneMember(Member(m.key, Fixed(m.value)));
      AllTokensConcat([Member(m.key, Fixed(m.value))], Field(v, u));
      FieldIs(v, u);
    } else {
      NoMember();
    }
  }

  function PairTokens(v: Json, i: nat): seq<Token>
    requires v.Obj? && i < |v.members|
  {
    if IsTag(v.members, i) then
      var m, u := v.members[i], v.members[UnionOf(v.members, i)];
      [Key(m.key)] + Tokens(Fixed(m.value)) + AllTokens(FieldFor(u.key, u.value))
    else []
  }

  lemma {:induction false} SecondPassTokens(v: Json, n: nat)
    requires v.Obj? && n < |v.members|
    ensures AllTokens(SecondPass(v, n + 1)) == AllTokens(SecondPass(v, n))
      + if IsLeft(v.members, n) then AllTokens(FieldFor(v.members[n].key, v.members[n].value)) else []
  {
    FieldIs(v, n);
    if IsLeft(v.members, n) {
      AllTokensConcat(SecondPass(v, n), Field(v, n));
    } else {
      assert SecondPass(v, n + 1) == SecondPass(v, n);
    }
  }

  const ID := Member("id", Leaf("1"))

  lemma {:induction false} IdTokens()
    ensures AllTokens([ID]) == [Key("id"), Text("1")]
  {
    OneMember(ID);
  }

  /** An object: its passes, and the id if it is a root without one. */
  function AsWritten(v: Json, isRoot: bool): Json {
    if isRoot && v.Obj? then Obj(WithId(v)) else Fixed(v)
  }

  lemma {:induction false} ObjectTokens(v: Json, isRoot: bool)
    requires v.Obj?
    ensures Tokens(AsWritten(v, isRoot)) == [StartObject] + AllTokens(FirstPass(v, |v.members|))
        + AllTokens(SecondPass(v, |v.members|))
      + (if isRoot && !Has(v.members, "id") then [Key("id"), Text("1")] else []) + [EndObject]
  {
    var a, b := FirstPass(v, |v.members|), SecondPass(v, |v.members|);
    AllTokensConcat(a, b);
    IdTokens();
    AllTokensConcat(a + b, [ID]);
    assert Fixed(v).members == a + b;
    if isRoot && !Has(v.members, "id") {
      assert WithId(v) == a + b + [ID];
    } else if isRoot {
      assert WithId(v) == a + b;
    }
  }

  /** The wrapper around what is no message. */
  lemma {:induction false} WrapperTokens(v: Json, target: string)
    requires v.Obj? && !IsMessage(v)
    ensures Tokens(FixedRoot(v, target)) ==
      [StartObject] + [Key("destination"), StartObject, Key("target"), Text(target), EndObject]
      + KeyTokens("content", v) + Tokens(AsWritten(v, true)) + [EndObject]
  {
    hide Fixed, WithId;
    var t := Member("target", Leaf(target));
    var d, c := Member("destination", Obj([t])), Member("content", Obj(WithId(v)));
    OneMember(t);
    OneMember(d);
    OneMember(c);
    assert Tokens(Obj([t])) == [StartObject] + AllTokens([t]) + [EndObject];
    if Tagged(v) {
      var g := Member(Tag("content"), Fixed(v.members[Find(v.members, TYPE_KEY)].value));
      OneMember(g);
      AllTokensConcat([d], [g]);
      AllTokensConcat([d] + [g], [c]);
      assert FixedRoot(v, target) == Obj([d] + [g] + [c]);
    } else {
      AllTokensConcat([d], [c]);
      assert FixedRoot(v, target) == Obj([d] + [] + [c]);
      assert [d] + [] + [c] == [d] + [c];
    }
  }

  // ---------------------------------------------------------------- the converter

  class JsonConverter {
    const target: string
    var writer: seq<Token>
    var contentOnlyDetected: bool
    var typeInUnionDetected: bool

    constructor (target: string)
      ensures this.target == target && writer == [] && !contentOnlyDetected && !typeInUnionDetected
    {
      this.target, writer, contentOnlyDetected, typeInUnionDetected := target, [], false, false;
    }

    function DetectedFormat(): JsonFormat
      reads this
    {
      if contentOnlyDetected then ContentOnlyTypesInUnions
      else if typeInUnionDetected then TypesInUnions
      else DefaultFlatbuffers
    }

    /** The whole message: what is written is the fixed root. */
    method Fix(v: Json)
      requires Named(v)
      modifies this
      ensures writer == old(writer) + Tokens(FixedRoot(v, target))
      ensures contentOnlyDetected == (old(contentOnlyDetected) || (v.Obj? && !IsMessage(v)))
      ensures typeInUnionDetected ==
          (old(typeInUnionDetected) || if v.Obj? && !IsMessage(v) then MovesField(v) else Moves(v))
    {
      hide Tokens, Fixed, Moves, Tagged, Has, Named, WithId, KeyTokens;
      if v.Obj? && !IsMessage(v) {
        contentOnlyDetected := true;
        writer := writer + [StartObject];
        writer := writer + [Key("destination"), StartObject, Key("target"), Text(target), EndObject];
        WriteKey(v, "content");
        WriteValue(v, true);
        writer := writer + [EndObject];
        WrapperTokens(v, target);
      } else {
        WriteValue(v, true);
      }
    }

    /** The part that is done for a value with a name: the name, and before it the tag found inside. */
    method WriteKey(v: Json, key: string)
      requires Named(v) && |key| > 0
      modifies this
      ensures writer == old(writer) + KeyTokens(key, v)
      ensures contentOnlyDetected == old(contentOnlyDetected)
      ensures typeInUnionDetected == (old(typeInUnionDetected) || Tagged(v))
      decreases v, 2
    {
      hide Tokens, Fixed, Moves;
      if v.Obj? {
        var it := Find(v.members, TYPE_KEY);
        if it < |v.members| {
          writer := writer + [Key(key + TYPE_KEY)];
          WriteValue(v.members[it].value, false);
          typeInUnionDetected := true;
        }
      }
      writer := writer + [Key(key)];
    }

    method WriteField(v: Json, key: string)
      requires Named(v) && |key| > 0
      modifies this
      ensures writer == old(writer) + AllTokens(FieldFor(key, v))
      ensures contentOnlyDetected == old(contentOnlyDetected)
      ensures typeInUnionDetected == (old(typeInUnionDetected) || MovesField(v))
      decreases v, 3
    {
      hide Tokens, Fixed, Moves, AllTokens, FieldFor, KeyTokens;
      WriteKey(v, key);
      WriteValue(v, false);
      FieldTokens(key, v);
    }

    method WriteValue(v: Json, isRoot: bool)
      requires Named(v)
      modifies this
      ensures writer == old(writer) + Tokens(AsWritten(v, isRoot))
      ensures contentOnlyDetected == old(contentOnlyDetected)
      ensures typeInUnionDetected == (old(typeInUnionDetected) || Moves(v))
      decreases v, 1
    {
      match v
      case Obj(_) =>
        WriteObject(v, isRoot);
      case Arr(items) =>
        writer := writer + [StartArray];
        ghost var start := writer;
        for n := 0 to |items|
          invariant writer == start + ItemTokens(FixedItems(v, n), |FixedItems(v, n)|)
          invariant contentOnlyDetected == old(contentOnlyDetected)
          invariant typeInUnionDetected == (old(typeInUnionDetected) || MovesItems(v, n))
        {
          WriteValue(items[n], false);
          OneMoreItem(v, n);
        }
        writer := writer + [EndArray];
      case Leaf(text) =>
        writer := writer + [Text(text)];
    }

    /** Both passes over an object, with the set of names the first has written. */
    method WriteObject(v: Json, isRoot: bool)
      requires v.Obj? && Named(v)
      modifies this
      ensures writer == old(writer) + Tokens(AsWritten(v, isRoot))
      ensures contentOnlyDetected == old(contentOnlyDetected)
      ensures typeInUnionDetected == (old(typeInUnionDetected) || Moves(v))
      decreases v, 0
    {
      hide Tokens, Fixed, FieldFor, AllTokens, FirstPass, SecondPass;
      var ms := v.members;
      writer := writer + [StartObject];
      ghost var start := writer;
      var written: set<string> := {};
      NoPass(v);
      for n := 0 to |ms|
        invariant written == Written(ms, n)
        invariant writer == start + AllTokens(FirstPass(v, n))
        invariant contentOnlyDetected == old(contentOnlyDetected)
        invariant typeInUnionDetected == (old(typeInUnionDetected) || MovesFirst(v, n))
      {
        FirstPassTokens(v, n);
        if !IsTypeKey(ms[n].key) {
          continue;
        }
        var unionKey := UnionKey(ms[n].key);
        var it := Find(ms, unionKey);
        if it == |ms| {
          continue;
        }
        writer := writer + [Key(ms[n].key)];
        WriteValue(ms[n].value, false);
        TagOfUnion(ms[n].key);
        WriteField(ms[it].value, unionKey);
        written := written + {ms[n].key, unionKey};
      }
      ghost var middle := writer;
      for n := 0 to |ms|
        invariant writer == middle + AllTokens(SecondPass(v, n))
        invariant contentOnlyDetected == old(contentOnlyDetected)
        invariant typeInUnionDetected == (old(typeInUnionDetected) || MovesFirst(v, |ms|) || MovesSecond(v, n))
      {
        SecondPassTokens(v, n);
        if ms[n].key != TYPE_KEY && ms[n].key !in written {
          WriteField(ms[n].value, ms[n].key);
        }
      }
      if isRoot && !Has(ms, "id") {
        writer := writer + [Key("id"), Text("1")];
      }
      writer := writer + [EndObject];
      ObjectTokens(v, isRoot);
    }
  }

  lemma {:induction false} NoPass(v: Json)
    requires v.Obj?
    ensures AllTokens(FirstPass(v, 0)) == [] && AllTokens(SecondPass(v, 0)) == []
  {
    NoMember();
  }
}
