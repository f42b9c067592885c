/** What is made of a message, written out member by member, with the names spelled out. */
module JsonDetails {
  import opened JsonModel
  import opened JsonTheorems
  import opened JsonResults

  // ---------------------------------------------------------------- names

  ghost predicate HasName(v: Json, key: string) {
    v.Obj? && exists i :: 0 <= i < |v.members| && v.members[i].key == key
  }

  /** The first member of that name. */
  ghost predicate IsFirst(v: Json, key: string, i: nat) {
    v.Obj? && i < |v.members| && v.members[i].key == key && forall x | 0 <= x < i :: v.members[x].key != key
  }

  lemma {:induction false} HasIff(v: Json, key: string)
    requires v.Obj?
    ensures Has(v.members, key) <==> HasName(v, key)
    ensures forall i: nat :: IsFirst(v, key, i) <==> i < |v.members| && i == Find(v.members, key)
  {}

  /** A tag's name is that of its union with "_type" behind it. */
  lemma {:induction false} TagNames(key: string, x: string)
    ensures Tag(x) == x + "_type" && TYPE_KEY == "_type"
    ensures IsTypeKey(key) <==> exists y :: |y| > 0 && key == y + "_type"
    ensures IsTypeKey(key) && |x| > 0 ==> (UnionKey(key) == x <==> key == x + "_type")
  {
    if IsTypeKey(key) { TagOfUnion(key); }
    if y: string :| |y| > 0 && key == y + "_type" { UnionOfTag(y); }
    if |x| > 0 { UnionOfTag(x); }
  }

  lemma {:induction false} TaggedIff(v: Json)
    ensures Tagged(v) <==> HasName(v, "_type")
  {
    if v.Obj? { HasIff(v, "_type"); }
  }

  // ---------------------------------------------------------------- the objects the program is made for

  /** A name that is to be written: of a member, or of the tag found inside a member. */
  ghost predicate ToWrite(ms: seq<Member>, key: string) {
    exists j: nat :: ToWriteFor(ms, j, key)
  }

  ghost predicate ToWriteFor(ms: seq<Member>, j: nat, key: string) {
    && j < |ms| && ms[j].key != "_type"
    && (key == ms[j].key || (HasName(ms[j].value, "_type") && key == ms[j].key + "_type"))
  }

  /** Member i is named as member u with "_type" behind it, and that has a `_type` inside as well. */
  ghost predicate TwiceTagged(ms: seq<Member>, i: nat, u: nat) {
    i < |ms| && u < |ms| && |ms[u].key| > 0 && ms[i].key == ms[u].key + "_type" && HasName(ms[u].value, "_type")
  }

  ghost predicate Chained(ms: seq<Member>, x: string) {
    |x| > 0 && ToWrite(ms, x) && ToWrite(ms, x + "_type") && ToWrite(ms, x + "_type_type")
  }

  lemma {:induction false} ToWriteIff(ms: seq<Member>, key: string)
    ensures OutKey(ms, key) <==> ToWrite(ms, key)
  {
    forall j: nat ensures KeyFrom(ms, j, key) <==> ToWriteFor(ms, j, key) {
      if j < |ms| {
        TaggedIff(ms[j].value);
        TagNames("", ms[j].key);
      }
    }
  }

  lemma {:induction false} ChainedIff(ms: seq<Member>, x: string)
    ensures OutChain(ms, x) <==> Chained(ms, x)
  {
    hide OutKey, ToWrite;
    TagNames("", x);
    TagNames("", Tag(x));
    assert x + "_type" + "_type" == x + "_type_type";
    ToWriteIff(ms, x);
    ToWriteIff(ms, Tag(x));
    ToWriteIff(ms, Tag(Tag(x)));
  }

  lemma {:induction false} TwiceTaggedIff(ms: seq<Member>)
    requires GoodKeys(ms)
    ensures NoneTaggedTwice(ms) <==> forall i: nat, u: nat :: !TwiceTagged(ms, i, u)
  {
    if i: nat, u: nat :| TwiceTagged(ms, i, u) {
      TaggedIff(ms[u].value);
      UnionOfTag(ms[u].key);
      TagNames(ms[i].key, ms[u].key);
      FindAt(ms, u);
      assert TaggedTwice(ms, i);
    }
    if i: nat :| TaggedTwice(ms, i) {
      var u := UnionOf(ms, i);
      TaggedIff(ms[u].value);
      TagOfUnion(ms[i].key);
      TagNames("", ms[u].key);
      assert TwiceTagged(ms, i, u);
    }
  }

  lemma {:induction false} CleanWrittenOut(ms: seq<Member>)
    ensures Clean(ms) <==>
      && (forall i | 0 <= i < |ms| :: |ms[i].key| > 0)
      && (forall i, k | 0 <= i < k < |ms| :: ms[i].key != ms[k].key)
      && (forall i: nat, u: nat :: !TwiceTagged(ms, i, u))
      && (forall x :: !Chained(ms, x))
      && !(HasName(Obj(ms), "_type") && HasName(Obj(ms), "_type_type"))
  {
    hide OutChain, Chained, TwiceTagged, NoneTaggedTwice;
    forall x ensures OutChain(ms, x) <==> Chained(ms, x) { ChainedIff(ms, x); }
    TagNames("", TYPE_KEY);
    assert Tag(TYPE_KEY) == "_type_type";
    if GoodKeys(ms) { TwiceTaggedIff(ms); }
  }

  // ---------------------------------------------------------------- an object

  /** Every member but `_type` under its name, and a `_type` found inside it under its name with "_type" behind it. */
  ghost predicate WrittenFor(ms: seq<Member>, e: Member, j: nat) {
    && j < |ms| && ms[j].key != "_type"
    && (e == Member(ms[j].key, Fixed(ms[j].value))
        || exists i: nat :: TypeMovedOut(ms[j], e, i))
  }

  ghost predicate TypeMovedOut(m: Member, e: Member, i: nat) {
    IsFirst(m.value, "_type", i) && e == Member(m.key + "_type", Fixed(m.value.members[i].value))
  }

  lemma {:induction false} DueIff(v: Json, j: nat, e: Member)
    requires v.Obj?
    ensures Due(v, j, e) <==> WrittenFor(v.members, e, j)
  {
    hide Fixed;
    if j < |v.members| {
      var m := v.members[j];
      TaggedIff(m.value);
      TagNames("", m.key);
      if m.value.Obj? { HasIff(m.value, "_type"); }
      if Tagged(m.value) {
        var i := Find(m.value.members, "_type");
        assert TypeMovedOut(m, Field(v, j)[0], i);
      }
    }
  }

  /** What an object becomes: exactly these members, no name twice, and a tag directly before its union. */
  lemma {:induction false} ObjectWrittenOut(v: Json)
    requires v.Obj? && Clean(v.members)
    ensures Fixed(v).Obj?
    ensures var out := Fixed(v).members;
      && (forall e :: e in out <==> exists j: nat :: WrittenFor(v.members, e, j))
      && (forall p, q | 0 <= p < q < |out| :: out[p].key != out[q].key)
      && forall p, q | 0 <= p < |out| && 0 <= q < |out| && |out[q].key| > 0 && out[p].key == out[q].key + "_type" ::
           q == p + 1
  {
    hide Due, WrittenFor, FirstPass, SecondPass, Clean;
    var out := Out(v);
    assert Fixed(v) == Obj(out);
    forall e ensures e in out <==> exists j: nat :: WrittenFor(v.members, e, j) {
      MembersKept(v, e);
      forall j: nat ensures Due(v, j, e) <==> WrittenFor(v.members, e, j) { DueIff(v, j, e); }
    }
    MembersKept(v, Member("", v));
    forall p, q | 0 <= p < |out| && 0 <= q < |out| && |out[q].key| > 0 && out[p].key == out[q].key + "_type"
      ensures q == p + 1
    {
      TagsBeforeUnions(v, p);
      UnionOfTag(out[q].key);
      TagNames(out[p].key, out[q].key);
    }
  }

  lemma {:induction false} OthersWrittenOut(v: Json)
    ensures v.Leaf? ==> Fixed(v) == v
    ensures v.Arr? ==>
        Fixed(v).Arr? && |Fixed(v).items| == |v.items|
        && forall i | 0 <= i < |v.items| :: Fixed(v).items[i] == Fixed(v.items[i])
  {
    if v.Arr? { FixedItemsAt(v, |v.items|); }
  }

  // ---------------------------------------------------------------- the root

  /** The object with an id: the one it has, or 1. */
  ghost predicate IsWithId(v: Json, ms: seq<Member>) {
    Fixed(v).Obj? && ms == Fixed(v).members + if HasName(v, "id") then [] else [Member("id", Leaf("1"))]
  }

  /** An object without destination or without content is put into one that has both, with a `_type` before it that was
      inside. */
  ghost predicate IsWrapped(v: Json, target: string, r: Json) {
    && r.Obj? && |r.members| == (if HasName(v, "_type") then 3 else 2)
    && r.members[0] == Member("destination", Obj([Member("target", Leaf(target))]))
    && (forall i: nat | IsFirst(v, "_type", i) ::
          r.members[1] == Member("content_type", Fixed(v.members[i].value)))
    && var last := r.members[|r.members| - 1];
    && last.key == "content" && last.value.Obj? && IsWithId(v, last.value.members)
  }

  ghost predicate RootStands(v: Json, target: string, r: Json) {
    if !v.Obj? then r == Fixed(v)
    else if HasName(v, "destination") && HasName(v, "content") then r.Obj? && IsWithId(v, r.members)
    else IsWrapped(v, target, r)
  }

  /** Wrapped is what has not both a destination and a content. */
  ghost predicate ToWrap(v: Json) {
    v.Obj? && !(HasName(v, "destination") && HasName(v, "content"))
  }

  lemma {:induction false} WithIdIs(v: Json)
    requires v.Obj?
    ensures IsWithId(v, WithId(v))
  {
    hide Fixed;
    FixedIsObject(v);
    HasIff(v, "id");
  }

  lemma {:induction false} ToWrapIff(v: Json)
    ensures ToWrap(v) <==> v.Obj? && !IsMessage(v)
  {
    if v.Obj? {
      HasIff(v, "destination");
      HasIff(v, "content");
    }
  }

  /** The tag that was inside, if there is one. */
  function RootTag(v: Json): seq<Member>
    requires v.Obj?
  {
    if Tagged(v) then [Member("content_type", Fixed(v.members[Find(v.members, TYPE_KEY)].value))] else []
  }

  lemma {:induction false} WrapperIs(v: Json, target: string)
    requires v.Obj? && !IsMessage(v)
    ensures FixedRoot(v, target) == Obj([Member("destination", Obj([Member("target", Leaf(target))]))] + RootTag(v)
                                        + [Member("content", Obj(WithId(v)))])
  {
    hide Fixed, Find, Has, WithId;
    assert Tag("content") == "content_type";
  }

  lemma {:induction false} RootTagIs(v: Json)
    requires v.Obj?
    ensures |RootTag(v)| == if HasName(v, "_type") then 1 else 0
    ensures forall i: nat | IsFirst(v, "_type", i) :: RootTag(v) == [Member("content_type", Fixed(v.members[i].value))]
  {
    hide Fixed;
    HasIff(v, "_type");
    TaggedIff(v);
  }

  lemma {:induction false} WrappedStands(v: Json, target: string)
    requires v.Obj? && !IsMessage(v)
    ensures IsWrapped(v, target, FixedRoot(v, target))
  {
    hide *;
    WrapperIs(v, target);
    RootTagIs(v);
    WithIdIs(v);
    var d, t, c := Member("destination", Obj([Member("target", Leaf(target))])), RootTag(v),
      Member("content", Obj(WithId(v)));
    ThreeParts(v, target, FixedRoot(v, target), d, t, c);
  }

  lemma {:induction false} ThreeParts(v: Json, target: string, r: Json, d: Member, t: seq<Member>, c: Member)
    requires r == Obj([d] + t + [c]) && d == Member("destination", Obj([Member("target", Leaf(target))]))
    requires |t| == if HasName(v, "_type") then 1 else 0
    requires forall i: nat | IsFirst(v, "_type", i) :: t == [Member("content_type", Fixed(v.members[i].value))]
    requires c.key == "content" && c.value.Obj? && IsWithId(v, c.value.members)
    ensures IsWrapped(v, target, r)
  {
    hide HasName, IsWithId, Fixed;
  }

  /** Wrapped is just what has not both a destination and a content. */
  lemma {:induction false} RootWrittenOut(v: Json, target: string)
    ensures RootStands(v, target, FixedRoot(v, target))
    ensures ToWrap(v) <==> v.Obj? && !IsMessage(v)
  {
    hide Fixed, IsMessage, IsWrapped, IsWithId, WithId;
    ToWrapIff(v);
    if v.Obj? {
      if IsMessage(v) { WithIdIs(v); } else { WrappedStands(v, target); }
    }
  }

  lemma {:induction false} FixedIsObject(v: Json)
    requires v.Obj?
    ensures Fixed(v).Obj?
  {}

  // ---------------------------------------------------------------- tags inside

  /** Somewhere inside, an object that stands under a name other than `_type` has a `_type`. */
  ghost predicate TypeInside(v: Json) {
    match v
    case Leaf(_) => false
    case Arr(items) => exists i :: 0 <= i < |items| && TypeInside(items[i])
    case Obj(ms) =>
      exists j :: 0 <= j < |ms| && ms[j].key != "_type" && (HasName(ms[j].value, "_type") || TypeInside(ms[j].value))
  }
}
