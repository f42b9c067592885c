/** Everything is kept once, tags stand before their unions, and fixing again changes nothing but the order. */
module JsonResults {
  import opened JsonModel
  import opened JsonTheorems

  /** A name that is written for an object: that of a member, or of the tag found inside a member. */
  ghost predicate OutKey(ms: seq<Member>, key: string) {
    exists j: nat :: KeyFrom(ms, j, key)
  }

  ghost predicate KeyFrom(ms: seq<Member>, j: nat, key: string) {
    j < |ms| && ms[j].key != TYPE_KEY && (key == ms[j].key || (Tagged(ms[j].value) && key == Tag(ms[j].key)))
  }

  /** x, x_type and x_type_type would all be written. */
  ghost predicate OutChain(ms: seq<Member>, x: string) {
    |x| > 0 && OutKey(ms, x) && OutKey(ms, Tag(x)) && OutKey(ms, Tag(Tag(x)))
  }

  /** The objects the program is made for. */
  ghost predicate Clean(ms: seq<Member>) {
    && GoodKeys(ms) && NoneTaggedTwice(ms)
    && (forall x :: !OutChain(ms, x))
    && !(HasKey(ms, TYPE_KEY) && HasKey(ms, Tag(TYPE_KEY)))
  }

  lemma {:induction false} TagNotOdd(ms: seq<Member>, i: nat)
    requires Clean(ms) && i < |ms| && IsTag(ms, i)
    ensures UnionKey(ms[i].key) != TYPE_KEY && ms[i].key != TYPE_KEY && ms[UnionOf(ms, i)].key != TYPE_KEY
  {
    TagOfUnion(ms[i].key);
    var u := UnionOf(ms, i);
    assert HasKey(ms, ms[i].key) && HasKey(ms, ms[u].key);
  }

  lemma {:induction false} MemberKey(ms: seq<Member>, j: nat)
    requires j < |ms| && ms[j].key != TYPE_KEY
    ensures OutKey(ms, ms[j].key) && (Tagged(ms[j].value) ==> OutKey(ms, Tag(ms[j].key)))
  {
    assert KeyFrom(ms, j, ms[j].key);
    if Tagged(ms[j].value) { assert KeyFrom(ms, j, Tag(ms[j].key)); }
  }

  lemma {:induction false} CleanHasNoChains(ms: seq<Member>)
    requires Clean(ms)
    ensures NoChains(ms)
  {
    forall i: nat | i < |ms| && IsTag(ms, i) ensures !Chain(ms, i) {
      var u := UnionOf(ms, i);
      if IsTag(ms, u) {
        TagNotOdd(ms, i);
        TagNotOdd(ms, u);
        TagOfUnion(ms[i].key);
        TagOfUnion(ms[u].key);
        MemberKey(ms, i);
        MemberKey(ms, u);
        MemberKey(ms, UnionOf(ms, u));
        assert OutChain(ms, UnionKey(ms[u].key));
      }
    }
  }

  /** The value of a tag has no `_type` inside. */
  lemma {:induction false} TagNotTagged(ms: seq<Member>, i: nat)
    requires Clean(ms) && i < |ms| && IsTag(ms, i)
    ensures !Tagged(ms[i].value)
  {
    TagNotOdd(ms, i);
    TagOfUnion(ms[i].key);
    MemberKey(ms, i);
    MemberKey(ms, UnionOf(ms, i));
    assert !OutChain(ms, UnionKey(ms[i].key));
  }

  // ---------------------------------------------------------------- where things stand

  /** Position x of the first pass is position o of pair i. */
  lemma {:induction false} FirstAt(v: Json, n: nat, x: nat) returns (i: nat, o: nat)
    requires v.Obj? && n <= |v.members| && x < |FirstPass(v, n)|
    ensures i < n && o < |Pair(v, i)| && FirstPass(v, n)[x] == Pair(v, i)[o]
    ensures o + 1 < |Pair(v, i)| ==> x + 1 < |FirstPass(v, n)| && FirstPass(v, n)[x + 1] == Pair(v, i)[o + 1]
  {
    var before := |FirstPass(v, n - 1)|;
    if x < before {
      i, o := FirstAt(v, n - 1, x);
    } else {
      i, o := n - 1, x - before;
    }
  }

  /** Position x of the second pass is position o of member j. */
  lemma {:induction false} SecondAt(v: Json, n: nat, x: nat) returns (j: nat, o: nat)
    requires v.Obj? && n <= |v.members| && x < |SecondPass(v, n)|
    ensures j < n && IsLeft(v.members, j) && o < |Field(v, j)| && SecondPass(v, n)[x] == Field(v, j)[o]
    ensures o + 1 < |Field(v, j)| ==> x + 1 < |SecondPass(v, n)| && SecondPass(v, n)[x + 1] == Field(v, j)[o + 1]
  {
    var before := |SecondPass(v, n - 1)|;
    if x < before {
      j, o := SecondAt(v, n - 1, x);
    } else {
      j, o := n - 1, x - before;
    }
  }

  lemma {:induction false} PairIsOut(v: Json, i: nat, n: nat, e: Member)
    requires v.Obj? && i < n <= |v.members| && e in Pair(v, i)
    ensures e in FirstPass(v, n)
    decreases n
  {
    if i < n - 1 { PairIsOut(v, i, n - 1, e); }
  }

  lemma {:induction false} LeftIsOut(v: Json, j: nat, n: nat, e: Member)
    requires v.Obj? && j < n <= |v.members| && IsLeft(v.members, j) && e in Field(v, j)
    ensures e in SecondPass(v, n)
    decreases n
  {
    if j < n - 1 { LeftIsOut(v, j, n - 1, e); }
  }

  // ---------------------------------------------------------------- every member once

  /** Member j is to be written like this: under its key, a tag found inside it under its key with `_type`. */
  ghost predicate Due(v: Json, j: nat, e: Member)
    requires v.Obj?
  {
    j < |v.members| && v.members[j].key != TYPE_KEY && e in Field(v, j)
  }

  lemma {:induction false} OutIsDue(v: Json, e: Member)
    requires v.Obj? && Clean(v.members) && e in Out(v)
    ensures exists j: nat :: Due(v, j, e)
  {
    var x :| 0 <= x < |Out(v)| && Out(v)[x] == e;
    var first := |FirstPass(v, |v.members|)|;
    if x < first {
      var i, o := FirstAt(v, |v.members|, x);
      TagNotOdd(v.members, i);
      if o == 0 {
        assert Field(v, i)[|Field(v, i)| - 1] == e;
        assert Due(v, i, e);
      } else {
        assert e == Field(v, UnionOf(v.members, i))[o - 1];
        assert Due(v, UnionOf(v.members, i), e);
      }
    } else {
      var j, o := SecondAt(v, |v.members|, x - first);
      assert Due(v, j, e);
    }
  }

  lemma {:induction false} DueIsOut(v: Json, j: nat, e: Member)
    requires v.Obj? && Clean(v.members) && Due(v, j, e)
    ensures e in Out(v)
  {
    var ms := v.members;
    if IsTag(ms, j) {
      TagNotTagged(ms, j);
      assert e == Pair(v, j)[0];
      PairIsOut(v, j, |ms|, e);
    } else if i: nat :| i < |ms| && IsTag(ms, i) && UnionOf(ms, i) == j {
      assert e in Pair(v, i);
      PairIsOut(v, i, |ms|, e);
    } else {
      WrittenHas(ms, |ms|, ms[j].key);
      FindAt(ms, j);
      forall i: nat ensures !FromPair(ms, i, ms[j].key) {
        if i < |ms| { FindAt(ms, i); }
      }
      LeftIsOut(v, j, |ms|, e);
    }
  }

  /** What is written is exactly what is due, each under a name of its own: nothing is lost and nothing is doubled. */
  lemma {:induction false} MembersKept(v: Json, e: Member)
    requires v.Obj? && Clean(v.members)
    ensures DistinctKeys(Out(v)) && (e in Out(v) <==> exists j: nat :: Due(v, j, e))
  {
    CleanHasNoChains(v.members);
    OutDistinct(v);
    if e in Out(v) {
      OutIsDue(v, e);
    } else if j: nat :| Due(v, j, e) {
      DueIsOut(v, j, e);
    }
  }

  lemma {:induction false} OutKeys(v: Json, key: string)
    requires v.Obj? && Clean(v.members)
    ensures HasKey(Out(v), key) <==> OutKey(v.members, key)
  {
    if x :| 0 <= x < |Out(v)| && Out(v)[x].key == key {
      OutIsDue(v, Out(v)[x]);
      var j: nat :| Due(v, j, Out(v)[x]);
      var o :| 0 <= o < |Field(v, j)| && Field(v, j)[o] == Out(v)[x];
      FieldKeys(v, j, o);
      assert KeyFrom(v.members, j, key);
    }
    if j: nat :| KeyFrom(v.members, j, key) {
      var o := if key == v.members[j].key then |Field(v, j)| - 1 else 0;
      assert Field(v, j)[o].key == key;
      DueIsOut(v, j, Field(v, j)[o]);
    }
  }

  // ---------------------------------------------------------------- tags stand before their unions

  ghost predicate TagBefore(s: seq<Member>, p: nat)
    requires p < |s|
  {
    IsTypeKey(s[p].key) && HasKey(s, UnionKey(s[p].key)) ==> p + 1 < |s| && s[p + 1].key == UnionKey(s[p].key)
  }

  lemma {:induction false} TagBeforeFirst(v: Json, p: nat)
    requires v.Obj? && Clean(v.members) && p < |FirstPass(v, |v.members|)|
    ensures TagBefore(Out(v), p)
  {
    var ms := v.members;
    var i, o := FirstAt(v, |ms|, p);
    TagOfUnion(ms[i].key);
    assert !TaggedTwice(ms, i);
    var u := UnionOf(ms, i);
    assert |Pair(v, i)| == 2;
    if o == 1 && IsTypeKey(ms[u].key) {
      TagOfUnion(ms[u].key);
      OutKeys(v, UnionKey(ms[u].key));
      TagNotOdd(ms, i);
      MemberKey(ms, u);
      MemberKey(ms, i);
      assert !OutChain(ms, UnionKey(ms[u].key));
    }
  }

  lemma {:induction false} TagBeforeSecond(v: Json, p: nat)
    requires v.Obj? && Clean(v.members) && |FirstPass(v, |v.members|)| <= p < |Out(v)|
    ensures TagBefore(Out(v), p)
  {
    var ms := v.members;
    var j, o := SecondAt(v, |ms|, p - |FirstPass(v, |ms|)|);
    UnionOfTag(ms[j].key);
    if o + 1 == |Field(v, j)| && IsTypeKey(ms[j].key) {
      var x := UnionKey(ms[j].key);
      TagOfUnion(ms[j].key);
      OutKeys(v, x);
      if OutKey(ms, x) { LeftHasNoUnion(ms, j); }
    }
  }

  /** What is left of the first pass has no union, not even one that is itself the tag of something. */
  lemma {:induction false} LeftHasNoUnion(ms: seq<Member>, j: nat)
    requires Clean(ms) && j < |ms| && IsLeft(ms, j) && IsTypeKey(ms[j].key)
    ensures !OutKey(ms, UnionKey(ms[j].key))
  {
    var x := UnionKey(ms[j].key);
    TagOfUnion(ms[j].key);
    WrittenHas(ms, |ms|, ms[j].key);
    assert !FromPair(ms, j, ms[j].key);
    MemberKey(ms, j);
    forall k: nat | k < |ms| ensures !KeyFrom(ms, k, x) {
      FindAt(ms, k);
      if ms[k].key != TYPE_KEY { MemberKey(ms, k); }
      assert !OutChain(ms, ms[k].key);
    }
  }

  /** Wherever a tag and its union are both written for an object, the tag stands directly before the union. */
  lemma {:induction false} TagsBeforeUnions(v: Json, p: nat)
    requires v.Obj? && Clean(v.members) && p < |Out(v)|
    ensures TagBefore(Out(v), p)
  {
    if p < |FirstPass(v, |v.members|)| { TagBeforeFirst(v, p); } else { TagBeforeSecond(v, p); }
  }

  // ---------------------------------------------------------------- fixing again

  ghost predicate CleanTree(v: Json) {
    match v
    case Leaf(_) => true
    case Arr(items) => forall i | 0 <= i < |items| :: CleanTree(items[i])
    case Obj(ms) => Clean(ms) && forall i | 0 <= i < |ms| :: CleanTree(ms[i].value)
  }

  /** No object has a `_type` inside. */
  ghost predicate Untagged(v: Json) {
    match v
    case Leaf(_) => true
    case Arr(items) => forall i | 0 <= i < |items| :: Untagged(items[i])
    case Obj(ms) => !Has(ms, TYPE_KEY) && forall i | 0 <= i < |ms| :: Untagged(ms[i].value)
  }

  /** Equal but for the order of members. */
  ghost predicate Same(a: Json, b: Json) {
    match (a, b)
    case (Leaf(s), Leaf(t)) => s == t
    case (Arr(s), Arr(t)) => |s| == |t| && forall i | 0 <= i < |s| :: Same(s[i], t[i])
    case (Obj(s), Obj(t)) =>
      && DistinctKeys(s) && DistinctKeys(t) && (forall k | 0 <= k < |t| :: Has(s, t[k].key))
      && forall i | 0 <= i < |s| :: Has(t, s[i].key) && Same(s[i].value, t[Find(t, s[i].key)].value)
    case _ => false
  }

  lemma {:induction false} FixedItemsAt(v: Json, n: nat)
    requires v.Arr? && n <= |v.items|
    ensures |FixedItems(v, n)| == n && forall i | 0 <= i < n :: FixedItems(v, n)[i] == Fixed(v.items[i])
  {
    if n > 0 { FixedItemsAt(v, n - 1); }
  }

  /** What is written for an object is of this form: a member's value or the value of a `_type` inside it. */
  lemma {:induction false} OutValue(v: Json, x: nat) returns (w: Json)
    requires v.Obj? && Clean(v.members) && x < |Out(v)|
    ensures Out(v)[x].value == Fixed(w) && w < v && (CleanTree(v) ==> CleanTree(w))
    ensures OutKey(v.members, Out(v)[x].key)
  {
    OutIsDue(v, Out(v)[x]);
    var j: nat :| Due(v, j, Out(v)[x]);
    var m := v.members[j];
    var o :| 0 <= o < |Field(v, j)| && Field(v, j)[o] == Out(v)[x];
    FieldKeys(v, j, o);
    assert KeyFrom(v.members, j, Out(v)[x].key);
    w := FieldValue(v, j, o);
  }

  lemma {:induction false} FieldValue(v: Json, j: nat, o: nat) returns (w: Json)
    requires v.Obj? && j < |v.members| && o < |Field(v, j)|
    ensures Field(v, j)[o].value == Fixed(w) && w < v && (CleanTree(v) ==> CleanTree(w))
  {
    w := v.members[j].value;
    assert w < v;
    if CleanTree(v) { assert CleanTree(v.members[j].value); }
    if o < |Field(v, j)| - 1 {
      w := TagInside(w);
    }
  }

  lemma {:induction false} TagInside(u: Json) returns (w: Json)
    requires Tagged(u)
    ensures w == u.members[Find(u.members, TYPE_KEY)].value && w < u && (CleanTree(u) ==> CleanTree(w))
  {
    var t := Find(u.members, TYPE_KEY);
    w := u.members[t].value;
    if CleanTree(u) { assert CleanTree(u.members[t].value); }
  }

  lemma {:induction false} OutKeyNotType(ms: seq<Member>, key: string)
    requires GoodKeys(ms) && OutKey(ms, key)
    ensures key != TYPE_KEY && |key| > 0
  {
    var j: nat :| KeyFrom(ms, j, key);
    UnionOfTag(ms[j].key);
  }

  /** After fixing, no `_type` is left and every object is again as it should be. */
  lemma {:induction false} FixedIsClean(v: Json)
    requires CleanTree(v)
    ensures Untagged(Fixed(v)) && CleanTree(Fixed(v))
    decreases v
  {
    match v
    case Leaf(_) =>
    case Arr(items) =>
      FixedItemsAt(v, |items|);
      forall i | 0 <= i < |items| { FixedIsClean(items[i]); }
    case Obj(ms) =>
      forall x | 0 <= x < |Out(v)|
        ensures Out(v)[x].key != TYPE_KEY && |Out(v)[x].key| > 0 && Untagged(Out(v)[x].value)
            && CleanTree(Out(v)[x].value)
      {
        var w := OutValue(v, x);
        OutKeyNotType(ms, Out(v)[x].key);
        FixedIsClean(w);
      }
      OutIsClean(v);
  }

  lemma {:induction false} OutIsClean(v: Json)
    requires v.Obj? && Clean(v.members)
    requires forall x | 0 <= x < |Out(v)| ::
        Out(v)[x].key != TYPE_KEY && |Out(v)[x].key| > 0
        && Untagged(Out(v)[x].value)
    ensures Clean(Out(v))
  {
    var out := Out(v);
    CleanHasNoChains(v.members);
    OutDistinct(v);
    forall i: nat ensures !TaggedTwice(out, i) {}
    forall x ensures !OutChain(out, x) {
      OutKeyAgain(v, x);
      OutKeyAgain(v, Tag(x));
      OutKeyAgain(v, Tag(Tag(x)));
      assert !OutChain(v.members, x);
    }
  }

  lemma {:induction false} OutKeyAgain(v: Json, key: string)
    requires v.Obj? && Clean(v.members)
    requires forall x | 0 <= x < |Out(v)| :: Out(v)[x].key != TYPE_KEY && Untagged(Out(v)[x].value)
    ensures OutKey(Out(v), key) ==> OutKey(v.members, key)
  {
    OutKeys(v, key);
    if j: nat :| KeyFrom(Out(v), j, key) { assert HasKey(Out(v), key); }
  }

  lemma {:induction false} UntaggedField(v: Json, j: nat)
    requires v.Obj? && j < |v.members| && !Tagged(v.members[j].value)
    ensures Field(v, j) == [Member(v.members[j].key, Fixed(v.members[j].value))]
  {}

  /** Where there is no `_type` any more, fixing at most changes the order. */
  lemma {:induction false} FixingUntagged(v: Json)
    requires CleanTree(v) && Untagged(v)
    ensures Same(Fixed(v), v)
    decreases v
  {
    match v
    case Leaf(_) =>
    case Arr(items) =>
      FixedItemsAt(v, |items|);
      forall i | 0 <= i < |items| { FixingUntagged(items[i]); }
    case Obj(ms) =>
      CleanHasNoChains(ms);
      OutDistinct(v);
      forall k | 0 <= k < |ms| ensures Has(Out(v), ms[k].key) {
        OutHasMember(v, k);
      }
      forall i | 0 <= i < |Out(v)|
        ensures Has(ms, Out(v)[i].key) && Same(Out(v)[i].value, ms[Find(ms, Out(v)[i].key)].value) {
        var j := OutMemberFrom(v, i);
        FindAt(ms, j);
        FixingUntagged(ms[j].value);
      }
  }

  lemma {:induction false} OutHasMember(v: Json, k: nat)
    requires v.Obj? && Clean(v.members) && !Has(v.members, TYPE_KEY) && k < |v.members|
    ensures Has(Out(v), v.members[k].key)
  {
    assert v.members[k].key != TYPE_KEY;
    MemberKey(v.members, k);
    OutKeys(v, v.members[k].key);
    HasIsHasKey(Out(v), v.members[k].key);
  }

  lemma {:induction false} OutMemberFrom(v: Json, i: nat) returns (j: nat)
    requires v.Obj? && Clean(v.members) && Untagged(v) && i < |Out(v)|
    ensures j < |v.members| && Out(v)[i] == Member(v.members[j].key, Fixed(v.members[j].value))
  {
    OutIsDue(v, Out(v)[i]);
    j :| Due(v, j, Out(v)[i]);
    UntaggedField(v, j);
  }

  /** Fixing what has been fixed changes nothing but the order of members. */
  lemma {:induction false} FixingAgain(v: Json)
    requires CleanTree(v)
    ensures Same(Fixed(Fixed(v)), Fixed(v))
  {
    FixedIsClean(v);
    FixingUntagged(Fixed(v));
  }

  // ---------------------------------------------------------------- whole messages

  lemma {:induction false} KeepsName(v: Json, key: string)
    requires v.Obj? && Clean(v.members) && Has(v.members, key) && key != TYPE_KEY
    ensures Fixed(v) == Obj(Out(v)) && Has(Out(v), key)
  {
    MemberKey(v.members, Find(v.members, key));
    OutKeys(v, key);
    HasIsHasKey(Out(v), key);
  }

  /** A message that has destination, content and id is only fixed inside, and fixing it again changes nothing but the
      order. */
  lemma {:induction false} MessageFixedAgain(v: Json, target: string, target': string)
    requires CleanTree(v) && IsMessage(v) && Has(v.members, "id")
    ensures FixedRoot(v, target) == Fixed(v)
    ensures Same(FixedRoot(FixedRoot(v, target), target'), FixedRoot(v, target))
  {
    KeepsName(v, "destination");
    KeepsName(v, "content");
    KeepsName(v, "id");
    FixingAgain(v);
    assert WithId(v) == Out(v);
    assert WithId(Fixed(v)) == Fixed(Fixed(v)).members;
  }

  /** Anything else that is an object becomes the content of a message, and the id is put inside the content; so the
      message itself has none. */
  lemma {:induction false} WrappedHasNoId(v: Json, target: string)
    requires v.Obj? && !IsMessage(v)
    ensures var r := FixedRoot(v, target); IsMessage(r) && !Has(r.members, "id")
    ensures var r := FixedRoot(v, target); r.members[|r.members| - 1] == Member("content", Obj(WithId(v)))
  {
    var r := FixedRoot(v, target);
    assert r.members[0].key == "destination" && r.members[|r.members| - 1].key == "content";
    assert Tag("content")[0] == 'c';
    assert forall i | 0 <= i < |r.members| :: r.members[i].key[0] != "id"[0];
  }

  /** A message without an id gets one when it is fixed again, which is no change of order. */
  lemma {:induction false} IdIsAdded(r: Json, target: string)
    requires IsMessage(r) && !Has(r.members, "id")
    ensures !Same(FixedRoot(r, target), r)
  {
    var t := FixedRoot(r, target);
    assert t == Obj(WithId(r));
    assert t.members[|t.members| - 1].key == "id";
  }

  /** No member of what is written has the name "id", unless one had it before. */
  lemma {:induction false} NoIdOut(v: Json)
    requires v.Obj? && Clean(v.members) && !Has(v.members, "id")
    ensures !OutKey(v.members, "id") && !HasKey(Out(v), "id")
  {
    OutKeys(v, "id");
    HasIsHasKey(v.members, "id");
    forall j: nat ensures !KeyFrom(v.members, j, "id") {
      if j < |v.members| { assert |Tag(v.members[j].key)| > |"id"|; }
    }
  }

  /** The names "id_type" and "id_type_type" would both be written: with the id added they make a chain of tags. */
  ghost predicate IdChain(ms: seq<Member>) {
    OutKey(ms, Tag("id")) && OutKey(ms, Tag(Tag("id")))
  }

  const ADDED_ID := Member("id", Leaf("1"))

  /** Where no `_type` is left, the keys written are those there are. */
  lemma {:induction false} UntaggedKeys(ms: seq<Member>, key: string)
    requires Untagged(Obj(ms))
    ensures OutKey(ms, key) <==> HasKey(ms, key)
  {
    HasIsHasKey(ms, TYPE_KEY);
    forall j: nat | j < |ms| ensures KeyFrom(ms, j, key) <==> ms[j].key == key {
      assert Untagged(ms[j].value);
    }
  }

  lemma {:induction false} KeyOfConcat(a: seq<Member>, m: Member, key: string)
    ensures HasKey(a + [m], key) <==> HasKey(a, key) || m.key == key
  {
    var s := a + [m];
    assert s[|a|] == m && forall i | 0 <= i < |a| :: s[i] == a[i];
    if HasKey(a, key) {
      var i :| 0 <= i < |a| && a[i].key == key;
      assert s[i].key == key;
    }
  }

  /** A key of what is written with the id added. */
  lemma {:induction false} WithIdKey(v: Json, key: string)
    requires CleanTree(v) && v.Obj? && !Has(v.members, "id")
    ensures OutKey(Out(v) + [ADDED_ID], key) <==> OutKey(v.members, key) || key == "id"
  {
    WithIdDistinct(v);
    OutKeys(v, key);
    hide *;
    UntaggedKeys(Out(v) + [ADDED_ID], key);
    KeyOfConcat(Out(v), ADDED_ID, key);
    assert ADDED_ID.key == "id";
  }

  lemma {:induction false} WithIdDistinct(v: Json)
    requires CleanTree(v) && v.Obj? && !Has(v.members, "id")
    ensures Obj(Out(v) + [ADDED_ID]) == Obj(WithId(v)) && Untagged(Obj(WithId(v))) && GoodKeys(Out(v) + [ADDED_ID])
    ensures NoneTaggedTwice(Out(v) + [ADDED_ID]) && forall i | 0 <= i < |WithId(v)| :: CleanTree(WithId(v)[i].value)
  {
    FixedIsClean(v);
    NoIdOut(v);
    var out, ms := Out(v), Out(v) + [ADDED_ID];
    assert Fixed(v) == Obj(out) && WithId(v) == ms;
    forall i | 0 <= i < |ms|
      ensures ms[i].key != TYPE_KEY && |ms[i].key| > 0 && Untagged(ms[i].value) && CleanTree(ms[i].value) {
      if i < |out| { assert ms[i] == out[i] && !Has(out, TYPE_KEY); }
    }
    DistinctConcat(out, [ADDED_ID]);
    forall i: nat ensures !TaggedTwice(ms, i) {}
  }

  lemma {:induction false} WithIdStays(v: Json, target: string)
    requires CleanTree(v) && IsMessage(v) && !Has(v.members, "id")
    ensures Same(FixedRoot(Obj(WithId(v)), target), Obj(WithId(v))) <==> !IdChain(v.members)
  {
    var ms := Out(v) + [ADDED_ID];
    WithIdDistinct(v);
    WithIdIsMessage(v);
    var w := Obj(ms);
    assert FixedRoot(w, target) == Fixed(w) == Obj(Out(w));
    if IdChain(v.members) {
      IdChainHarms(v);
    } else {
      WithIdClean(v);
      FixingUntagged(w);
    }
  }

  /** With the id added an object is still as it should be, unless the id makes a chain of tags. */
  lemma {:induction false} WithIdClean(v: Json)
    requires CleanTree(v) && v.Obj? && (Has(v.members, "id") || !IdChain(v.members))
    ensures CleanTree(Obj(WithId(v))) && Untagged(Obj(WithId(v)))
  {
    FixedIsClean(v);
    if Has(v.members, "id") {
      assert WithId(v) == Fixed(v).members;
    } else {
      var ms := Out(v) + [ADDED_ID];
      WithIdDistinct(v);
      forall key ensures OutKey(ms, key) <==> OutKey(v.members, key) || key == "id" { WithIdKey(v, key); }
      forall x ensures !OutChain(ms, x) {
        assert !OutChain(v.members, x);
        assert |x| > 0 ==> |Tag(x)| > 5;
      }
      assert CleanTree(Obj(ms));
    }
  }

  lemma {:induction false} WithIdIsMessage(v: Json)
    requires CleanTree(v) && IsMessage(v) && !Has(v.members, "id")
    ensures IsMessage(Obj(Out(v) + [ADDED_ID])) && Has(Out(v) + [ADDED_ID], "id")
  {
    var out, ms := Out(v), Out(v) + [ADDED_ID];
    KeepsName(v, "destination");
    KeepsName(v, "content");
    assert ms[Find(out, "destination")].key == "destination" && ms[Find(out, "content")].key == "content"
        && ms[|out|].key == "id";
  }

  lemma {:induction false} IdChainHarms(v: Json)
    requires CleanTree(v) && v.Obj? && !Has(v.members, "id") && IdChain(v.members)
    ensures !DistinctKeys(Out(Obj(Out(v) + [ADDED_ID])))
  {
    var out, ms := Out(v), Out(v) + [ADDED_ID];
    WithIdDistinct(v);
    OutKeys(v, Tag("id"));
    OutKeys(v, Tag(Tag("id")));
    var i :| 0 <= i < |out| && out[i].key == Tag(Tag("id"));
    var k :| 0 <= k < |out| && out[k].key == Tag("id");
    assert ms[i] == out[i] && ms[k] == out[k] && ms[|out|] == ADDED_ID;
    UnionOfTag(Tag("id"));
    UnionOfTag("id");
    FindAt(ms, k);
    FindAt(ms, |out|);
    assert Chain(ms, i);
    KeysDistinctIff(Obj(ms));
  }

  /** Fixing a fixed root again changes nothing but the order iff it is no object; or a message which has an id, or
      whose added id makes no chain of tags.  What was wrapped always changes: only then the message gets its id. */
  lemma {:induction false} RootFixedAgainIff(v: Json, target: string, target': string)
    requires CleanTree(v)
    ensures Same(FixedRoot(FixedRoot(v, target), target'), FixedRoot(v, target)) <==>
      !v.Obj? || (IsMessage(v) && (Has(v.members, "id") || !IdChain(v.members)))
  {
    if !v.Obj? {
      FixingAgain(v);
    } else if !IsMessage(v) {
      WrappedHasNoId(v, target);
      IdIsAdded(FixedRoot(v, target), target');
    } else if Has(v.members, "id") {
      MessageFixedAgain(v, target, target');
    } else {
      WithIdStays(v, target');
    }
  }

  // ---------------------------------------------------------------- from the second fixing on

  /** The wrapper of what is no message. */
  function Wrapper(v: Json, target: string): seq<Member>
    requires v.Obj?
  {
    [Member("destination", Obj([Member("target", Leaf(target))]))]
    + (if Tagged(v) then [Member(Tag("content"), Fixed(v.members[Find(v.members, TYPE_KEY)].value))] else [])
    + [Member("content", Obj(WithId(v)))]
  }

  /** The wrapper as an object: its names are in order, whatever the content is. */
  lemma {:induction false} WrapperClean(v: Json, target: string)
    requires CleanTree(v) && v.Obj? && !IsMessage(v)
    ensures FixedRoot(v, target) == Obj(Wrapper(v, target)) && Clean(Wrapper(v, target)) && !IdChain(Wrapper(v, target))
    ensures CleanTree(Obj(WithId(v))) ==> CleanTree(Obj(Wrapper(v, target)))
  {
    var ms := Wrapper(v, target);
    WrapperValues(v, target);
    WrapperKeys(v, target);
    hide *;
    WrapperIs(v, target);
    WrapperOrder(ms);
    if CleanTree(Obj(WithId(v))) { WrapperTree(v, target); }
  }

  lemma {:induction false} WrapperIs(v: Json, target: string)
    requires v.Obj? && !IsMessage(v)
    ensures FixedRoot(v, target) == Obj(Wrapper(v, target))
  {}

  /** The keys of a wrapper, one after the other. */
  ghost predicate IsWrapper(ms: seq<Member>) {
    && 2 <= |ms| <= 3 && ms[0].key == "destination" && ms[|ms| - 1].key == "content"
      && (|ms| == 3 ==> ms[1].key == Tag("content"))
    && forall i | 0 <= i < |ms| :: !Tagged(ms[i].value)
  }

  lemma {:induction false} WrapperKeys(v: Json, target: string)
    requires v.Obj? && forall i | 0 <= i < |Wrapper(v, target)| :: !Tagged(Wrapper(v, target)[i].value)
    ensures IsWrapper(Wrapper(v, target))
  {
    hide Tagged, Fixed, WithId;
  }

  /** No value in a wrapper has a `_type`. */
  lemma {:induction false} WrapperValues(v: Json, target: string)
    requires CleanTree(v) && v.Obj?
    ensures forall i | 0 <= i < |Wrapper(v, target)| :: !Tagged(Wrapper(v, target)[i].value)
  {
    var address := Obj([Member("target", Leaf(target))]);
    assert address.members[0].key == "target" && "target"[0] != TYPE_KEY[0];
    assert !Tagged(address);
    WithIdUntagged(v);
    if Tagged(v) {
      var t := TagInside(v);
      FixedIsClean(t);
    }
  }

  lemma {:induction false} WithIdUntagged(v: Json)
    requires CleanTree(v) && v.Obj?
    ensures !Tagged(Obj(WithId(v)))
  {
    FixedIsClean(v);
    if Has(v.members, "id") {
      assert WithId(v) == Fixed(v).members;
    } else {
      WithIdDistinct(v);
    }
  }

  lemma {:induction false} WrapperOrder(ms: seq<Member>)
    requires IsWrapper(ms)
    ensures Clean(ms) && !IdChain(ms)
  {
    assert |Tag("content")| == 12 && Tag("content")[0] == 'c' && |"destination"| == 11 && |"content"| == 7
        && |TYPE_KEY| == 5;
    forall i | 0 <= i < |ms| ensures |ms[i].key| == if i == 0 then 11 else if i == |ms| - 1 then 7 else 12 {}
    forall i, k | 0 <= i < k < |ms| ensures ms[i].key != ms[k].key {}
    forall i: nat ensures !TaggedTwice(ms, i) {}
    forall x, j: nat | KeyFrom(ms, j, x) ensures |x| == 7 || |x| == 11 || |x| == 12 {}
    forall x ensures !OutChain(ms, x) { NoLongKeys(ms, x); }
    forall j: nat ensures !KeyFrom(ms, j, Tag("id")) {
      if j < |ms| { assert ms[j].key[0] != Tag("id")[0]; }
    }
  }

  lemma {:induction false} NoLongKeys(ms: seq<Member>, x: string)
    requires forall y, j: nat | KeyFrom(ms, j, y) :: |y| == 7 || |y| == 11 || |y| == 12
    ensures !OutChain(ms, x)
  {
    hide KeyFrom;
    assert |Tag(x)| == |x| + 5 && |Tag(Tag(x))| == |x| + 10;
  }

  lemma {:induction false} WrapperTree(v: Json, target: string)
    requires CleanTree(v) && v.Obj? && CleanTree(Obj(WithId(v))) && Clean(Wrapper(v, target))
    ensures CleanTree(Obj(Wrapper(v, target)))
  {
    var ms := Wrapper(v, target);
    var m := Member("target", Leaf(target));
    OneMemberClean(m);
    if Tagged(v) {
      var t := TagInside(v);
      FixedIsClean(t);
    }
    forall i | 0 <= i < |ms| ensures CleanTree(ms[i].value) {
      if i == 0 { assert ms[0].value == Obj([m]); } else if i == |ms| - 1 { assert ms[i].value == Obj(WithId(v)); }
    }
  }

  /** The content of a wrapper is fixed with it. */
  lemma {:induction false} WrapperFixed(v: Json, target: string)
    requires CleanTree(v) && v.Obj? && !IsMessage(v)
    ensures Member("content", Fixed(Obj(WithId(v)))) in Out(Obj(Wrapper(v, target)))
  {
    var r, c := Obj(Wrapper(v, target)), Obj(WithId(v));
    WrapperClean(v, target);
    WithIdUntagged(v);
    var j: nat := |r.members| - 1;
    assert r.members[j] == Member("content", c);
    UntaggedField(r, j);
    assert "content" != TYPE_KEY by { assert |"content"| == 7 && |TYPE_KEY| == 5; }
    assert Due(r, j, Member("content", Fixed(c)));
    DueIsOut(r, j, Member("content", Fixed(c)));
  }

  /** What has two members of one name inside is like nothing. */
  lemma {:induction false} BadMemberDiffers(a: Json, ms: seq<Member>, m: Member)
    requires m in ms && m.value.Obj? && !DistinctKeys(m.value.members)
    ensures !Same(a, Obj(ms))
  {
    if Same(a, Obj(ms)) {
      var k :| 0 <= k < |ms| && ms[k] == m;
      FindAt(ms, k);
      assert Has(a.members, ms[k].key);
      var i := Find(a.members, m.key);
      assert Same(a.members[i].value, ms[Find(ms, a.members[i].key)].value);
    }
  }

  /** Fixing a second time what was wrapped, and has come out wrong inside. */
  lemma {:induction false} BadContentStays(v: Json, target: string, target': string, again: Json)
    requires CleanTree(v) && v.Obj? && !IsMessage(v) && !Has(v.members, "id") && IdChain(v.members)
    ensures !Same(again, FixedRoot(FixedRoot(v, target), target'))
  {
    WrapperIs(v, target);
    WrappedHasNoId(v, target);
    WrapperFixed(v, target);
    IdChainHarms(v);
    WithIdDistinct(v);
    var r, m := Obj(Wrapper(v, target)), Member("content", Fixed(Obj(WithId(v))));
    assert Fixed(Obj(WithId(v))) == Obj(Out(Obj(WithId(v))));
    assert FixedRoot(r, target') == Obj(WithId(r)) && m in WithId(r);
    BadMemberDiffers(again, WithId(r), m);
  }

  /** From the second fixing on only the order changes iff it is no object, or has an id, or the id added makes no
      chain of tags: what was wrapped has then got its second id. */
  lemma {:induction false} FixedThriceIff(v: Json, s: string, t: string, u: string)
    requires CleanTree(v)
    ensures var twice := FixedRoot(FixedRoot(v, s), t);
      Same(FixedRoot(twice, u), twice) <==> !v.Obj? || Has(v.members, "id") || !IdChain(v.members)
  {
    hide *;
    if !v.Obj? {
      NoObjectThrice(v, s, t, u);
    } else if Has(v.members, "id") || !IdChain(v.members) {
      GoodThrice(v, s, t, u);
    } else if IsMessage(v) {
      BadMessageThrice(v, s, t, FixedRoot(FixedRoot(FixedRoot(v, s), t), u));
    } else {
      BadContentStays(v, s, t, FixedRoot(FixedRoot(FixedRoot(v, s), t), u));
    }
  }

  lemma {:induction false} NoObjectThrice(v: Json, s: string, t: string, u: string)
    requires CleanTree(v) && !v.Obj?
    ensures var twice := FixedRoot(FixedRoot(v, s), t); Same(FixedRoot(twice, u), twice)
  {
    FixedIsClean(v);
    FixingAgain(Fixed(v));
  }

  lemma {:induction false} GoodThrice(v: Json, s: string, t: string, u: string)
    requires CleanTree(v) && v.Obj? && (Has(v.members, "id") || !IdChain(v.members))
    ensures var twice := FixedRoot(FixedRoot(v, s), t); Same(FixedRoot(twice, u), twice)
  {
    var r := FixedRoot(v, s);
    WithIdClean(v);
    hide Same, Fixed, Untagged;
    if IsMessage(v) {
      MessageWithId(v, s);
    } else {
      WrapperClean(v, s);
      WrappedHasNoId(v, s);
    }
    hide FixedRoot, CleanTree, WithId;
    RootFixedAgainIff(r, t, u);
  }

  /** A message has an id after it has been fixed. */
  lemma {:induction false} MessageWithId(v: Json, target: string)
    requires CleanTree(v) && IsMessage(v)
    ensures FixedRoot(v, target) == Obj(WithId(v)) && IsMessage(Obj(WithId(v))) && Has(WithId(v), "id")
  {
    if Has(v.members, "id") {
      KeepsName(v, "destination");
      KeepsName(v, "content");
      KeepsName(v, "id");
      assert WithId(v) == Out(v);
    } else {
      WithIdIsMessage(v);
      WithIdDistinct(v);
    }
  }

  lemma {:induction false} BadMessageThrice(v: Json, s: string, t: string, again: Json)
    requires CleanTree(v) && IsMessage(v) && !Has(v.members, "id") && IdChain(v.members)
    ensures !Same(again, FixedRoot(FixedRoot(v, s), t))
  {
    MessageWithId(v, s);
    IdChainHarms(v);
    WithIdDistinct(v);
    var w := Obj(WithId(v));
    assert FixedRoot(w, t) == Obj(WithId(w)) && WithId(w) == Out(w);
  }

  /** What is wrapped changes, but only once. */
  lemma {:induction false} WrappedChanges(target: string)
    ensures var v := Obj([Member("x", Leaf("1"))]); var twice := FixedRoot(FixedRoot(v, target), target);
      CleanTree(v) && !Same(twice, FixedRoot(v, target)) && Same(FixedRoot(twice, target), twice)
  {
    var v := Obj([Member("x", Leaf("1"))]);
    OneMemberClean(v.members[0]);
    assert Find(v.members, "destination") == 1;
    NoTagForId(v.members[0]);
    hide Same, FixedRoot;
    RootFixedAgainIff(v, target, target);
    FixedThriceIff(v, target, target, target);
  }

  lemma {:induction false} NoTagForId(m: Member)
    requires m.value.Leaf? && m.key == "x"
    ensures !IdChain([m])
  {
    forall j: nat ensures !KeyFrom([m], j, Tag("id")) {
      assert |Tag("id")| == 7;
    }
  }

  /** So does a message with the names id_type and id_type_type and no id, and again every time. */
  lemma {:induction false} IdChainChanges(target: string)
    ensures var v := Obj(FOUR); var twice := FixedRoot(FixedRoot(v, target), target);
      CleanTree(v) && IsMessage(v) && !Same(twice, FixedRoot(v, target)) && !Same(FixedRoot(twice, target), twice)
  {
    FourMembersClean();
    FourNames();
    hide *;
    RootFixedAgainIff(Obj(FOUR), target, target);
    FixedThriceIff(Obj(FOUR), target, target, target);
    assert IsMessage(Obj(FOUR)) && Obj(FOUR).Obj? && Obj(FOUR).members == FOUR;
  }

  lemma {:induction false} FourNames()
    ensures IsMessage(Obj(FOUR)) && !Has(FOUR, "id") && IdChain(FOUR)
  {
    assert Find(FOUR, "destination") == 0 && Find(FOUR, "content") == 1 && Find(FOUR, "id") == 4;
    assert FOUR[2].key == Tag("id") && FOUR[3].key == Tag(Tag("id"));
    assert |Tag("id")| == 7 && |Tag(Tag("id"))| == 12 && |TYPE_KEY| == 5;
    assert KeyFrom(FOUR, 2, Tag("id")) && KeyFrom(FOUR, 3, Tag(Tag("id")));
  }

  const FOUR := [Member("destination", Leaf("1")), Member("content", Leaf("2")), Member("id_type", Leaf("3")),
    Member("id_type_type", Leaf("4"))]

  lemma {:induction false} KeyOfOne(m: Member, key: string)
    requires m.value.Leaf?
    ensures OutKey([m], key) ==> key == m.key
  {}

  lemma {:induction false} OneMemberClean(m: Member)
    requires m.value.Leaf? && m.key != TYPE_KEY && |m.key| > 0
    ensures CleanTree(Obj([m]))
  {
    forall x ensures !OutChain([m], x) {
      KeyOfOne(m, x);
      KeyOfOne(m, Tag(x));
      assert |Tag(x)| == |x| + 5;
    }
  }

  lemma {:induction false} KeyOfFour(i: nat, x: string)
    requires KeyFrom(FOUR, i, x)
    ensures |x| == 7 || |x| == 11 || |x| == 12
  {
    assert !Tagged(FOUR[i].value);
  }

  lemma {:induction false} FourKeysGood()
    ensures GoodKeys(FOUR)
  {
    assert forall i | 0 <= i < 4 :: |FOUR[i].key| == if i == 0 then 11 else if i == 3 then 12 else 7;
    assert FOUR[1].key[0] == 'c' && FOUR[2].key[0] == 'i';
  }

  lemma {:induction false} FourChainless()
    ensures (forall x :: !OutChain(FOUR, x)) && !HasKey(FOUR, TYPE_KEY)
  {
    forall x ensures !OutChain(FOUR, x) {
      if OutChain(FOUR, x) {
        var i: nat :| KeyFrom(FOUR, i, x);
        var j: nat :| KeyFrom(FOUR, j, Tag(x));
        var k: nat :| KeyFrom(FOUR, k, Tag(Tag(x)));
        KeyOfFour(i, x);
        KeyOfFour(j, Tag(x));
        KeyOfFour(k, Tag(Tag(x)));
      }
    }
  }

  lemma {:induction false} FourMembersClean()
    ensures CleanTree(Obj(FOUR))
  {
    FourKeysGood();
    forall i: nat ensures !TaggedTwice(FOUR, i) {}
    FourChainless();
    forall i | 0 <= i < |FOUR| ensures CleanTree(FOUR[i].value) {
      assert FOUR[i].value.Leaf?;
    }
    hide GoodKeys, NoneTaggedTwice;
    assert Clean(FOUR);
  }
}
