/** What is kept, where the tags stand, and that fixing twice is fixing once. */
module JsonTheorems {
  import opened JsonModel

  // ---------------------------------------------------------------- keys

  /** A tag's key and its union's key give each other. */
  lemma {:induction false} TagOfUnion(key: string)
    requires IsTypeKey(key)
    ensures Tag(UnionKey(key)) == key && |UnionKey(key)| > 0
  {
    assert key == key[..|key| - 5] + key[|key| - 5..];
  }

  lemma {:induction false} UnionOfTag(key: string)
    requires |key| > 0
    ensures IsTypeKey(Tag(key)) && UnionKey(Tag(key)) == key && Tag(key) != TYPE_KEY
  {
    assert Tag(key)[|Tag(key)| - 5..] == TYPE_KEY;
    assert |Tag(key)| > |TYPE_KEY|;
  }

  ghost predicate DistinctKeys(ms: seq<Member>) {
    forall i, k | 0 <= i < k < |ms| :: ms[i].key != ms[k].key
  }

  /** Member names as JSON text should have them. */
  ghost predicate GoodKeys(ms: seq<Member>) {
    DistinctKeys(ms) && forall i | 0 <= i < |ms| :: |ms[i].key| > 0
  }

  ghost predicate HasKey(ms: seq<Member>, key: string) {
    exists i :: 0 <= i < |ms| && ms[i].key == key
  }

  lemma {:induction false} HasIsHasKey(ms: seq<Member>, key: string)
    ensures Has(ms, key) <==> HasKey(ms, key)
  {}

  lemma {:induction false} FindAt(ms: seq<Member>, j: nat)
    requires DistinctKeys(ms) && j < |ms|
    ensures Has(ms, ms[j].key) && Find(ms, ms[j].key) == j
  {}

  lemma {:induction false} DistinctConcat(a: seq<Member>, b: seq<Member>)
    requires DistinctKeys(a) && DistinctKeys(b) && forall i, k | 0 <= i < |a| && 0 <= k < |b| :: a[i].key != b[k].key
    ensures DistinctKeys(a + b)
  {}

  // ---------------------------------------------------------------- conditions

  /** x, x_type and x_type_type are all there. */
  ghost predicate Chain(ms: seq<Member>, i: nat) {
    i < |ms| && IsTag(ms, i) && IsTag(ms, UnionOf(ms, i))
  }

  /** A union is tagged both beside it and inside it. */
  ghost predicate TaggedTwice(ms: seq<Member>, i: nat) {
    i < |ms| && IsTag(ms, i) && Tagged(ms[UnionOf(ms, i)].value)
  }

  ghost predicate NoChains(ms: seq<Member>) {
    forall i: nat :: !Chain(ms, i)
  }

  ghost predicate NoneTaggedTwice(ms: seq<Member>) {
    forall i: nat :: !TaggedTwice(ms, i)
  }

  // ---------------------------------------------------------------- keys of the passes

  /** Pair i writes this key. */
  ghost predicate FromPair(ms: seq<Member>, i: nat, key: string) {
    i < |ms| && IsTag(ms, i) && (key == ms[i].key || key == UnionKey(ms[i].key))
  }

  lemma {:induction false} WrittenHas(ms: seq<Member>, n: nat, key: string)
    requires n <= |ms|
    ensures key in Written(ms, n) <==> exists i: nat :: i < n && FromPair(ms, i, key)
  {
    if n > 0 {
      WrittenHas(ms, n - 1, key);
      if FromPair(ms, n - 1, key) { assert key in Written(ms, n); }
    }
  }

  lemma {:induction false} FieldKeys(v: Json, j: nat, x: nat)
    requires v.Obj? && j < |v.members| && x < |Field(v, j)|
    ensures var key := Field(v, j)[x].key;
      key == v.members[j].key || (Tagged(v.members[j].value) && key == Tag(v.members[j].key))
  {}

  lemma {:induction false} PairKeys(v: Json, i: nat, x: nat)
    requires v.Obj? && i < |v.members| && x < |Pair(v, i)|
    ensures FromPair(v.members, i, Pair(v, i)[x].key)
  {
    TagOfUnion(v.members[i].key);
    if x > 0 { FieldKeys(v, UnionOf(v.members, i), x - 1); }
  }

  lemma {:induction false} FirstPassKeys(v: Json, n: nat, x: nat) returns (i: nat)
    requires v.Obj? && n <= |v.members| && x < |FirstPass(v, n)|
    ensures i < n && FromPair(v.members, i, FirstPass(v, n)[x].key)
  {
    if x < |FirstPass(v, n - 1)| {
      i := FirstPassKeys(v, n - 1, x);
    } else {
      i := n - 1;
      PairKeys(v, i, x - |FirstPass(v, n - 1)|);
    }
  }

  lemma {:induction false} SecondPassKeys(v: Json, n: nat, x: nat) returns (j: nat)
    requires v.Obj? && n <= |v.members| && x < |SecondPass(v, n)|
    ensures j < n && IsLeft(v.members, j)
    ensures var key := SecondPass(v, n)[x].key;
      key == v.members[j].key || (Tagged(v.members[j].value) && key == Tag(v.members[j].key))
  {
    if x < |SecondPass(v, n - 1)| {
      j := SecondPassKeys(v, n - 1, x);
    } else {
      j := n - 1;
      FieldKeys(v, j, x - |SecondPass(v, n - 1)|);
    }
  }

  /** Different pairs write different keys, unless there is a chain. */
  lemma {:induction false} PairsApart(ms: seq<Member>, i: nat, k: nat, key: string)
    requires GoodKeys(ms) && NoChains(ms) && FromPair(ms, i, key) && FromPair(ms, k, key)
    ensures i == k
  {
    TagOfUnion(ms[i].key);
    TagOfUnion(ms[k].key);
    assert !Chain(ms, i) && !Chain(ms, k);
    FindAt(ms, i);
    FindAt(ms, k);
  }

  lemma {:induction false} PairDistinct(v: Json, i: nat)
    requires v.Obj? && i < |v.members| && !TaggedTwice(v.members, i)
    ensures DistinctKeys(Pair(v, i))
  {
    if IsTag(v.members, i) { TagOfUnion(v.members[i].key); }
  }

  lemma {:induction false} FirstPassDistinct(v: Json, n: nat)
    requires v.Obj? && n <= |v.members| && GoodKeys(v.members) && NoChains(v.members) && NoneTaggedTwice(v.members)
    ensures DistinctKeys(FirstPass(v, n))
  {
    if n > 0 {
      FirstPassDistinct(v, n - 1);
      assert !TaggedTwice(v.members, n - 1);
      PairDistinct(v, n - 1);
      var a, b := FirstPass(v, n - 1), Pair(v, n - 1);
      forall x, y | 0 <= x < |a| && 0 <= y < |b| ensures a[x].key != b[y].key {
        var i := FirstPassKeys(v, n - 1, x);
        PairKeys(v, n - 1, y);
        if a[x].key == b[y].key { PairsApart(v.members, i, n - 1, a[x].key); }
      }
      DistinctConcat(a, b);
    }
  }

  /** The tag found inside what is left has a name of its own: otherwise it would have been a pair. */
  lemma {:induction false} LeftTagIsNew(ms: seq<Member>, j: nat, k: nat)
    requires GoodKeys(ms) && j < |ms| && k < |ms| && IsLeft(ms, j)
    ensures ms[k].key != Tag(ms[j].key)
  {
    UnionOfTag(ms[j].key);
    FindAt(ms, j);
    WrittenHas(ms, |ms|, ms[j].key);
    assert !FromPair(ms, k, ms[j].key);
  }

  lemma {:induction false} TagInjective(a: string, b: string)
    requires Tag(a) == Tag(b)
    ensures a == b
  {
    assert Tag(a)[..|a|] == a && Tag(b)[..|b|] == b;
  }

  lemma {:induction false} SecondPassDistinct(v: Json, n: nat)
    requires v.Obj? && n <= |v.members| && GoodKeys(v.members)
    ensures DistinctKeys(SecondPass(v, n))
  {
    if n > 0 {
      SecondPassDistinct(v, n - 1);
      if IsLeft(v.members, n - 1) {
        var ms, a, b := v.members, SecondPass(v, n - 1), Field(v, n - 1);
        forall x, y | 0 <= x < |a| && 0 <= y < |b| ensures a[x].key != b[y].key {
          var j := SecondPassKeys(v, n - 1, x);
          FieldKeys(v, n - 1, y);
          LeftTagIsNew(ms, j, n - 1);
          LeftTagIsNew(ms, n - 1, j);
          if Tag(ms[j].key) == Tag(ms[n - 1].key) { TagInjective(ms[j].key, ms[n - 1].key); }
        }
        LeftTagIsNew(ms, n - 1, n - 1);
        DistinctConcat(a, b);
      }
    }
  }

  function Out(v: Json): seq<Member>
    requires v.Obj?
  {
    FirstPass(v, |v.members|) + SecondPass(v, |v.members|)
  }

  lemma {:induction false} PassesApart(v: Json, x: nat, y: nat)
    requires v.Obj? && GoodKeys(v.members)
    requires x < |FirstPass(v, |v.members|)| && y < |SecondPass(v, |v.members|)|
    ensures FirstPass(v, |v.members|)[x].key != SecondPass(v, |v.members|)[y].key
  {
    var ms := v.members;
    var i := FirstPassKeys(v, |ms|, x);
    var j := SecondPassKeys(v, |ms|, y);
    WrittenHas(ms, |ms|, ms[j].key);
    LeftTagIsNew(ms, j, i);
    LeftTagIsNew(ms, j, UnionOf(ms, i));
  }

  lemma {:induction false} OutDistinct(v: Json)
    requires v.Obj? && GoodKeys(v.members) && NoChains(v.members) && NoneTaggedTwice(v.members)
    ensures DistinctKeys(Out(v))
  {
    FirstPassDistinct(v, |v.members|);
    SecondPassDistinct(v, |v.members|);
    var a, b := FirstPass(v, |v.members|), SecondPass(v, |v.members|);
    forall x, y | 0 <= x < |a| && 0 <= y < |b| ensures a[x].key != b[y].key {
      PassesApart(v, x, y);
    }
    DistinctConcat(a, b);
  }

  // ---------------------------------------------------------------- chains and double tags do harm

  lemma {:induction false} PairStands(v: Json, i: nat, n: nat)
    requires v.Obj? && i < n <= |v.members|
    ensures var s, at := FirstPass(v, n), |FirstPass(v, i)|;
        at + |Pair(v, i)| <= |s|
        && s[at..at + |Pair(v, i)|] == Pair(v, i)
    ensures |FirstPass(v, i + 1)| == |FirstPass(v, i)| + |Pair(v, i)| && |FirstPass(v, i + 1)| <= |FirstPass(v, n)|
    decreases n
  {
    if i < n - 1 { PairStands(v, i, n - 1); }
  }

  lemma {:induction false} TwiceHarms(v: Json, i: nat)
    requires v.Obj? && TaggedTwice(v.members, i)
    ensures !DistinctKeys(Out(v))
  {
    PairStands(v, i, |v.members|);
    TagOfUnion(v.members[i].key);
    var at, s := |FirstPass(v, i)|, FirstPass(v, |v.members|);
    assert Pair(v, i)[0].key == Pair(v, i)[1].key;
    assert s[at..at + |Pair(v, i)|][0] == s[at] && s[at..at + |Pair(v, i)|][1] == s[at + 1];
    assert Out(v)[at].key == Out(v)[at + 1].key;
  }

  /** The last member of a pair is the union. */
  lemma {:induction false} PairEnds(v: Json, i: nat)
    requires v.Obj? && i < |v.members| && IsTag(v.members, i)
    ensures |Pair(v, i)| >= 2 && Pair(v, i)[0].key == v.members[i].key
        && Pair(v, i)[|Pair(v, i)| - 1].key == UnionKey(v.members[i].key)
  {}

  lemma {:induction false} ChainHarms(v: Json, i: nat)
    requires v.Obj? && Chain(v.members, i)
    ensures !DistinctKeys(Out(v))
  {
    var ms := v.members;
    var k := UnionOf(ms, i);
    TagOfUnion(ms[i].key);
    assert i != k;
    PairStands(v, i, |ms|);
    PairStands(v, k, |ms|);
    PairEnds(v, i);
    PairEnds(v, k);
    var s := FirstPass(v, |ms|);
    var p, q := |FirstPass(v, i)| + |Pair(v, i)| - 1, |FirstPass(v, k)|;
    assert s[p].key == ms[k].key by { assert s[|FirstPass(v, i)|..p + 1][|Pair(v, i)| - 1] == s[p]; }
    assert s[q].key == ms[k].key by { assert s[q..q + |Pair(v, k)|][0] == s[q]; }
    if i < k { PairStands(v, i, k); } else { PairStands(v, k, i); }
    assert p != q;
    assert Out(v)[p].key == Out(v)[q].key;
  }

  /** What is written for an object has each name once iff no union is tagged twice and there is no x_type_type besides
      x_type and x. */
  lemma {:induction false} KeysDistinctIff(v: Json)
    requires v.Obj? && GoodKeys(v.members)
    ensures DistinctKeys(Out(v)) <==> NoChains(v.members) && NoneTaggedTwice(v.members)
  {
    if NoChains(v.members) && NoneTaggedTwice(v.members) {
      OutDistinct(v);
    } else if !NoChains(v.members) {
      var i: nat :| Chain(v.members, i);
      ChainHarms(v, i);
    } else {
      var i: nat :| TaggedTwice(v.members, i);
      TwiceHarms(v, i);
    }
  }

  /** The union x is tagged beside it and inside it: x_type is written twice. */
  lemma {:induction false} TaggedTwiceIsWrittenTwice()
    ensures var v := Obj([Member("x_type", Leaf("1")), Member("x", Obj([Member("_type", Leaf("2"))]))]);
      && GoodKeys(v.members) && !DistinctKeys(Out(v))
      && Out(v) == [Member("x_type", Leaf("1")), Member("x_type", Leaf("2")), Member("x", Obj([]))]
  {
    var u := Obj([Member("_type", Leaf("2"))]);
    var ms := [Member("x_type", Leaf("1")), Member("x", u)];
    var v := Obj(ms);
    assert ms[0].key == Tag("x") && ms[0].key[0] == 'x' && |ms[0].key| == 6 && |ms[1].key| == 1;
    UnionOfTag("x");
    assert Find(u.members, TYPE_KEY) == 0;
    assert Find(ms, "x") == 1;
    assert !IsTypeKey("x") && !IsTypeKey("_type");
    UnwrittenUnion(u);
    TwoMembers(v);
    assert Out(v)[0].key == Out(v)[1].key;
  }

  lemma {:induction false} UnwrittenUnion(u: Json)
    requires u == Obj([Member("_type", Leaf("2"))])
    ensures Fixed(u) == Obj([])
  {
    assert !IsTypeKey(u.members[0].key);
    assert FirstPass(u, 0) == [] && FirstPass(u, 1) == [];
    assert !IsLeft(u.members, 0) && SecondPass(u, 0) == [] && SecondPass(u, 1) == [];
  }

  lemma {:induction false} TwoMembers(v: Json)
    requires v.Obj? && |v.members| == 2 && v.members[0].key == Tag("x") && v.members[1].key == "x"
        && v.members[0].value.Leaf?
    requires Tagged(v.members[1].value) && !IsTypeKey("x") && IsTag(v.members, 0) && UnionOf(v.members, 0) == 1
    ensures Out(v) == [Member(Tag("x"), v.members[0].value),
                       Member(Tag("x"), Fixed(v.members[1].value.members[Find(v.members[1].value.members,
                         TYPE_KEY)].value)),
                       Member("x", Fixed(v.members[1].value))]
  {
    var ms := v.members;
    TagOfUnion(ms[0].key);
    assert FirstPass(v, 0) == [] && FirstPass(v, 1) == Pair(v, 0) && FirstPass(v, 2) == Pair(v, 0);
    assert Written(ms, 0) == {} && Written(ms, 1) == {Tag("x"), "x"} && Written(ms, 2) == {Tag("x"), "x"};
    assert !IsLeft(ms, 0) && !IsLeft(ms, 1);
    assert SecondPass(v, 0) == [] && SecondPass(v, 1) == [] && SecondPass(v, 2) == [];
    assert Fixed(ms[0].value) == ms[0].value;
  }
}
