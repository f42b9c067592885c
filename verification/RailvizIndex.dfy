/**
 The polylines of a train map: the server sends one polyline per pair of stops and, for each train, an index whose
 sign gives the direction; the client takes both apart again.
 */
module RailvizIndex {

  /** A pair of stops, the smaller one first. */
  datatype Key = Key(low: int, high: int)

  datatype StopPair = StopPair(from: int, to: int)

  function KeyOf(r: StopPair): Key {
    if r.from <= r.to then Key(r.from, r.to) else Key(r.to, r.from)
  }

  /** The coordinates of a polyline, as the client decodes them. */
  type Polyline<C> = seq<C>

  // ---------------------------------------------------------------- the client

  function Abs(i: int): nat {
    if i < 0 then -i else i
  }

  predicate Fwd(index: int) {
    index > 0
  }

  function FirstCoordinate<C>(polylines: seq<Polyline<C>>, index: int): C
    requires Abs(index) < |polylines| && |polylines[Abs(index)]| > 0
  {
    var coords := polylines[Abs(index)];
    coords[if Fwd(index) then 0 else |coords| - 1]
  }

  function LastCoordinate<C>(polylines: seq<Polyline<C>>, index: int): C
    requires Abs(index) < |polylines| && |polylines[Abs(index)]| > 0
  {
    var coords := polylines[Abs(index)];
    coords[if Fwd(index) then |coords| - 1 else 0]
  }

  // ---------------------------------------------------------------- the server

  /** Every cached pair has its own polyline, and besides these there is only the placeholder. */
  ghost predicate Cached<C>(cache: map<Key, int>, polylines: seq<Polyline<C>>, pos: int -> C) {
    && |polylines| == |cache| + 1 && polylines[0] == []
    && (forall k | k in cache :: HasPolyline(cache, polylines, pos, k))
    && (forall k, l | k in cache && l in cache && cache[k] == cache[l] :: k == l)
    && (forall p | 1 <= p < |polylines| :: OfSomePair(cache, p))
  }

  ghost predicate OfSomePair(cache: map<Key, int>, p: int) {
    exists k :: k in cache && cache[k] == p
  }

  ghost predicate HasPolyline<C>(cache: map<Key, int>, polylines: seq<Polyline<C>>, pos: int -> C, k: Key)
    requires k in cache
  {
    0 < cache[k] < |polylines| && polylines[cache[k]] == [pos(k.low), pos(k.high)]
  }

  /** The client finds the run's stops where it looks for them. */
  ghost predicate LeadsAlong<C>(polylines: seq<Polyline<C>>, index: int, r: StopPair, pos: int -> C) {
    && 1 <= Abs(index) < |polylines| && |polylines[Abs(index)]| > 0
    && FirstCoordinate(polylines, index) == pos(r.from) && LastCoordinate(polylines, index) == pos(r.to)
  }

  ghost function Pairs(runs: seq<StopPair>, n: nat): set<Key>
    requires n <= |runs|
  {
    if n == 0 then {} else Pairs(runs, n - 1) + {KeyOf(runs[n - 1])}
  }

  lemma {:induction false} PairsHas(runs: seq<StopPair>, n: nat, k: Key)
    requires n <= |runs|
    ensures k in Pairs(runs, n) <==> exists i :: 0 <= i < n && KeyOf(runs[i]) == k
  {
    if n > 0 { PairsHas(runs, n - 1, k); }
  }

  lemma {:induction false} NewPolyline<C>(cache: map<Key, int>, polylines: seq<Polyline<C>>, pos: int -> C, k: Key)
    requires Cached(cache, polylines, pos) && k !in cache
    ensures Cached(cache[k := |polylines|], polylines + [[pos(k.low), pos(k.high)]], pos)
  {
    var c, p := cache[k := |polylines|], polylines + [[pos(k.low), pos(k.high)]];
    assert c.Keys == cache.Keys + {k};
    assert |c| == |c.Keys| && |cache| == |cache.Keys|;
    forall l | l in c ensures HasPolyline(c, p, pos, l) {
      if l != k { assert HasPolyline(cache, polylines, pos, l); }
    }
    forall l, m | l in c && m in c && c[l] == c[m] ensures l == m {
      if l != k { assert HasPolyline(cache, polylines, pos, l); }
      if m != k { assert HasPolyline(cache, polylines, pos, m); }
    }
    forall x | 1 <= x < |p| ensures OfSomePair(c, x) {
      if x < |polylines| {
        assert OfSomePair(cache, x);
        var l :| l in cache && cache[l] == x;
        assert c[l] == x;
      } else {
        assert c[k] == x;
      }
    }
  }

  function Signed(index: int, r: StopPair): int {
    index * if KeyOf(r).low != r.from then -1 else 1
  }

  lemma {:induction false} SignedIndexLeadsAlong<C>(cache: map<Key, int>, polylines: seq<Polyline<C>>, pos: int -> C,
                                                    r: StopPair)
    requires Cached(cache, polylines, pos) && KeyOf(r) in cache
    ensures LeadsAlong(polylines, Signed(cache[KeyOf(r)], r), r, pos)
  {
    assert HasPolyline(cache, polylines, pos, KeyOf(r));
  }

  ghost predicate Indexed(cache: map<Key, int>, index: int, r: StopPair) {
    KeyOf(r) in cache && Abs(index) == cache[KeyOf(r)]
  }

  lemma {:induction false} SignedIndexed(cache: map<Key, int>, r: StopPair)
    requires KeyOf(r) in cache && cache[KeyOf(r)] > 0
    ensures Indexed(cache, Signed(cache[KeyOf(r)], r), r)
  {}

  lemma {:induction false} MoreKeys(cache: map<Key, int>, k: Key, v: int, index: int, r: StopPair)
    requires k !in cache && Indexed(cache, index, r)
    ensures Indexed(cache[k := v], index, r)
  {}

  lemma {:induction false} CacheInjective<C>(cache: map<Key, int>, polylines: seq<Polyline<C>>, pos: int -> C)
    requires Cached(cache, polylines, pos)
    ensures |polylines| == |cache.Keys| + 1 && polylines[0] == []
    ensures forall k, l | k in cache && l in cache && cache[k] == cache[l] :: k == l
  {
    assert |cache| == |cache.Keys|;
  }

  lemma {:induction false} MorePolylines<C>(polylines: seq<Polyline<C>>, polylines': seq<Polyline<C>>, index: int,
                                            r: StopPair, pos: int -> C)
    requires LeadsAlong(polylines, index, r, pos) && polylines <= polylines'
    ensures LeadsAlong(polylines', index, r, pos)
  {}

  /** The first n runs have their indices. */
  ghost predicate Served<C>(cache: map<Key, int>, polylines: seq<Polyline<C>>, pos: int -> C, runs: seq<StopPair>,
                            indices: seq<int>)
    requires |indices| <= |runs|
  {
    forall i | 0 <= i < |indices| :: Indexed(cache, indices[i], runs[i])
        && LeadsAlong(polylines, indices[i], runs[i], pos)
  }

  lemma {:induction false} ServedStays<C>(cache: map<Key, int>, polylines: seq<Polyline<C>>, pos: int -> C,
                                          runs: seq<StopPair>, indices: seq<int>, key: Key, v: int, more: Polyline<C>)
    requires |indices| <= |runs| && Served(cache, polylines, pos, runs, indices) && key !in cache
    ensures Served(cache[key := v], polylines + [more], pos, runs, indices)
  {
    hide LeadsAlong, Indexed;
    forall i | 0 <= i < |indices|
      ensures LeadsAlong(polylines + [more], indices[i], runs[i], pos) && Indexed(cache[key := v], indices[i], runs[i])
    {
      MorePolylines(polylines, polylines + [more], indices[i], runs[i], pos);
      MoreKeys(cache, key, v, indices[i], runs[i]);
    }
  }

  /** `get_or_create`, with the polyline of a new pair. */
  method GetOrCreate<C>(cache: map<Key, int>, polylines: seq<Polyline<C>>, pos: int -> C, key: Key,
                        ghost runs: seq<StopPair>, ghost indices: seq<int>)
    returns (cache': map<Key, int>, polylines': seq<Polyline<C>>)
    requires Cached(cache, polylines, pos) && |indices| <= |runs| && Served(cache, polylines, pos, runs, indices)
    ensures Cached(cache', polylines', pos) && Served(cache', polylines', pos, runs, indices)
    ensures cache'.Keys == cache.Keys + {key}
  {
    hide *;
    cache', polylines' := cache, polylines;
    if key !in cache {
      NewPolyline(cache, polylines, pos, key);
      ServedStays(cache, polylines, pos, runs, indices, key, |polylines|, [pos(key.low), pos(key.high)]);
      polylines' := polylines + [[pos(key.low), pos(key.high)]];
      cache' := cache[key := |polylines'| - 1];
    }
  }

  lemma {:induction false} OneMoreServed<C>(cache: map<Key, int>, polylines: seq<Polyline<C>>, pos: int -> C,
                                            runs: seq<StopPair>, indices: seq<int>)
    requires |indices| < |runs| && Served(cache, polylines, pos, runs, indices)
    requires Cached(cache, polylines, pos) && KeyOf(runs[|indices|]) in cache
    ensures Served(cache, polylines, pos, runs, indices + [Signed(cache[KeyOf(runs[|indices|])], runs[|indices|])])
  {
    assert HasPolyline(cache, polylines, pos, KeyOf(runs[|indices|]));
    hide LeadsAlong, Indexed, Cached, Signed;
    SignedIndexLeadsAlong(cache, polylines, pos, runs[|indices|]);
    SignedIndexed(cache, runs[|indices|]);
  }

  lemma {:induction false} PairsNext(runs: seq<StopPair>, n: nat)
    requires n < |runs|
    ensures Pairs(runs, n + 1) == Pairs(runs, n) + {KeyOf(runs[n])}
  {}

  lemma {:induction false} NothingServed<C>(pos: int -> C, runs: seq<StopPair>)
    ensures Cached(map[], [[]], pos) && Served(map[], [[]], pos, runs, [])
    ensures var none: map<Key, int> := map[]; none.Keys == Pairs(runs, 0)
  {}

  lemma {:induction false} AllServed<C>(cache: map<Key, int>, polylines: seq<Polyline<C>>, pos: int -> C,
                                        runs: seq<StopPair>, indices: seq<int>)
    requires |indices| == |runs| && Cached(cache, polylines, pos) && Served(cache, polylines, pos, runs, indices)
    requires cache.Keys == Pairs(runs, |runs|)
    ensures |polylines| == |Pairs(runs, |runs|)| + 1 && polylines[0] == []
    ensures forall i | 0 <= i < |runs| :: LeadsAlong(polylines, indices[i], runs[i], pos)
    ensures forall i, j | 0 <= i < |runs| && 0 <= j < |runs| :: Abs(indices[i]) == Abs(indices[j]) <==>
        KeyOf(runs[i]) == KeyOf(runs[j])
    ensures forall p | 1 <= p < |polylines| :: UsedBySome(indices, p)
  {
    CacheInjective(cache, polylines, pos);
    hide KeyOf, LeadsAlong, Cached;
    forall i, j | 0 <= i < |runs| && 0 <= j < |runs|
      ensures Abs(indices[i]) == Abs(indices[j]) <==> KeyOf(runs[i]) == KeyOf(runs[j])
    {
      assert Indexed(cache, indices[i], runs[i]) && Indexed(cache, indices[j], runs[j]);
    }
    forall p | 1 <= p < |polylines| ensures UsedBySome(indices, p) {
      UsedByRun(cache, polylines, pos, runs, indices, p);
    }
  }

  /** Some run has this index, forwards or backwards. */
  ghost predicate UsedBySome(indices: seq<int>, p: int) {
    exists i :: 0 <= i < |indices| && Abs(indices[i]) == p
  }

  /** The pair of a polyline is that of a run. */
  lemma {:induction false} UsedByRun<C>(cache: map<Key, int>, polylines: seq<Polyline<C>>, pos: int -> C,
                                        runs: seq<StopPair>, indices: seq<int>, p: int)
    requires |indices| == |runs| && Cached(cache, polylines, pos) && Served(cache, polylines, pos, runs, indices)
    requires cache.Keys == Pairs(runs, |runs|) && 1 <= p < |polylines|
    ensures UsedBySome(indices, p)
  {
    hide LeadsAlong, KeyOf, HasPolyline;
    assert OfSomePair(cache, p);
    var k :| k in cache && cache[k] == p;
    PairsHas(runs, |runs|, k);
    assert k in cache.Keys;
    var i :| 0 <= i < |runs| && KeyOf(runs[i]) == k;
    assert Indexed(cache, indices[i], runs[i]);
  }

  /** A polyline of the run's two stops, in the direction that the sign of the index gives. */
  ghost predicate DrawnAlong<C>(polylines: seq<Polyline<C>>, index: int, r: StopPair, pos: int -> C) {
    || (0 < index < |polylines| && polylines[index] == [pos(r.from), pos(r.to)])
    || (0 < -index < |polylines| && polylines[-index] == [pos(r.to), pos(r.from)])
  }

  lemma {:induction false} IndexDrawnAlong<C>(cache: map<Key, int>, polylines: seq<Polyline<C>>, pos: int -> C,
                                              index: int, r: StopPair)
    requires Cached(cache, polylines, pos) && Indexed(cache, index, r) && LeadsAlong(polylines, index, r, pos)
    ensures DrawnAlong(polylines, index, r, pos)
  {
    assert HasPolyline(cache, polylines, pos, KeyOf(r));
  }

  lemma {:induction false} KeyIsPair(r: StopPair, s: StopPair)
    ensures KeyOf(r) == KeyOf(s) <==> {r.from, r.to} == {s.from, s.to}
  {
    if {r.from, r.to} == {s.from, s.to} {
      assert r.from in {s.from, s.to} && r.to in {s.from, s.to};
      assert s.from in {r.from, r.to} && s.to in {r.from, r.to};
    }
  }

  lemma {:induction false} AllDrawnAlong<C>(cache: map<Key, int>, polylines: seq<Polyline<C>>, pos: int -> C,
                                            runs: seq<StopPair>, indices: seq<int>)
    requires |indices| == |runs| && Cached(cache, polylines, pos) && Served(cache, polylines, pos, runs, indices)
    ensures forall i | 0 <= i < |runs| :: DrawnAlong(polylines, indices[i], runs[i], pos)
  {
    hide Cached, Indexed, LeadsAlong, DrawnAlong;
    forall i | 0 <= i < |runs| ensures DrawnAlong(polylines, indices[i], runs[i], pos) {
      IndexDrawnAlong(cache, polylines, pos, indices[i], runs[i]);
    }
  }

  /** Two runs share a polyline, in one direction or in both, iff they have the same two stops. */
  lemma {:induction false} SharedIff(runs: seq<StopPair>, indices: seq<int>)
    requires |indices| == |runs|
    requires forall i, j | 0 <= i < |runs| && 0 <= j < |runs| ::
        Abs(indices[i]) == Abs(indices[j]) <==> KeyOf(runs[i]) == KeyOf(runs[j])
    ensures forall i, j | 0 <= i < |runs| && 0 <= j < |runs| ::
        (indices[i] == indices[j] || indices[i] == -indices[j])
        <==> {runs[i].from, runs[i].to} == {runs[j].from, runs[j].to}
  {
    hide KeyOf;
    forall i, j | 0 <= i < |runs| && 0 <= j < |runs|
      ensures (indices[i] == indices[j] || indices[i] == -indices[j])
        <==> {runs[i].from, runs[i].to} == {runs[j].from, runs[j].to}
    {
      KeyIsPair(runs[i], runs[j]);
    }
  }

  /** One polyline per unordered pair of stops besides the placeholder: two runs have the same one iff they have the
      same two stops, and each is some run's; every run's polyline is that of its two stops, and the sign tells the
      direction. */
  method CreateResponse<C>(runs: seq<StopPair>, pos: int -> C) returns (polylines: seq<Polyline<C>>, indices: seq<int>)
    ensures |indices| == |runs| && |polylines| == |Pairs(runs, |runs|)| + 1 && polylines[0] == []
    ensures forall i | 0 <= i < |runs| :: LeadsAlong(polylines, indices[i], runs[i], pos)
    ensures forall i | 0 <= i < |runs| :: DrawnAlong(polylines, indices[i], runs[i], pos)
    ensures forall i, j | 0 <= i < |runs| && 0 <= j < |runs| ::
        (indices[i] == indices[j] || indices[i] == -indices[j])
        <==> {runs[i].from, runs[i].to} == {runs[j].from, runs[j].to}
    ensures forall p | 1 <= p < |polylines| :: UsedBySome(indices, p)
  {
    hide *;
    var cache: map<Key, int> := map[];
    polylines, indices := [[]], [];
    NothingServed(pos, runs);
    for n := 0 to |runs|
      invariant |indices| == n && Cached(cache, polylines, pos) && cache.Keys == Pairs(runs, n)
      invariant Served(cache, polylines, pos, runs, indices)
    {
      PairsNext(runs, n);
      cache, polylines := GetOrCreate(cache, polylines, pos, KeyOf(runs[n]), runs, indices);
      OneMoreServed(cache, polylines, pos, runs, indices);
      indices := indices + [Signed(cache[KeyOf(runs[n])], runs[n])];
    }
    AllServed(cache, polylines, pos, runs, indices);
    AllDrawnAlong(cache, polylines, pos, runs, indices);
    SharedIff(runs, indices);
  }
}
