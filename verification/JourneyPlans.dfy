/**
 A reference for journey patching: a plan replaces one unit transport by a chain of legs with new stops in
 between, all at once, and each list of a journey is treated on its own.  What a list of plans does is
 characterised here; JourneyTheorems.dfy shows that the program's splitting and renumbering does just that.
 */
module JourneyPlans {
  import opened JourneyModel

  datatype AnyPlan = AnyPlan(at: nat, stops: seq<Stop>, mumos: seq<string>)

  /** Replace the transport at -> at + 1: the stops to insert, and the kind of each resulting leg, one more than
      stops. */
  type Plan = p: AnyPlan | |p.mumos| == |p.stops| + 1 && |p.stops| >= 1
    witness AnyPlan(0, [Stop("", "", 0.0, 0.0, Event(false, 0, 0, 0), Event(false, 0, 0, 0))], ["", ""])

  // ---------------------------------------------------------------- one plan

  function ShiftBy(i: nat, n: nat, m: nat): nat {
    if i >= n then i + m else i
  }

  function ShiftRange<T>(r: Ranged<T>, n: nat, m: nat): Ranged<T> {
    r.(from := ShiftBy(r.from, n, m), to := ShiftBy(r.to, n, m))
  }

  function ShiftByAll<T>(v: seq<Ranged<T>>, n: nat, m: nat): (r: seq<Ranged<T>>)
    ensures |r| == |v|
    ensures forall k {:trigger r[k]} | 0 <= k < |v| :: r[k] == ShiftRange(v[k], n, m)
  {
    seq(|v|, k requires 0 <= k < |v| => ShiftRange(v[k], n, m))
  }

  function Leg(f: nat, val: TransportInfo, mumos: seq<string>, q: nat): Ranged<TransportInfo>
    requires q < |mumos|
  {
    Ranged(f + q, f + q + 1, val.(mumoType := mumos[q]))
  }

  /** Entry x of the transport list after transport k has made way for the legs and all others were renumbered. */
  function Inserted(ts: Transports, k: nat, mumos: seq<string>, x: nat): Ranged<TransportInfo>
    requires k < |ts| && |mumos| >= 1 && x < |ts| + |mumos| - 1
  {
    var f, m := ts[k].from, |mumos| - 1;
    if x < k then ShiftRange(ts[x], f + 1, m)
    else if x <= k + m then Leg(f, ts[k].val, mumos, x - k)
    else ShiftRange(ts[x - m], f + 1, m)
  }

  function InsertedUpTo(ts: Transports, k: nat, mumos: seq<string>, n: nat): (r: Transports)
    requires k < |ts| && |mumos| >= 1 && n <= |ts| + |mumos| - 1
    ensures |r| == n && forall x {:trigger r[x]} | 0 <= x < n :: r[x] == Inserted(ts, k, mumos, x)
  {
    if n == 0 then [] else InsertedUpTo(ts, k, mumos, n - 1) + [Inserted(ts, k, mumos, n - 1)]
  }

  function InsertTransports(ts: Transports, k: nat, mumos: seq<string>): (r: Transports)
    requires k < |ts| && |mumos| >= 1
    ensures |r| == |ts| + |mumos| - 1
    ensures forall x {:trigger r[x]} | 0 <= x < |r| :: r[x] == Inserted(ts, k, mumos, x)
  {
    InsertedUpTo(ts, k, mumos, |ts| + |mumos| - 1)
  }

  lemma {:induction false} InsertedLeg(ts: Transports, k: nat, mumos: seq<string>, q: nat)
    requires k < |ts| && q < |mumos|
    ensures InsertTransports(ts, k, mumos)[k + q] == Leg(ts[k].from, ts[k].val, mumos, q)
  {
    assert InsertTransports(ts, k, mumos)[k + q] == Inserted(ts, k, mumos, k + q);
  }

  /** The new stops go in before stop n. */
  function InsertStops(stops: seq<Stop>, n: nat, mid: seq<Stop>): (r: seq<Stop>)
    requires n <= |stops|
    ensures |r| == |stops| + |mid|
    ensures forall x {:trigger r[x]} | 0 <= x < n :: r[x] == stops[x]
    ensures forall x {:trigger r[x]} | n <= x < n + |mid| :: r[x] == mid[x - n]
    ensures forall x {:trigger r[x]} | n + |mid| <= x < |r| :: r[x] == stops[x - |mid|]
  {
    seq(|stops| + |mid|, x requires 0 <= x < |stops| + |mid| =>
      if x < n then stops[x] else if x < n + |mid| then mid[x - n] else stops[x - |mid|])
  }

  // ---------------------------------------------------------------- who covers which segment

  /** The segment of the old journey that segment s of the new one came from. */
  function OriginBy(s: nat, f: nat, m: nat): nat {
    if s <= f then s else if s <= f + m then f else s - m
  }

  lemma {:induction false} ShiftCovers<T>(r: Ranged<T>, f: nat, m: nat, s: nat)
    ensures Covers(ShiftRange(r, f + 1, m), s) == Covers(r, OriginBy(s, f, m))
  {}

  /** The transports among the first n that cover segment s, in list order, told apart by the fields patching leaves
      alone. */
  function RidersTo(ts: Transports, s: nat, n: nat): (r: seq<string>)
    requires n <= |ts|
    ensures |r| == CountTo(ts, s, n)
  {
    if n == 0 then [] else RidersTo(ts, s, n - 1) + if Covers(ts[n - 1], s) then [ts[n - 1].val.detail] else []
  }

  function Riders(ts: Transports, s: nat): (r: seq<string>)
    ensures |r| == Count(ts, s)
  {
    RidersTo(ts, s, |ts|)
  }

  lemma {:induction false} RidersBefore(ts: Transports, k: nat, mumos: seq<string>, s: nat, n: nat)
    requires k < |ts| && |mumos| >= 1 && n <= k
    ensures RidersTo(InsertTransports(ts, k, mumos), s, n) == RidersTo(ts, OriginBy(s, ts[k].from, |mumos| - 1), n)
  {
    if n > 0 {
      RidersBefore(ts, k, mumos, s, n - 1);
      assert InsertTransports(ts, k, mumos)[n - 1] == Inserted(ts, k, mumos, n - 1);
      ShiftCovers(ts[n - 1], ts[k].from, |mumos| - 1, s);
    }
  }

  lemma {:induction false} RidersOnLegs(ts: Transports, k: nat, mumos: seq<string>, s: nat, q: nat)
    requires k < |ts| && |mumos| >= 1 && q <= |mumos|
    ensures RidersTo(InsertTransports(ts, k, mumos), s, k + q) ==
            RidersTo(ts, OriginBy(s, ts[k].from, |mumos| - 1), k)
            + if ts[k].from <= s < ts[k].from + q then [ts[k].val.detail] else []
  {
    if q == 0 {
      RidersBefore(ts, k, mumos, s, k);
    } else {
      RidersOnLegs(ts, k, mumos, s, q - 1);
      InsertedLeg(ts, k, mumos, q - 1);
    }
  }

  lemma {:induction false} RidersStep(ts: Transports, s: nat, n: nat)
    requires n < |ts|
    ensures RidersTo(ts, s, n + 1) == RidersTo(ts, s, n) + if Covers(ts[n], s) then [ts[n].val.detail] else []
  {}

  lemma {:induction false} RidersBehind(ts: Transports, k: nat, mumos: seq<string>, s: nat, n: nat)
    requires k < n <= |ts| && ts[k].to == ts[k].from + 1 && |mumos| >= 1
    ensures RidersTo(InsertTransports(ts, k, mumos), s, n + |mumos| - 1) ==
        RidersTo(ts, OriginBy(s, ts[k].from, |mumos| - 1), n)
  {
    if n == k + 1 {
      RidersOnLegs(ts, k, mumos, s, |mumos|);
      RidersStep(ts, OriginBy(s, ts[k].from, |mumos| - 1), k);
      hide RidersTo;
    } else {
      hide RidersTo, InsertTransports, Covers, OriginBy;
      RidersBehind(ts, k, mumos, s, n - 1);
      var x := n - 1 + |mumos| - 1;
      assert InsertTransports(ts, k, mumos)[x] == Inserted(ts, k, mumos, x) ==
          ShiftRange(ts[n - 1], ts[k].from + 1, |mumos| - 1);
      ShiftCovers(ts[n - 1], ts[k].from, |mumos| - 1, s);
      RidersStep(InsertTransports(ts, k, mumos), s, x);
      RidersStep(ts, OriginBy(s, ts[k].from, |mumos| - 1), n - 1);
    }
  }

  lemma {:induction false} InsertRiders(ts: Transports, k: nat, mumos: seq<string>, s: nat)
    requires k < |ts| && ts[k].to == ts[k].from + 1 && |mumos| >= 1
    ensures Riders(InsertTransports(ts, k, mumos), s) == Riders(ts, OriginBy(s, ts[k].from, |mumos| - 1))
  {
    RidersBehind(ts, k, mumos, s, |ts|);
  }

  predicate Forwards(ts: Transports) {
    forall k | 0 <= k < |ts| :: ts[k].from < ts[k].to
  }

  lemma {:induction false} InsertForwards(ts: Transports, k: nat, mumos: seq<string>)
    requires k < |ts| && ts[k].to == ts[k].from + 1 && |mumos| >= 1
    ensures Forwards(InsertTransports(ts, k, mumos)) <==> Forwards(ts)
  {
    var ts', m := InsertTransports(ts, k, mumos), |mumos| - 1;
    if Forwards(ts') {
      forall x | 0 <= x < |ts| ensures ts[x].from < ts[x].to {
        var y := if x < k then x else x + m;
        assert ts'[y].from < ts'[y].to;
      }
    }
  }

  predicate Everywhere(stops: nat, ts: Transports) {
    forall s | 0 <= s < stops - 1 :: Count(ts, s) >= 1
  }

  lemma {:induction false} InsertEverywhere(stops: nat, ts: Transports, k: nat, mumos: seq<string>)
    requires k < |ts| && ts[k].to == ts[k].from + 1 < stops && |mumos| >= 1
    ensures Everywhere(stops + |mumos| - 1, InsertTransports(ts, k, mumos)) <==> Everywhere(stops, ts)
  {
    var ts', f, m := InsertTransports(ts, k, mumos), ts[k].from, |mumos| - 1;
    forall s: nat ensures Count(ts', s) == Count(ts, OriginBy(s, f, m)) {
      InsertRiders(ts, k, mumos, s);
      assert |Riders(ts', s)| == |Riders(ts, OriginBy(s, f, m))|;
    }
    if Everywhere(stops + m, ts') {
      forall s | 0 <= s < stops - 1 ensures Count(ts, s) >= 1 {
        var s' := if s <= f then s else s + m;
        assert Count(ts', s') >= 1 && OriginBy(s', f, m) == s;
      }
    }
  }

  lemma {:induction false} InsertCoverage(stops: nat, ts: Transports, k: nat, mumos: seq<string>)
    requires k < |ts| && ts[k].to == ts[k].from + 1 < stops && |mumos| >= 1
    ensures CoverageOk(stops + |mumos| - 1, InsertTransports(ts, k, mumos)) <==> CoverageOk(stops, ts)
  {
    var ts' := InsertTransports(ts, k, mumos);
    InsertForwards(ts, k, mumos);
    InsertEverywhere(stops, ts, k, mumos);
    assert CoverageOk(stops, ts) <==> Forwards(ts) && Everywhere(stops, ts);
    assert CoverageOk(stops + |mumos| - 1, ts') <==> Forwards(ts') && Everywhere(stops + |mumos| - 1, ts');
  }

  // ---------------------------------------------------------------- times

  /** The new stops follow each other in time from the departure at `base`; each is left when it is reached. */
  ghost predicate Chained(base: Stop, stops: seq<Stop>) {
    && (forall q | 0 <= q < |stops| :: stops[q].arrival == stops[q].departure)
    && (forall q | 0 <= q < |stops| :: ChainedAt(base, stops, q))
  }

  predicate ChainedAt(base: Stop, stops: seq<Stop>, q: nat)
    requires q < |stops|
  {
    LegOk(if q == 0 then base else stops[q - 1], stops[q])
  }

  lemma {:induction false} ChainIsLater(base: Stop, stops: seq<Stop>, q: nat)
    requires Chained(base, stops) && q < |stops|
    ensures base.departure.timestamp <= stops[q].departure.timestamp
  {
    assert ChainedAt(base, stops, q);
    if q > 0 { ChainIsLater(base, stops, q - 1); }
  }

  lemma {:induction false} InsertStays(stops: seq<Stop>, f: nat, mid: seq<Stop>)
    requires f + 1 < |stops| && Chained(stops[f], mid)
    ensures StaysOk(InsertStops(stops, f + 1, mid)) <==> StaysOk(stops)
  {
    var m, r := |mid|, InsertStops(stops, f + 1, mid);
    if StaysOk(r) {
      forall i | 0 <= i < |stops| ensures StayOk(stops[i]) {
        assert StayOk(r[if i <= f then i else i + m]);
      }
    }
    if StaysOk(stops) {
      forall i | 0 <= i < |r| ensures StayOk(r[i]) {
        if f < i <= f + m { assert r[f + 1 + (i - f - 1)] == mid[i - f - 1]; }
      }
    }
  }

  lemma {:induction false} LegsBeforeInsert(stops: seq<Stop>, f: nat, mid: seq<Stop>)
    requires f + 1 < |stops| && |mid| >= 1 && Chained(stops[f], mid)
    requires LegsOk(InsertStops(stops, f + 1, mid))
    ensures LegsOk(stops) && LegOk(mid[|mid| - 1], stops[f + 1])
  {
    var m, r := |mid|, InsertStops(stops, f + 1, mid);
    ChainIsLater(stops[f], mid, m - 1);
    assert r[f + 1 + (m - 1)] == mid[m - 1] && r[f + m + 1] == stops[f + 1];
    assert LegAt(r, f + m + 1);
    forall i | 1 <= i < |stops| ensures LegAt(stops, i) {
      if i <= f { assert LegAt(r, i); } else if i > f + 1 { assert LegAt(r, i + m); }
    }
  }

  lemma {:induction false} LegsAfterInsert(stops: seq<Stop>, f: nat, mid: seq<Stop>, i: nat)
    requires f + 1 < |stops| && |mid| >= 1 && Chained(stops[f], mid)
    requires LegsOk(stops) && LegOk(mid[|mid| - 1], stops[f + 1])
    requires 1 <= i < |stops| + |mid|
    ensures LegAt(InsertStops(stops, f + 1, mid), i)
  {
    var m, r := |mid|, InsertStops(stops, f + 1, mid);
    if i <= f {
      assert LegAt(stops, i);
    } else if i <= f + m {
      var q := i - f - 1;
      assert r[f + 1 + q] == mid[q] && ChainedAt(stops[f], mid, q);
      if q > 0 { assert r[f + 1 + (q - 1)] == mid[q - 1]; }
    } else if i == f + m + 1 {
      assert r[f + 1 + (m - 1)] == mid[m - 1];
    } else {
      assert LegAt(stops, i - m);
    }
  }

  lemma {:induction false} InsertTimes(stops: seq<Stop>, f: nat, mid: seq<Stop>)
    requires f + 1 < |stops| && |mid| >= 1 && Chained(stops[f], mid)
    ensures TimesOk(InsertStops(stops, f + 1, mid)) <==> TimesOk(stops) && LegOk(mid[|mid| - 1], stops[f + 1])
  {
    InsertStays(stops, f, mid);
    if LegsOk(InsertStops(stops, f + 1, mid)) { LegsBeforeInsert(stops, f, mid); }
    if LegsOk(stops) && LegOk(mid[|mid| - 1], stops[f + 1]) {
      var r := InsertStops(stops, f + 1, mid);
      forall i | 1 <= i < |r| ensures LegAt(r, i) {
        LegsAfterInsert(stops, f, mid, i);
      }
    }
  }

  // ---------------------------------------------------------------- a list of plans

  /** The rest of the list after its first plan has been applied. */
  function Rest(ps: seq<Plan>): (r: seq<Plan>)
    requires ps != []
    ensures |r| == |ps| - 1
    ensures forall k {:trigger r[k]} | 0 <= k < |r| ::
      r[k] == ps[k + 1].(at := ShiftBy(ps[k + 1].at, ps[0].at + 1, |ps[0].stops|))
  {
    seq(|ps| - 1, k requires 0 <= k < |ps| - 1 => ps[k + 1].(at := ShiftBy(ps[k + 1].at, ps[0].at + 1, |ps[0].stops|)))
  }

  /** Every plan names a unit transport that exists, and no two the same. */
  ghost predicate Fits(ts: Transports, ps: seq<Plan>) {
    && (forall k | 0 <= k < |ps| :: HasTransport(ts, ps[k].at, ps[k].at + 1))
    && Distinct(ps)
  }

  ghost predicate Distinct(ps: seq<Plan>) {
    forall k, l | 0 <= k < l < |ps| :: ps[k].at != ps[l].at
  }

  ghost predicate Avoids(ps: seq<Plan>, f: nat) {
    forall k | 0 <= k < |ps| :: ps[k].at != f
  }

  function StopsAfter(stops: seq<Stop>, ps: seq<Plan>): seq<Stop>
    decreases |ps|
  {
    if ps == [] then stops
    else if ps[0].at >= |stops| then stops
    else StopsAfter(InsertStops(stops, ps[0].at + 1, ps[0].stops), Rest(ps))
  }

  function TransportsAfter(ts: Transports, ps: seq<Plan>): Transports
    decreases |ps|
  {
    if ps == [] then ts
    else
      var k := Find(ts, ps[0].at, ps[0].at + 1);
      if k == |ts| then ts else TransportsAfter(InsertTransports(ts, k, ps[0].mumos), Rest(ps))
  }

  function RangesAfter(v: seq<Ranged<string>>, ps: seq<Plan>): seq<Ranged<string>>
    decreases |ps|
  {
    if ps == [] then v else RangesAfter(ShiftByAll(v, ps[0].at + 1, |ps[0].stops|), Rest(ps))
  }

  /** Where stop x of the old journey ends up. */
  function Landing(ps: seq<Plan>, x: nat): nat
    decreases |ps|
  {
    if ps == [] then x else Landing(Rest(ps), ShiftBy(x, ps[0].at + 1, |ps[0].stops|))
  }

  lemma {:induction false} LandingStep(ps: seq<Plan>, x: nat)
    requires ps != []
    ensures Landing(ps, x) == Landing(Rest(ps), ShiftBy(x, ps[0].at + 1, |ps[0].stops|))
  {}

  /** The segment of the old journey that segment s of the final one came from. */
  function OriginAfter(ps: seq<Plan>, s: nat): nat
    decreases |ps|
  {
    if ps == [] then s else OriginBy(OriginAfter(Rest(ps), s), ps[0].at, |ps[0].stops|)
  }

  function InsertedStops(ps: seq<Plan>): nat
    decreases |ps|
  {
    if ps == [] then 0 else |ps[0].stops| + InsertedStops(Rest(ps))
  }

  // ---------------------------------------------------------------- which lists fit

  lemma {:induction false} InsertHasTransport(ts: Transports, k: nat, mumos: seq<string>, g: nat)
    requires k < |ts| && ts[k].to == ts[k].from + 1 && |mumos| >= 2
    requires g != ts[k].from
    ensures var f, m := ts[k].from, |mumos| - 1;
      HasTransport(InsertTransports(ts, k, mumos), ShiftBy(g, f + 1, m), ShiftBy(g, f + 1, m) + 1) <==>
        HasTransport(ts, g, g + 1)
  {
    var ts', f, m := InsertTransports(ts, k, mumos), ts[k].from, |mumos| - 1;
    var g' := ShiftBy(g, f + 1, m);
    if HasTransport(ts, g, g + 1) {
      var x :| 0 <= x < |ts| && ts[x].from == g && ts[x].to == g + 1;
      var y := if x < k then x else x + m;
      assert ts'[y].from == g' && ts'[y].to == g' + 1;
    }
    if HasTransport(ts', g', g' + 1) {
      var y :| 0 <= y < |ts'| && ts'[y].from == g' && ts'[y].to == g' + 1;
      var x := if y < k then y else y - m;
      assert ts[x].from == g && ts[x].to == g + 1;
    }
  }

  lemma {:induction false} DistinctRest(ps: seq<Plan>)
    requires ps != []
    ensures Distinct(ps) <==> Avoids(ps[1..], ps[0].at) && Distinct(Rest(ps))
  {
    if Distinct(Rest(ps)) && Avoids(ps[1..], ps[0].at) {
      forall k, l | 0 <= k < l < |ps| ensures ps[k].at != ps[l].at {
        assert ps[l] == ps[1..][l - 1];
        if k > 0 { assert Rest(ps)[k - 1].at != Rest(ps)[l - 1].at; }
      }
    }
    if Distinct(ps) {
      forall k, l | 0 <= k < l < |Rest(ps)| ensures Rest(ps)[k].at != Rest(ps)[l].at {
        assert ps[k + 1].at != ps[l + 1].at;
      }
    }
  }

  /** Applying the first plan loses no information about whether the rest of the list fits. */
  lemma {:induction false} FitsRest(ts: Transports, ps: seq<Plan>, k: nat)
    requires ps != [] && k < |ts| && ts[k].from == ps[0].at && ts[k].to == ps[0].at + 1
    ensures Fits(InsertTransports(ts, k, ps[0].mumos), Rest(ps)) && Avoids(ps[1..], ps[0].at) <==> Fits(ts, ps)
  {
    var mumos, r := ps[0].mumos, Rest(ps);
    var ts' := InsertTransports(ts, k, mumos);
    DistinctRest(ps);
    if Avoids(ps[1..], ps[0].at) {
      forall x | 1 <= x < |ps|
        ensures HasTransport(ts', r[x - 1].at, r[x - 1].at + 1) <==> HasTransport(ts, ps[x].at, ps[x].at + 1)
      {
        assert ps[x] == ps[1..][x - 1];
        InsertHasTransport(ts, k, mumos, ps[x].at);
      }
      if Fits(ts', r) {
        forall x | 0 <= x < |ps| ensures HasTransport(ts, ps[x].at, ps[x].at + 1) {
          if x > 0 { assert HasTransport(ts', r[x - 1].at, r[x - 1].at + 1); }
        }
      }
      if Fits(ts, ps) {
        forall y | 0 <= y < |r| ensures HasTransport(ts', r[y].at, r[y].at + 1) {
          assert HasTransport(ts, ps[y + 1].at, ps[y + 1].at + 1);
        }
      }
    }
  }

  // ---------------------------------------------------------------- coverage

  lemma {:induction false} TransportsStep(ts: Transports, ps: seq<Plan>) returns (ts': Transports)
    requires ps != [] && Fits(ts, ps)
    ensures var k := Find(ts, ps[0].at, ps[0].at + 1);
      k < |ts| && ts[k].from == ps[0].at && ts[k].to == ps[0].at + 1 && ts' == InsertTransports(ts, k, ps[0].mumos)
    ensures Fits(ts', Rest(ps)) && TransportsAfter(ts, ps) == TransportsAfter(ts', Rest(ps))
  {
    var k := Find(ts, ps[0].at, ps[0].at + 1);
    assert HasTransport(ts, ps[0].at, ps[0].at + 1);
    ts' := InsertTransports(ts, k, ps[0].mumos);
    FitsRest(ts, ps, k);
  }

  predicate EndsBefore(ts: Transports, n: nat) {
    forall k | 0 <= k < |ts| :: ts[k].from < n && ts[k].to < n
  }

  lemma {:induction false} EndsAfter(ts: Transports, ps: seq<Plan>, n: nat)
    requires Fits(ts, ps) && EndsBefore(ts, n)
    ensures EndsBefore(TransportsAfter(ts, ps), n + InsertedStops(ps))
    decreases |ps|
  {
    if ps != [] {
      var ts' := TransportsStep(ts, ps);
      assert EndsBefore(ts', n + |ps[0].stops|);
      EndsAfter(ts', Rest(ps), n + |ps[0].stops|);
    }
  }

  lemma {:induction false} CoverageAfter(stops: nat, ts: Transports, ps: seq<Plan>, stops': nat)
    requires Fits(ts, ps) && EndsBefore(ts, stops) && stops' == stops + InsertedStops(ps)
    ensures CoverageOk(stops', TransportsAfter(ts, ps)) <==> CoverageOk(stops, ts)
    decreases |ps|
  {
    if ps != [] {
      var k, m := Find(ts, ps[0].at, ps[0].at + 1), |ps[0].stops|;
      var ts' := TransportsStep(ts, ps);
      assert ts[k].to < stops;
      InsertCoverage(stops, ts, k, ps[0].mumos);
      hide CoverageOk, InsertTransports, FindFrom, Find, Rest;
      assert stops + |ps[0].mumos| - 1 == stops + m;
      assert EndsBefore(ts', stops + m);
      CoverageAfter(stops + m, ts', Rest(ps), stops');
    }
  }

  /** Every segment of the patched journey is covered by exactly the transports that covered the segment it came from.
      */
  lemma {:induction false} RidersAfter(ts: Transports, ps: seq<Plan>, s: nat)
    requires Fits(ts, ps)
    ensures Riders(TransportsAfter(ts, ps), s) == Riders(ts, OriginAfter(ps, s))
    decreases |ps|
  {
    if ps != [] {
      assert OriginAfter(ps, s) == OriginBy(OriginAfter(Rest(ps), s), ps[0].at, |ps[0].stops|);
      hide *;
      var k, o := Find(ts, ps[0].at, ps[0].at + 1), OriginAfter(Rest(ps), s);
      var ts' := TransportsStep(ts, ps);
      RidersAfter(ts', Rest(ps), s);
      InsertRiders(ts, k, ps[0].mumos, o);
      assert |ps[0].mumos| - 1 == |ps[0].stops|;
      assert Riders(ts', o) == Riders(ts, OriginAfter(ps, s));
    }
  }

  /** So are trips, attributes, free texts and problems, entry by entry. */
  lemma {:induction false} RangesAfterCover(v: seq<Ranged<string>>, ps: seq<Plan>, x: nat, s: nat)
    requires x < |v|
    ensures var r := RangesAfter(v, ps);
      |r| == |v| && r[x].val == v[x].val && (Covers(r[x], s) <==> Covers(v[x], OriginAfter(ps, s)))
    decreases |ps|
  {
    if ps != [] {
      var f, m := ps[0].at, |ps[0].stops|;
      RangesAfterCover(ShiftByAll(v, f + 1, m), Rest(ps), x, s);
      ShiftCovers(v[x], f, m, OriginAfter(Rest(ps), s));
    }
  }

  // ---------------------------------------------------------------- stops and times

  /** Every plan lies between two neighbouring stops, and no two at the same place. */
  ghost predicate Within(n: nat, ps: seq<Plan>) {
    (forall k | 0 <= k < |ps| :: ps[k].at + 1 < n) && Distinct(ps)
  }

  ghost predicate AllChained(stops: seq<Stop>, ps: seq<Plan>)
    requires Within(|stops|, ps)
  {
    forall k | 0 <= k < |ps| :: Chained(stops[ps[k].at], ps[k].stops)
  }

  /** There is time for the new stops of every plan: the last of them is left no later than the next old stop is
      reached. */
  ghost predicate AllSlack(stops: seq<Stop>, ps: seq<Plan>)
    requires Within(|stops|, ps)
  {
    forall k | 0 <= k < |ps| :: SlackOk(stops, ps[k])
  }

  ghost predicate SlackOk(stops: seq<Stop>, p: Plan)
    requires p.at + 1 < |stops|
  {
    LegOk(p.stops[|p.stops| - 1], stops[p.at + 1])
  }

  lemma {:induction false} InsertKeepsStops(stops: seq<Stop>, f: nat, mid: seq<Stop>, x: nat)
    requires f < |stops| && x < |stops|
    ensures ShiftBy(x, f + 1, |mid|) < |stops| + |mid|
    ensures InsertStops(stops, f + 1, mid)[ShiftBy(x, f + 1, |mid|)] == stops[x]
  {}

  lemma {:induction false} WithinRest(stops: seq<Stop>, ps: seq<Plan>)
    requires ps != [] && Within(|stops|, ps)
    ensures var s', r := InsertStops(stops, ps[0].at + 1, ps[0].stops), Rest(ps);
      && Within(|s'|, r)
      && (AllChained(stops, ps) ==> AllChained(s', r))
      && (AllSlack(stops, ps) <==> SlackOk(stops, ps[0]) && AllSlack(s', r))
  {
    var s', r := InsertStops(stops, ps[0].at + 1, ps[0].stops), Rest(ps);
    DistinctRest(ps);
    forall x | 1 <= x < |ps|
      ensures r[x - 1].at + 1 < |s'| && s'[r[x - 1].at] == stops[ps[x].at]
      ensures SlackOk(s', r[x - 1]) <==> SlackOk(stops, ps[x])
    {
      assert ps[x].at != ps[0].at;
      InsertKeepsStops(stops, ps[0].at, ps[0].stops, ps[x].at);
      InsertKeepsStops(stops, ps[0].at, ps[0].stops, ps[x].at + 1);
    }
    forall y | 0 <= y < |r| ensures r[y].at + 1 < |s'| { assert r[y + 1 - 1].at + 1 < |s'|; }
    if AllSlack(s', r) && SlackOk(stops, ps[0]) {
      forall x | 0 <= x < |ps| ensures SlackOk(stops, ps[x]) {
        if x > 0 { assert SlackOk(s', r[x - 1]); }
      }
    }
    if AllSlack(stops, ps) {
      forall y | 0 <= y < |r| ensures SlackOk(s', r[y]) { assert SlackOk(stops, ps[y + 1]); }
    }
    if AllChained(stops, ps) {
      forall y | 0 <= y < |r| ensures Chained(s'[r[y].at], r[y].stops) {
        assert Chained(stops[ps[y + 1].at], ps[y + 1].stops);
        assert s'[r[y + 1 - 1].at] == stops[ps[y + 1].at];
      }
    }
  }

  /** The times stay in order iff they were and every plan has time enough. */
  lemma {:induction false} TimesAfter(stops: seq<Stop>, ps: seq<Plan>)
    requires Within(|stops|, ps) && AllChained(stops, ps)
    ensures |StopsAfter(stops, ps)| == |stops| + InsertedStops(ps)
    ensures TimesOk(StopsAfter(stops, ps)) <==> TimesOk(stops) && AllSlack(stops, ps)
    decreases |ps|
  {
    if ps != [] {
      WithinRest(stops, ps);
      InsertTimes(stops, ps[0].at, ps[0].stops);
      TimesAfter(InsertStops(stops, ps[0].at + 1, ps[0].stops), Rest(ps));
    }
  }

  /** Every old stop survives unchanged, at its landing. */
  lemma {:induction false} StopLands(stops: seq<Stop>, ps: seq<Plan>, x: nat)
    requires Within(|stops|, ps) && x < |stops|
    ensures Landing(ps, x) < |StopsAfter(stops, ps)| && StopsAfter(stops, ps)[Landing(ps, x)] == stops[x]
    decreases |ps|
  {
    if ps != [] {
      WithinRest(stops, ps);
      InsertKeepsStops(stops, ps[0].at, ps[0].stops, x);
      StopLands(InsertStops(stops, ps[0].at + 1, ps[0].stops), Rest(ps), ShiftBy(x, ps[0].at + 1, |ps[0].stops|));
    }
  }

  // ---------------------------------------------------------------- every plan is carried out

  /** No plan of the list changes anything between stop f and stop f + q. */
  ghost predicate KeepsOff(ps: seq<Plan>, f: nat, q: nat) {
    forall k | 0 <= k < |ps| :: ps[k].at < f || ps[k].at >= f + q
  }

  lemma {:induction false} StretchLands(ps: seq<Plan>, f: nat, q: nat)
    requires KeepsOff(ps, f, q)
    ensures Landing(ps, f + q) == Landing(ps, f) + q
    decreases |ps|
  {
    if ps != [] {
      var f' := ShiftBy(f, ps[0].at + 1, |ps[0].stops|);
      assert q > 0 ==> ShiftBy(f + q, ps[0].at + 1, |ps[0].stops|) == f' + q;
      forall k | 0 <= k < |Rest(ps)| ensures q > 0 ==> Rest(ps)[k].at < f' || Rest(ps)[k].at >= f' + q {
        assert ps[k + 1].at < f || ps[k + 1].at >= f + q;
      }
      if q > 0 { StretchLands(Rest(ps), f', q); }
    }
  }

  lemma {:induction false} UnitAfterInsert(ts: Transports, ps: seq<Plan>, k: nat, y: nat)
    requires ps != [] && k < |ts| && y < |ts| && ts[k].from == ps[0].at
    requires ts[y].to == ts[y].from + 1 && Avoids(ps, ts[y].from)
    ensures var m := |ps[0].stops|;
      var ts', y' := InsertTransports(ts, k, ps[0].mumos), if y < k then y else y + m;
      && y' < |ts'| && ts'[y'].val == ts[y].val
      && ts'[y'].from == ShiftBy(ts[y].from, ps[0].at + 1, m) && ts'[y'].to == ts'[y'].from + 1
      && Avoids(Rest(ps), ts'[y'].from)
  {
    var m, f := |ps[0].stops|, ps[0].at;
    var ts', y' := InsertTransports(ts, k, ps[0].mumos), if y < k then y else y + m;
    assert y != k;
    assert ts'[y'] == ShiftRange(ts[y], f + 1, m);
    forall x | 0 <= x < |Rest(ps)| ensures Rest(ps)[x].at != ts'[y'].from {
      assert ps[x + 1].at != ts[y].from;
    }
  }

  /** A unit transport that no plan replaces lands as it is. */
  lemma {:induction false} UnitLands(ts: Transports, ps: seq<Plan>, y: nat)
    requires Fits(ts, ps) && y < |ts| && ts[y].to == ts[y].from + 1 && Avoids(ps, ts[y].from)
    ensures var x := Landing(ps, ts[y].from); Ranged(x, x + 1, ts[y].val) in TransportsAfter(ts, ps)
    decreases |ps|
  {
    if ps != [] {
      hide *;
      var k := Find(ts, ps[0].at, ps[0].at + 1);
      var ts' := TransportsStep(ts, ps);
      UnitAfterInsert(ts, ps, k, y);
      UnitLands(ts', Rest(ps), if y < k then y else y + |ps[0].stops|);
      LandingStep(ps, ts[y].from);
      assert TransportsAfter(ts, ps) == TransportsAfter(ts', Rest(ps));
    }
  }

  lemma {:induction false} OthersKeepOff(ps: seq<Plan>)
    requires ps != [] && Distinct(ps)
    ensures KeepsOff(Rest(ps), ps[0].at, |ps[0].stops| + 1)
  {
    forall k | 0 <= k < |Rest(ps)|
      ensures Rest(ps)[k].at < ps[0].at || Rest(ps)[k].at >= ps[0].at + |ps[0].stops| + 1
    {
      assert ps[0].at != ps[k + 1].at;
    }
  }

  /** The stops of plan c follow the landing of the stop it starts from. */
  lemma {:induction false} PlanStopLands(stops: seq<Stop>, ps: seq<Plan>, c: nat, q: nat)
    requires Within(|stops|, ps) && c < |ps| && q < |ps[c].stops|
    ensures var r, at := StopsAfter(stops, ps), Landing(ps, ps[c].at);
      at + 1 + q < |r| && r[at + 1 + q] == ps[c].stops[q]
    decreases |ps|
  {
    var s' := InsertStops(stops, ps[0].at + 1, ps[0].stops);
    WithinRest(stops, ps);
    if c > 0 {
      PlanStopLands(s', Rest(ps), c - 1, q);
      LandingStep(ps, ps[c].at);
    } else {
      OthersKeepOff(ps);
      StretchLands(Rest(ps), ps[0].at, 1 + q);
      assert s'[ps[0].at + 1 + q] == ps[0].stops[q];
      StopLands(s', Rest(ps), ps[0].at + 1 + q);
    }
  }

  /** The transport a later plan names keeps its other fields while earlier plans are applied. */
  lemma {:induction false} FoundAgain(ts: Transports, k: nat, mumos: seq<string>, g: nat)
    requires k < |ts| && ts[k].to == ts[k].from + 1 && |mumos| >= 2
    requires g != ts[k].from && HasTransport(ts, g, g + 1)
    ensures var ts', g' := InsertTransports(ts, k, mumos), ShiftBy(g, ts[k].from + 1, |mumos| - 1);
      HasTransport(ts', g', g' + 1) && ts'[Find(ts', g', g' + 1)].val == ts[Find(ts, g, g + 1)].val
  {
    var f, m := ts[k].from, |mumos| - 1;
    var ts', g' := InsertTransports(ts, k, mumos), ShiftBy(g, f + 1, m);
    InsertHasTransport(ts, k, mumos, g);
    FoundNotLater(ts, k, mumos, g);
    FoundNotEarlier(ts, k, mumos, g);
    hide FindFrom, Find;
    var x := Find(ts, g, g + 1);
    assert ts'[if x < k then x else x + m] == Inserted(ts, k, mumos, if x < k then x else x + m);
  }

  lemma {:induction false} FoundNotEarlier(ts: Transports, k: nat, mumos: seq<string>, g: nat)
    requires k < |ts| && ts[k].to == ts[k].from + 1 && |mumos| >= 2
    requires g != ts[k].from && HasTransport(ts, g, g + 1)
    ensures var ts', g' := InsertTransports(ts, k, mumos), ShiftBy(g, ts[k].from + 1, |mumos| - 1);
      var x := Find(ts, g, g + 1);
      (if x < k then x else x + |mumos| - 1) <= Find(ts', g', g' + 1)
  {
    var f, m := ts[k].from, |mumos| - 1;
    var ts', g' := InsertTransports(ts, k, mumos), ShiftBy(g, f + 1, m);
    FoundNotLater(ts, k, mumos, g);
    hide FindFrom;
    var x, x' := Find(ts, g, g + 1), Find(ts', g', g' + 1);
    if x' < k {
      assert ts'[x'] == ShiftRange(ts[x'], f + 1, m);
      assert x <= x';
    } else {
      assert ts'[x'] == ShiftRange(ts[x' - m], f + 1, m);
      assert x <= x' - m;
    }
  }

  lemma {:induction false} FoundNotLater(ts: Transports, k: nat, mumos: seq<string>, g: nat)
    requires k < |ts| && ts[k].to == ts[k].from + 1 && |mumos| >= 2
    requires g != ts[k].from && HasTransport(ts, g, g + 1)
    ensures var ts', g' := InsertTransports(ts, k, mumos), ShiftBy(g, ts[k].from + 1, |mumos| - 1);
      var x := Find(ts, g, g + 1);
      x != k && Find(ts', g', g' + 1) <= (if x < k then x else x + |mumos| - 1)
  {
    hide FindFrom;
    var f, m := ts[k].from, |mumos| - 1;
    var ts', g' := InsertTransports(ts, k, mumos), ShiftBy(g, f + 1, m);
    var x := Find(ts, g, g + 1);
    if x < k {
      assert ts'[x] == ShiftRange(ts[x], f + 1, m);
    } else {
      assert ts'[x + m] == ShiftRange(ts[x + m - m], f + 1, m);
    }
  }

  lemma {:induction false} LegLands(ts: Transports, ps: seq<Plan>, y: nat, f: nat, val: TransportInfo,
                                    mumos: seq<string>, q: nat)
    requires Fits(ts, ps) && y < |ts| && q < |mumos| && ts[y] == Leg(f, val, mumos, q)
    requires Avoids(ps, f + q) && Landing(ps, f + q) == Landing(ps, f) + q
    ensures Leg(Landing(ps, f), val, mumos, q) in TransportsAfter(ts, ps)
  {
    UnitLands(ts, ps, y);
  }

  lemma {:induction false} FirstLegLands(ts: Transports, ps: seq<Plan>, q: nat)
    requires ps != [] && Fits(ts, ps) && q < |ps[0].mumos|
    ensures var k := Find(ts, ps[0].at, ps[0].at + 1);
      k < |ts| && Leg(Landing(ps, ps[0].at), ts[k].val, ps[0].mumos, q) in TransportsAfter(ts, ps)
  {
    var k, f := Find(ts, ps[0].at, ps[0].at + 1), ps[0].at;
    var ts' := TransportsStep(ts, ps);
    InsertedLeg(ts, k, ps[0].mumos, q);
    OthersKeepOff(ps);
    StretchLands(Rest(ps), f, q);
    LegLands(ts', Rest(ps), k + q, f, ts[k].val, ps[0].mumos, q);
    assert Landing(ps, f) == Landing(Rest(ps), f);
  }

  /** What leg q of plan p is, if p is applied to ts as part of the list ps. */
  ghost function LegOf(ts: Transports, ps: seq<Plan>, p: Plan, q: nat): Ranged<TransportInfo>
    requires HasTransport(ts, p.at, p.at + 1) && q < |p.mumos|
  {
    Leg(Landing(ps, p.at), ts[Find(ts, p.at, p.at + 1)].val, p.mumos, q)
  }

  /** A leg of a later plan is the same, seen from the whole list and from the rest of the list. */
  lemma {:induction false} SameLeg(ts: Transports, ps: seq<Plan>, k: nat, p: Plan, q: nat)
    requires ps != [] && p.at != ps[0].at && HasTransport(ts, p.at, p.at + 1) && q < |p.mumos|
    requires k < |ts| && ts[k].from == ps[0].at && ts[k].to == ps[0].at + 1
    ensures var p', ts' := p.(at := ShiftBy(p.at, ps[0].at + 1, |ps[0].stops|)), InsertTransports(ts, k, ps[0].mumos);
      HasTransport(ts', p'.at, p'.at + 1) && LegOf(ts', Rest(ps), p', q) == LegOf(ts, ps, p, q)
  {
    hide InsertTransports, FindFrom, Find, HasTransport;
    FoundAgain(ts, k, ps[0].mumos, p.at);
    LandingStep(ps, p.at);
  }

  /** The legs of plan c take the place of its transport, with the planned kinds and otherwise as it was. */
  lemma {:induction false} PlanLegLands(ts: Transports, ps: seq<Plan>, c: nat, q: nat)
    requires Fits(ts, ps) && c < |ps| && q < |ps[c].mumos|
    ensures HasTransport(ts, ps[c].at, ps[c].at + 1) && LegOf(ts, ps, ps[c], q) in TransportsAfter(ts, ps)
    decreases |ps|
  {
    if c == 0 {
      FirstLegLands(ts, ps, q);
    } else {
      var k := Find(ts, ps[0].at, ps[0].at + 1);
      var ts' := TransportsStep(ts, ps);
      assert ps[0].at != ps[c].at;
      SameLeg(ts, ps, k, ps[c], q);
      assert Rest(ps)[c - 1] == ps[c].(at := ShiftBy(ps[c].at, ps[0].at + 1, |ps[0].stops|));
      PlanLegLands(ts', Rest(ps), c - 1, q);
    }
  }
}
