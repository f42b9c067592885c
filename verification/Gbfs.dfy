/** The loops that fill in the best journeys, with everything out of reach skipped as early as possible. */
module Gbfs {
  import opened GbfsModel

  /** For every target the best of the first `free` free bikes and of the stations before (sx, sp). */
  ghost predicate AllBest(q: Query, best: array<Journey>, free: nat, sx: nat, sp: nat)
    requires Wf(q)
    reads best
  {
    best.Length == q.targets && forall p | 0 <= p < q.targets :: BestSeen(q, p, free, sx, sp, best[p])
  }

  /** As above, with targets before n one free bike ahead. */
  ghost predicate FreePartly(q: Query, best: array<Journey>, b: nat, n: nat)
    requires Wf(q)
    reads best
  {
    best.Length == q.targets
      && forall p | 0 <= p < q.targets :: BestSeen(q, p, if p < n then b + 1 else b, 0, 0, best[p])
  }

  ghost predicate StationPartly(q: Query, best: array<Journey>, free: nat, sx: nat, sp: nat, n: nat)
    requires Wf(q)
    reads best
  {
    best.Length == q.targets
      && forall p | 0 <= p < q.targets :: BestSeen(q, p, free, sx, if p < n then sp + 1 else sp, best[p])
  }

  method FreeBikesForward(q: Query, best: array<Journey>)
    requires Wf(q) && q.fwd && AllBest(q, best, 0, 0, 0)
    modifies best
    ensures AllBest(q, best, |q.near|, 0, 0)
  {
    hide BestSeen;
    for b := 0 to |q.near|
      invariant AllBest(q, best, b, 0, 0)
    {
      var walk := q.near[b];
      if walk > q.maxWalk {
        forall p | 0 <= p < q.targets ensures BestSeen(q, p, b + 1, 0, 0, best[p]) { FreeNext(q, p, b, best[p]); }
        continue;
      }
      for p := 0 to q.targets
        invariant FreePartly(q, best, b, p)
      {
        FreeNext(q, p, b, best[p]);
        InTable(|q.near|, q.targets, b, p);
        var ride := q.nearTable[b * q.targets + p];
        if ride > q.maxBike {
          continue;
        }
        var total := BIKE_READY_TIME + walk + ride;
        if best[p].total > total {
          best[p] := Journey(total, FreeBike(walk, ride, b, p));
        }
      }
    }
  }

  /** The innermost loop, over the targets. */
  method StationForward(q: Query, best: array<Journey>, sx: nat, sp: nat, xWalk: nat, ride: nat)
    requires Wf(q) && q.fwd && sx < |q.xWalks| && sp < q.sps
    requires xWalk == q.xWalks[sx] <= q.maxWalk && ride == Ride(q, sx, sp) <= q.maxBike
    requires AllBest(q, best, |q.near|, sx, sp)
    modifies best
    ensures AllBest(q, best, |q.near|, sx, sp + 1)
  {
    hide BestSeen;
    for p := 0 to q.targets
      invariant StationPartly(q, best, |q.near|, sx, sp, p)
    {
      StationNext(q, p, |q.near|, sx, sp, best[p]);
      InTable(q.sps, q.targets, sp, p);
      var walk := q.walks[sp * q.targets + p];
      if walk > q.maxWalk || xWalk + walk > q.maxWalk {
        continue;
      }
      var total := BIKE_READY_TIME + xWalk + ride + walk;
      if best[p].total > total {
        best[p] := Journey(total, StationBike(xWalk, ride, walk, sx, sp, p));
      }
    }
  }

  method StationsForward(q: Query, best: array<Journey>)
    requires Wf(q) && q.fwd && AllBest(q, best, |q.near|, 0, 0)
    modifies best
    ensures AllBest(q, best, |q.near|, |q.xWalks|, 0)
  {
    hide BestSeen;
    for sx := 0 to |q.xWalks|
      invariant AllBest(q, best, |q.near|, sx, 0)
    {
      var xWalk := q.xWalks[sx];
      if xWalk > q.maxWalk {
        forall p | 0 <= p < q.targets ensures BestSeen(q, p, |q.near|, sx + 1, 0, best[p]) {
          SkipRow(q, p, |q.near|, sx, best[p]);
        }
        continue;
      }
      for sp := 0 to q.sps
        invariant AllBest(q, best, |q.near|, sx, sp)
      {
        InTable(|q.xWalks|, q.sps, sx, sp);
        var ride := q.rides[sx * q.sps + sp];
        if ride > q.maxBike {
          forall p | 0 <= p < q.targets ensures BestSeen(q, p, |q.near|, sx, sp + 1, best[p]) {
            StationNext(q, p, |q.near|, sx, sp, best[p]);
          }
          continue;
        }
        StationForward(q, best, sx, sp, xWalk, ride);
      }
      forall p | 0 <= p < q.targets ensures BestSeen(q, p, |q.near|, sx + 1, 0, best[p]) {
        NextRow(q, p, |q.near|, sx, best[p]);
      }
    }
  }

  method FreeBikesBackward(q: Query, best: array<Journey>)
    requires Wf(q) && !q.fwd && AllBest(q, best, 0, 0, 0)
    modifies best
    ensures AllBest(q, best, |q.near|, 0, 0)
  {
    hide BestSeen;
    for b := 0 to |q.near|
      invariant AllBest(q, best, b, 0, 0)
    {
      var ride := q.near[b];
      if ride > q.maxBike {
        forall p | 0 <= p < q.targets ensures BestSeen(q, p, b + 1, 0, 0, best[p]) { FreeNext(q, p, b, best[p]); }
        continue;
      }
      for p := 0 to q.stops
        invariant FreePartly(q, best, b, p)
      {
        FreeNext(q, p, b, best[p]);
        InTable(q.targets, |q.near|, p, b);
        var walk := q.nearTable[p * |q.near| + b];
        if walk > q.maxWalk {
          continue;
        }
        var total := walk + ride;
        if best[p].total > total {
          best[p] := Journey(total, FreeBike(walk, ride, b, p));
        }
      }
      forall p | q.stops <= p < q.targets ensures BestSeen(q, p, b + 1, 0, 0, best[p]) { FreeNext(q, p, b, best[p]); }
    }
  }

  /** The innermost loop, over the targets that are stations. */
  method StationBackward(q: Query, best: array<Journey>, sx: nat, sp: nat, xWalk: nat, ride: nat)
    requires Wf(q) && !q.fwd && sx < |q.xWalks| && sp < q.sps && q.bikes[sp] > 0
    requires xWalk == q.xWalks[sx] <= q.maxWalk && ride == Ride(q, sx, sp) <= q.maxBike
    requires AllBest(q, best, |q.near|, sx, sp)
    modifies best
    ensures StationPartly(q, best, |q.near|, sx, sp, q.stops)
  {
    hide BestSeen;
    for p := 0 to q.stops
      invariant StationPartly(q, best, |q.near|, sx, sp, p)
    {
      StationNext(q, p, |q.near|, sx, sp, best[p]);
      InTable(q.targets, q.sps, p, sp);
      var walk := q.walks[p * q.sps + sp];
      if walk > q.maxWalk || walk + xWalk > q.maxWalk {
        continue;
      }
      var total := BIKE_READY_TIME + walk + ride + xWalk;
      if best[p].total > total {
        best[p] := Journey(total, StationBike(walk, ride, xWalk, sx, sp, p));
      }
    }
  }

  method StationsBackward(q: Query, best: array<Journey>)
    requires Wf(q) && !q.fwd && AllBest(q, best, |q.near|, 0, 0)
    modifies best
    ensures AllBest(q, best, |q.near|, |q.xWalks|, 0)
  {
    hide BestSeen;
    for sx := 0 to |q.xWalks|
      invariant AllBest(q, best, |q.near|, sx, 0)
    {
      var xWalk := q.xWalks[sx];
      if xWalk > q.maxWalk {
        forall p | 0 <= p < q.targets ensures BestSeen(q, p, |q.near|, sx + 1, 0, best[p]) {
          SkipRow(q, p, |q.near|, sx, best[p]);
        }
        continue;
      }
      for sp := 0 to q.sps
        invariant AllBest(q, best, |q.near|, sx, sp)
      {
        if q.bikes[sp] == 0 {
          forall p | 0 <= p < q.targets ensures BestSeen(q, p, |q.near|, sx, sp + 1, best[p]) {
            StationNext(q, p, |q.near|, sx, sp, best[p]);
          }
          continue;
        }
        InTable(q.sps, |q.xWalks|, sp, sx);
        var ride := q.rides[sp * |q.xWalks| + sx];
        if ride > q.maxBike {
          forall p | 0 <= p < q.targets ensures BestSeen(q, p, |q.near|, sx, sp + 1, best[p]) {
            StationNext(q, p, |q.near|, sx, sp, best[p]);
          }
          continue;
        }
        StationBackward(q, best, sx, sp, xWalk, ride);
        forall p | q.stops <= p < q.targets ensures BestSeen(q, p, |q.near|, sx, sp + 1, best[p]) {
          StationNext(q, p, |q.near|, sx, sp, best[p]);
        }
      }
      forall p | 0 <= p < q.targets ensures BestSeen(q, p, |q.near|, sx + 1, 0, best[p]) {
        NextRow(q, p, |q.near|, sx, best[p]);
      }
    }
  }

  /** The best journeys for all targets.  Backward the stations are only looked at if there is a free bike. */
  method BestJourneys(q: Query) returns (best: array<Journey>)
    requires Wf(q)
    ensures fresh(best) && best.Length == q.targets && forall p | 0 <= p < q.targets :: IsResult(q, p, best[p])
    ensures forall p | 0 <= p < q.targets :: IsBestOffered(q, p, best[p])
  {
    best := new Journey[q.targets](_ => NO_JOURNEY);
    forall p | 0 <= p < q.targets ensures BestSeen(q, p, 0, 0, 0, best[p]) { NothingSeen(q, p); }
    hide BestSeen;
    if q.fwd {
      FreeBikesForward(q, best);
      StationsForward(q, best);
    } else if |q.near| > 0 {
      FreeBikesBackward(q, best);
      StationsBackward(q, best);
    }
    forall p | 0 <= p < q.targets ensures IsBestOffered(q, p, best[p]) { ResultWrittenOut(q, p, best[p]); }
  }
}
