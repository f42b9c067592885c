/** Which events a stream has, and what the merge of streams makes of them. */
module BoardTheorems {
  import opened BoardModel

  // ---------------------------------------------------------------- forward streams

  ghost predicate InAhead(l: Line, day: int, i: nat, end: int, d: int, k: nat) {
    k < |l.mam| && d < end && (day < d || (day == d && i <= k)) && IsActive(l, d, k)
  }

  /** A forward stream has exactly the events reported active between its position and the end day. */
  lemma {:induction false} AheadHas(l: Line, day: int, i: nat, end: int, d: int, k: nat)
    requires day <= end && k < |l.mam|
    ensures At(l, d, k) in Ahead(l, day, i, end) <==> InAhead(l, day, i, end, d, k)
    decreases end - day, |l.mam| - i
  {
    if day == end {
    } else if i >= |l.mam| {
      AheadHas(l, day + 1, 0, end, d, k);
    } else {
      AheadHas(l, day, i + 1, end, d, k);
      assert At(l, d, k) == At(l, day, i) <==> d == day && k == i;
    }
  }

  /** Every event of it is that of some transport on some day. */
  ghost predicate OfLine(l: Line, e: Event) {
    e.run.StaticRun? && e.run.transport < |l.mam| && e == At(l, e.run.day, e.run.transport)
  }

  lemma {:induction false} AheadOfLine(l: Line, day: int, i: nat, end: int, e: Event)
    requires day <= end && e in Ahead(l, day, i, end)
    ensures OfLine(l, e) && InAhead(l, day, i, end, e.run.day, e.run.transport)
    decreases end - day, |l.mam| - i
  {
    if i >= |l.mam| {
      AheadOfLine(l, day + 1, 0, end, e);
    } else if !IsActive(l, day, i) || e != At(l, day, i) {
      AheadOfLine(l, day, i + 1, end, e);
    }
  }

  /** Transports are sorted by their time at the stop. */
  ghost predicate Sorted(mam: seq<nat>) {
    forall i, k | 0 <= i <= k < |mam| :: mam[i] <= mam[k]
  }

  /** None of them gets to the stop after midnight. */
  ghost predicate SameDay(mam: seq<nat>) {
    forall i | 0 <= i < |mam| :: mam[i] < DAY
  }

  predicate LaterRun(a: Run, b: Run) {
    a.StaticRun? && b.StaticRun? && (a.day < b.day || (a.day == b.day && a.transport < b.transport))
  }

  ghost predicate InOrder(s: seq<Event>) {
    forall a, b | 0 <= a < b < |s| :: s[a].time <= s[b].time && LaterRun(s[a].run, s[b].run)
  }

  lemma {:induction false} LaterIsNotEarlier(l: Line, d: int, i: nat, d': int, k: nat)
    requires Sorted(l.mam) && SameDay(l.mam) && i < |l.mam| && k < |l.mam| && (d < d' || (d == d' && i <= k))
    ensures At(l, d, i).time <= At(l, d', k).time
  {}

  lemma {:induction false} AheadInOrder(l: Line, day: int, i: nat, end: int)
    requires day <= end && Sorted(l.mam) && SameDay(l.mam)
    ensures InOrder(Ahead(l, day, i, end))
    decreases end - day, |l.mam| - i
  {
    if day == end {
    } else if i >= |l.mam| {
      AheadInOrder(l, day + 1, 0, end);
    } else {
      AheadInOrder(l, day, i + 1, end);
      var rest := Ahead(l, day, i + 1, end);
      forall b | 0 <= b < |rest|
        ensures At(l, day, i).time <= rest[b].time && LaterRun(At(l, day, i).run, rest[b].run)
      {
        AheadOfLine(l, day, i + 1, end, rest[b]);
        LaterIsNotEarlier(l, day, i, rest[b].run.day, rest[b].run.transport);
      }
    }
  }

  /** Passing over what is before the start loses nothing that is not. */
  lemma {:induction false} AheadFromHas(l: Line, day: int, i: nat, end: int, start: int, d: int, k: nat)
    requires day <= end && k < |l.mam| && Sorted(l.mam) && SameDay(l.mam)
    ensures At(l, d, k) in AheadFrom(l, day, i, end, start) <==>
        InAhead(l, day, i, end, d, k) && At(l, d, k).time >= start
    decreases end - day, |l.mam| - i
  {
    if day == end {
    } else if i >= |l.mam| {
      AheadFromHas(l, day + 1, 0, end, start, d, k);
    } else if At(l, day, i).time >= start && IsActive(l, day, i) {
      AheadHas(l, day, i, end, d, k);
      if InAhead(l, day, i, end, d, k) { LaterIsNotEarlier(l, day, i, d, k); }
    } else {
      AheadFromHas(l, day, i + 1, end, start, d, k);
    }
  }

  lemma {:induction false} AheadFromInOrder(l: Line, day: int, i: nat, end: int, start: int)
    requires day <= end && Sorted(l.mam) && SameDay(l.mam)
    ensures InOrder(AheadFrom(l, day, i, end, start))
    decreases end - day, |l.mam| - i
  {
    if day == end {
    } else if i >= |l.mam| {
      AheadFromInOrder(l, day + 1, 0, end, start);
    } else if At(l, day, i).time >= start && IsActive(l, day, i) {
      AheadInOrder(l, day, i, end);
    } else {
      AheadFromInOrder(l, day, i + 1, end, start);
    }
  }

  /** Transport k runs on day d. */
  predicate Runs(l: Line, d: int, k: nat) {
    k < |l.mam| && l.active(k, d)
  }

  /** Forward from a start: exactly the events that take place from then until the end day, once each, in order of
      time. */
  lemma {:induction false} ForwardIsComplete(l: Line, end: int, start: int, d: int, k: nat)
    requires start / DAY <= end && Sorted(l.mam) && SameDay(l.mam) && k < |l.mam|
    ensures var s := AheadFrom(l, start / DAY, 0, end, start);
      InOrder(s) && (At(l, d, k) in s <==> Runs(l, d, k) && d < end && At(l, d, k).time >= start)
  {
    AheadFromInOrder(l, start / DAY, 0, end, start);
    AheadFromHas(l, start / DAY, 0, end, start, d, k);
    assert l.mam[k] < DAY && l.mam[k] / DAY == 0;
  }

  /** Whatever the days of operation are, only transports that run on their day are listed. */
  ghost predicate Truthful(mam: seq<nat>, day: int, end: int)
    requires day <= end
  {
    forall active: (nat, int) -> bool ::
      forall e | e in Ahead(Line(0, mam, active), day, 0, end) :: e.run.StaticRun? && active(e.run.transport, e.run.day)
  }

  /** That is so iff no event is past midnight: the day asked about and the day reported differ otherwise. */
  lemma {:induction false} TruthfulIffSameDay(mam: seq<nat>, day: int, end: int)
    requires day < end
    ensures Truthful(mam, day, end) <==> SameDay(mam)
  {
    if SameDay(mam) {
      forall active: (nat, int) -> bool, e | e in Ahead(Line(0, mam, active), day, 0, end)
        ensures e.run.StaticRun? && active(e.run.transport, e.run.day)
      {
        AheadOfLine(Line(0, mam, active), day, 0, end, e);
        assert mam[e.run.transport] < DAY;
      }
    } else {
      var k :| 0 <= k < |mam| && mam[k] >= DAY;
      PastMidnightMisreported(mam, day, end, k);
    }
  }

  lemma {:induction false} PastMidnightMisreported(mam: seq<nat>, day: int, end: int, k: nat)
    requires day < end && k < |mam| && mam[k] >= DAY
    ensures !Truthful(mam, day, end)
  {
    var active: (nat, int) -> bool := (t, d) => d == day - mam[k] / DAY;
    var l := Line(0, mam, active);
    AheadHas(l, day, 0, end, day, k);
    assert At(l, day, k) in Ahead(l, day, 0, end) && !active(k, day);
  }

  /** Whatever the days of operation are, everything that takes place from the start on is listed. */
  ghost predicate CompleteFrom(mam: seq<nat>, start: int, end: int)
    requires start / DAY <= end
  {
    forall active: (nat, int) -> bool :: AllListedForward(Line(0, mam, active), start, end)
  }

  ghost predicate AllListedForward(l: Line, start: int, end: int)
    requires start / DAY <= end
  {
    forall d, k | 0 <= k < |l.mam| && Runs(l, d, k) && d < end && At(l, d, k).time >= start ::
      At(l, d, k) in AheadFrom(l, start / DAY, 0, end, start)
  }

  /** That is so iff no event is past midnight, whether or not the transports are sorted. */
  lemma {:induction false} CompleteIffSameDay(mam: seq<nat>, start: int, end: int)
    requires start / DAY < end
    ensures CompleteFrom(mam, start, end) <==> SameDay(mam)
  {
    if SameDay(mam) {
      forall active: (nat, int) -> bool ensures AllListedForward(Line(0, mam, active), start, end) {
        var l := Line(0, mam, active);
        forall d, k | 0 <= k < |l.mam| && Runs(l, d, k) && d < end && At(l, d, k).time >= start
          ensures At(l, d, k) in AheadFrom(l, start / DAY, 0, end, start)
        {
          assert mam[k] < DAY && mam[k] / DAY == 0;
          AheadFromKeeps(l, start / DAY, 0, end, start, d, k);
        }
      }
    } else {
      var k :| 0 <= k < |mam| && mam[k] >= DAY;
      PastMidnightNotListed(mam, start, end, k);
    }
  }

  /** Passing over what is before the start passes over nothing else. */
  lemma {:induction false} AheadFromKeeps(l: Line, day: int, i: nat, end: int, start: int, d: int, k: nat)
    requires day <= end && InAhead(l, day, i, end, d, k) && At(l, d, k).time >= start
    ensures At(l, d, k) in AheadFrom(l, day, i, end, start)
    decreases end - day, |l.mam| - i
  {
    if i >= |l.mam| {
      AheadFromKeeps(l, day + 1, 0, end, start, d, k);
    } else if At(l, day, i).time >= start && IsActive(l, day, i) {
      AheadHas(l, day, i, end, d, k);
    } else {
      AheadFromKeeps(l, day, i + 1, end, start, d, k);
    }
  }

  /** If transport k runs on the last day only, the day asked about when that day is visited is another. */
  lemma {:induction false} PastMidnightNotListed(mam: seq<nat>, start: int, end: int, k: nat)
    requires start / DAY < end && k < |mam| && mam[k] >= DAY
    ensures !CompleteFrom(mam, start, end)
  {
    var active: (nat, int) -> bool := (t, d) => t == k && d == end - 1;
    var l := Line(0, mam, active);
    if At(l, end - 1, k) in AheadFrom(l, start / DAY, 0, end, start) {
      AheadFromActive(l, start / DAY, 0, end, start, At(l, end - 1, k));
    }
    assert Runs(l, end - 1, k) && !AllListedForward(l, start, end);
  }

  lemma {:induction false} AheadFromActive(l: Line, day: int, i: nat, end: int, start: int, e: Event)
    requires day <= end && e in AheadFrom(l, day, i, end, start)
    ensures OfLine(l, e) && InAhead(l, day, i, end, e.run.day, e.run.transport)
    decreases end - day, |l.mam| - i
  {
    if i >= |l.mam| {
      AheadFromActive(l, day + 1, 0, end, start, e);
    } else if At(l, day, i).time >= start && IsActive(l, day, i) {
      AheadOfLine(l, day, i, end, e);
    } else {
      AheadFromActive(l, day, i + 1, end, start, e);
    }
  }

  /** Nothing listed from the start on is other than what takes place, whatever the days of operation are. */
  ghost predicate TruthfulFrom(mam: seq<nat>, start: int, end: int)
    requires start / DAY <= end
  {
    forall active: (nat, int) -> bool ::
      forall e | e in AheadFrom(Line(0, mam, active), start / DAY, 0, end, start) :: e.run.StaticRun?
          && active(e.run.transport, e.run.day)
  }

  /** From a start the list is right iff it is complete, and that is iff no event is past midnight. */
  lemma {:induction false} TruthfulFromIffSameDay(mam: seq<nat>, start: int, end: int)
    requires start / DAY < end
    ensures TruthfulFrom(mam, start, end) <==> SameDay(mam)
    ensures TruthfulFrom(mam, start, end) <==> CompleteFrom(mam, start, end)
  {
    CompleteIffSameDay(mam, start, end);
    if SameDay(mam) {
      forall active: (nat, int) -> bool, e | e in AheadFrom(Line(0, mam, active), start / DAY, 0, end, start)
        ensures e.run.StaticRun? && active(e.run.transport, e.run.day)
      {
        AheadFromActive(Line(0, mam, active), start / DAY, 0, end, start, e);
        assert mam[e.run.transport] < DAY;
      }
    } else {
      var k :| 0 <= k < |mam| && mam[k] >= DAY;
      var day := end - 1;
      var active: (nat, int) -> bool := (t, d) => d == day - mam[k] / DAY;
      var l := Line(0, mam, active);
      AheadFromKeeps(l, start / DAY, 0, end, start, day, k);
      assert At(l, day, k) in AheadFrom(l, start / DAY, 0, end, start) && !active(k, day);
    }
  }

  /** A night bus at one o'clock of the next day that runs on day 0 only: it is not listed for that day, but for the
      next. */
  lemma {:induction false} NightBusMisreported()
    ensures var l := Line(0, [1500], (i, d) => d == 0);
      Runs(l, 0, 0) && At(l, 0, 0) !in AheadFrom(l, 0, 0, 2, 0) && At(l, 1, 0) in AheadFrom(l, 0, 0, 2, 0)
        && !Runs(l, 1, 0)
  {
    var l := Line(0, [1500], (i, d) => d == 0);
    assert !IsActive(l, 0, 0) && IsActive(l, 1, 0);
    AheadFromKeeps(l, 0, 0, 2, 0, 1, 0);
    if At(l, 0, 0) in AheadFrom(l, 0, 0, 2, 0) { AheadFromActive(l, 0, 0, 2, 0, At(l, 0, 0)); }
  }

  // ---------------------------------------------------------------- backward streams

  ghost predicate InBehind(l: Line, day: int, i: int, d: int, k: nat) {
    0 < k < |l.mam| && 0 <= d && (d < day || (d == day && k <= i)) && IsActive(l, d, k)
  }

  lemma {:induction false} BehindHas(l: Line, day: int, i: int, d: int, k: nat)
    requires day >= -1 && i < |l.mam| && k < |l.mam|
    ensures At(l, d, k) in Behind(l, day, i) <==> InBehind(l, day, i, d, k)
    decreases day, i
  {
    if day == -1 {
    } else if i <= 0 {
      BehindHas(l, day - 1, |l.mam| - 1, d, k);
    } else {
      BehindHas(l, day, i - 1, d, k);
      assert At(l, d, k) == At(l, day, i) <==> d == day && k == i;
    }
  }

  lemma {:induction false} BehindOfLine(l: Line, day: int, i: int, e: Event)
    requires day >= -1 && i < |l.mam| && e in Behind(l, day, i)
    ensures OfLine(l, e) && InBehind(l, day, i, e.run.day, e.run.transport)
    decreases day, i
  {
    if i <= 0 {
      BehindOfLine(l, day - 1, |l.mam| - 1, e);
    } else if !IsActive(l, day, i) || e != At(l, day, i) {
      BehindOfLine(l, day, i - 1, e);
    }
  }

  ghost predicate InReverseOrder(s: seq<Event>) {
    forall a, b | 0 <= a < b < |s| :: s[a].time >= s[b].time && LaterRun(s[b].run, s[a].run)
  }

  lemma {:induction false} BehindInReverseOrder(l: Line, day: int, i: int)
    requires day >= -1 && i < |l.mam| && Sorted(l.mam) && SameDay(l.mam)
    ensures InReverseOrder(Behind(l, day, i))
    decreases day, i
  {
    if day == -1 {
    } else if i <= 0 {
      BehindInReverseOrder(l, day - 1, |l.mam| - 1);
    } else {
      BehindInReverseOrder(l, day, i - 1);
      var rest := Behind(l, day, i - 1);
      forall b | 0 <= b < |rest|
        ensures At(l, day, i).time >= rest[b].time && LaterRun(rest[b].run, At(l, day, i).run)
      {
        BehindOfLine(l, day, i - 1, rest[b]);
        LaterIsNotEarlier(l, rest[b].run.day, rest[b].run.transport, day, i);
      }
    }
  }

  lemma {:induction false} BehindFromHas(l: Line, day: int, i: int, start: int, d: int, k: nat)
    requires day >= -1 && i < |l.mam| && k < |l.mam| && Sorted(l.mam) && SameDay(l.mam)
    ensures At(l, d, k) in BehindFrom(l, day, i, start) <==> InBehind(l, day, i, d, k) && At(l, d, k).time <= start
    decreases day, i
  {
    if day == -1 {
    } else if i <= 0 {
      BehindFromHas(l, day - 1, |l.mam| - 1, start, d, k);
    } else if At(l, day, i).time <= start && IsActive(l, day, i) {
      BehindHas(l, day, i, d, k);
      if InBehind(l, day, i, d, k) { LaterIsNotEarlier(l, d, k, day, i); }
    } else {
      BehindFromHas(l, day, i - 1, start, d, k);
    }
  }

  lemma {:induction false} BehindFromInReverseOrder(l: Line, day: int, i: int, start: int)
    requires day >= -1 && i < |l.mam| && Sorted(l.mam) && SameDay(l.mam)
    ensures InReverseOrder(BehindFrom(l, day, i, start))
    decreases day, i
  {
    if day == -1 {
    } else if i <= 0 {
      BehindFromInReverseOrder(l, day - 1, |l.mam| - 1, start);
    } else if At(l, day, i).time <= start && IsActive(l, day, i) {
      BehindInReverseOrder(l, day, i);
    } else {
      BehindFromInReverseOrder(l, day, i - 1, start);
    }
  }

  /** Backward from a start: exactly the events of all transports but the first, from then back to day 0, latest
      first. */
  lemma {:induction false} BackwardSkipsFirst(l: Line, start: nat, d: int, k: nat)
    requires Sorted(l.mam) && SameDay(l.mam) && k < |l.mam|
    ensures var s := BehindFrom(l, start / DAY, |l.mam| - 1, start);
      InReverseOrder(s) && (At(l, d, k) in s <==> k > 0 && Runs(l, d, k) && 0 <= d && At(l, d, k).time <= start)
  {
    BehindFromInReverseOrder(l, start / DAY, |l.mam| - 1, start);
    BehindFromHas(l, start / DAY, |l.mam| - 1, start, d, k);
    assert l.mam[k] < DAY && l.mam[k] / DAY == 0;
  }

  /** No transport but the first, which is never looked at, gets to the stop after midnight. */
  ghost predicate SameDayButFirst(mam: seq<nat>) {
    forall k | 0 < k < |mam| :: mam[k] < DAY
  }

  /** Whatever the start and the days of operation are, only transports that run on their day are listed backwards. */
  ghost predicate TruthfulBackward(mam: seq<nat>) {
    forall active: (nat, int) -> bool, start: nat :: TruthfulBackFrom(Line(0, mam, active), start)
  }

  ghost predicate TruthfulBackFrom(l: Line, start: nat) {
    forall e | e in BehindFrom(l, start / DAY, |l.mam| - 1, start) :: e.run.StaticRun?
        && l.active(e.run.transport, e.run.day)
  }

  lemma {:induction false} BehindFromOfLine(l: Line, day: int, i: int, start: int, e: Event)
    requires day >= -1 && i < |l.mam| && e in BehindFrom(l, day, i, start)
    ensures OfLine(l, e) && InBehind(l, day, i, e.run.day, e.run.transport)
    decreases day, i
  {
    if i <= 0 {
      BehindFromOfLine(l, day - 1, |l.mam| - 1, start, e);
    } else if At(l, day, i).time <= start && IsActive(l, day, i) {
      BehindOfLine(l, day, i, e);
    } else {
      BehindFromOfLine(l, day, i - 1, start, e);
    }
  }

  /** Passing over what is after the start passes over nothing else. */
  lemma {:induction false} BehindFromKeeps(l: Line, day: int, i: int, start: int, d: int, k: nat)
    requires day >= -1 && i < |l.mam| && InBehind(l, day, i, d, k) && At(l, d, k).time <= start
    ensures At(l, d, k) in BehindFrom(l, day, i, start)
    decreases day, i
  {
    if i <= 0 {
      BehindFromKeeps(l, day - 1, |l.mam| - 1, start, d, k);
    } else if At(l, day, i).time <= start && IsActive(l, day, i) {
      BehindHas(l, day, i, d, k);
    } else {
      BehindFromKeeps(l, day, i - 1, start, d, k);
    }
  }

  /** That is so iff no event but those of the first transport is past midnight, sorted or not. */
  lemma {:induction false} TruthfulBackwardIffSameDay(mam: seq<nat>)
    ensures TruthfulBackward(mam) <==> SameDayButFirst(mam)
  {
    if SameDayButFirst(mam) {
      forall active: (nat, int) -> bool, start: nat ensures TruthfulBackFrom(Line(0, mam, active), start) {
        var l := Line(0, mam, active);
        forall e | e in BehindFrom(l, start / DAY, |l.mam| - 1, start)
          ensures e.run.StaticRun? && l.active(e.run.transport, e.run.day) {
          BehindFromOfLine(l, start / DAY, |l.mam| - 1, start, e);
          assert mam[e.run.transport] < DAY;
        }
      }
    } else {
      var k: nat :| 0 < k < |mam| && mam[k] >= DAY;
      LateMisreportedBackward(mam, k);
    }
  }

  /** A transport that runs on day 0 only and leaves after midnight is listed for a later day. */
  lemma {:induction false} LateMisreportedBackward(mam: seq<nat>, k: nat)
    requires 0 < k < |mam| && mam[k] >= DAY
    ensures !TruthfulBackward(mam)
  {
    var active: (nat, int) -> bool := (t, d) => t == k && d == 0;
    var l, day := Line(0, mam, active), mam[k] / DAY;
    var start: nat := day * DAY + mam[k];
    BehindFromKeeps(l, start / DAY, |mam| - 1, start, day, k);
    assert At(l, day, k) in BehindFrom(l, start / DAY, |mam| - 1, start) && !l.active(k, day);
    assert !TruthfulBackFrom(l, start);
  }

  ghost predicate AllListedBackward(l: Line, start: nat) {
    forall d, k | 0 <= k < |l.mam| && Runs(l, d, k) && 0 <= d && At(l, d, k).time <= start ::
      At(l, d, k) in BehindFrom(l, start / DAY, |l.mam| - 1, start)
  }

  /** So the backward list is complete iff the first transport of the route has not run by then. */
  lemma {:induction false} BackwardCompleteIff(l: Line, start: nat)
    requires Sorted(l.mam) && SameDay(l.mam)
    ensures AllListedBackward(l, start) <==>
      !exists d :: 0 <= d && Runs(l, d, 0) && At(l, d, 0).time <= start
  {
    forall d, k | 0 <= k < |l.mam|
      ensures At(l, d, k) in BehindFrom(l, start / DAY, |l.mam| - 1, start) <==>
        k > 0 && Runs(l, d, k) && 0 <= d && At(l, d, k).time <= start
    {
      BackwardSkipsFirst(l, start, d, k);
    }
  }

  /** A route with one transport, which leaves at one o'clock on the first day: at two it is not listed backwards. */
  lemma {:induction false} OnlyTransportMissed()
    ensures var l := Line(0, [60], (i, d) => d == 0);
      Runs(l, 0, 0) && At(l, 0, 0).time == 60 && BehindFrom(l, 120 / DAY, 0, 120) == [] && !AllListedBackward(l, 120)
  {
    var l := Line(0, [60], (i, d) => d == 0);
    assert Runs(l, 0, 0) && At(l, 0, 0).time == 60;
    BackwardCompleteIff(l, 120);
  }

  // ---------------------------------------------------------------- the merge

  lemma {:induction false} MinElementIsMin(streams: seq<seq<Event>>, fwd: bool, n: nat, k: nat)
    requires k < n <= |streams|
    ensures var m := MinElement(streams, fwd, n);
        !Precedes(streams[k], streams[m], fwd)
        && (k < m ==> Precedes(streams[m], streams[k], fwd))
  {
    if n > 1 {
      if k < n - 1 { MinElementIsMin(streams, fwd, n - 1, k); }
    }
  }

  /** If any stream has an event left, the one picked has. */
  lemma {:induction false} PickedHasEvent(streams: seq<seq<Event>>, fwd: bool)
    requires !AllFinished(streams)
    ensures streams[MinElement(streams, fwd, |streams|)] != []
  {
    var k :| 0 <= k < |streams| && streams[k] != [];
    MinElementIsMin(streams, fwd, |streams|, k);
  }

  predicate NotAfter(a: Event, b: Event, fwd: bool) {
    if fwd then a.time <= b.time else a.time >= b.time
  }

  ghost predicate StreamOrdered(s: seq<Event>, fwd: bool) {
    forall a, b | 0 <= a < b < |s| :: NotAfter(s[a], s[b], fwd)
  }

  ghost predicate AllOrdered(streams: seq<seq<Event>>, fwd: bool) {
    forall k | 0 <= k < |streams| :: StreamOrdered(streams[k], fwd)
  }

  /** No event of any stream comes before e. */
  ghost predicate NoneBefore(streams: seq<seq<Event>>, e: Event, fwd: bool) {
    forall k, x | 0 <= k < |streams| && 0 <= x < |streams[k]| :: NotAfter(e, streams[k][x], fwd)
  }

  lemma {:induction false} PickedIsFirst(streams: seq<seq<Event>>, fwd: bool)
    requires !AllFinished(streams) && AllOrdered(streams, fwd)
    ensures var m := MinElement(streams, fwd, |streams|); streams[m] != [] && NoneBefore(streams, streams[m][0], fwd)
  {
    PickedHasEvent(streams, fwd);
    var m := MinElement(streams, fwd, |streams|);
    forall k, x | 0 <= k < |streams| && 0 <= x < |streams[k]|
      ensures NotAfter(streams[m][0], streams[k][x], fwd)
    {
      MinElementIsMin(streams, fwd, |streams|, k);
      assert NotAfter(streams[m][0], streams[k][0], fwd);
      assert x > 0 ==> NotAfter(streams[k][0], streams[k][x], fwd);
    }
  }

  lemma {:induction false} DropFirst(streams: seq<seq<Event>>, fwd: bool, m: nat, e: Event)
    requires m < |streams| && streams[m] != []
    ensures var r := streams[m := streams[m][1..]];
      (AllOrdered(streams, fwd) ==> AllOrdered(r, fwd)) && (NoneBefore(streams, e, fwd) ==> NoneBefore(r, e, fwd))
  {
    var r := streams[m := streams[m][1..]];
    if AllOrdered(streams, fwd) {
      forall k | 0 <= k < |r| ensures StreamOrdered(r[k], fwd) {
        assert StreamOrdered(streams[k], fwd);
      }
    }
    if NoneBefore(streams, e, fwd) {
      forall k, x | 0 <= k < |r| && 0 <= x < |r[k]| ensures NotAfter(e, r[k][x], fwd) {
        assert r[k][x] == if k == m then streams[k][x + 1] else streams[k][x];
      }
    }
  }

  /** If no event of the streams comes before e, none of the merged list does. */
  lemma {:induction false} MergeNoneBefore(streams: seq<seq<Event>>, fwd: bool, count: nat, e: Event)
    requires NoneBefore(streams, e, fwd)
    ensures forall b | 0 <= b < |Merge(streams, fwd, count)| :: NotAfter(e, Merge(streams, fwd, count)[b], fwd)
    ensures NoneBefore(Left(streams, fwd, count), e, fwd)
    decreases count
  {
    if !AllFinished(streams) && count > 0 {
      PickedHasEvent(streams, fwd);
      var m := MinElement(streams, fwd, |streams|);
      DropFirst(streams, fwd, m, e);
      MergeNoneBefore(streams[m := streams[m][1..]], fwd, count - 1, e);
      assert NotAfter(e, streams[m][0], fwd);
    }
  }

  /** The list is in order of time, and nothing left out comes before anything listed. */
  lemma {:induction false} MergeInOrder(streams: seq<seq<Event>>, fwd: bool, count: nat)
    requires AllOrdered(streams, fwd)
    ensures StreamOrdered(Merge(streams, fwd, count), fwd)
    ensures forall a | 0 <= a < |Merge(streams, fwd, count)| ::
        NoneBefore(Left(streams, fwd, count), Merge(streams, fwd, count)[a], fwd)
    decreases count
  {
    if !AllFinished(streams) && count > 0 {
      PickedIsFirst(streams, fwd);
      var m := MinElement(streams, fwd, |streams|);
      var r, e := streams[m := streams[m][1..]], streams[m][0];
      DropFirst(streams, fwd, m, e);
      MergeInOrder(r, fwd, count - 1);
      MergeNoneBefore(r, fwd, count - 1, e);
      var rest := Merge(r, fwd, count - 1);
      assert Merge(streams, fwd, count) == [e] + rest && Left(streams, fwd, count) == Left(r, fwd, count - 1);
    }
  }

  function Total(streams: seq<seq<Event>>, n: nat): nat
    requires n <= |streams|
  {
    if n == 0 then 0 else Total(streams, n - 1) + |streams[n - 1]|
  }

  lemma {:induction false} TotalDrop(streams: seq<seq<Event>>, m: nat, n: nat)
    requires m < |streams| && streams[m] != [] && n <= |streams|
    ensures Total(streams[m := streams[m][1..]], n) == Total(streams, n) - if m < n then 1 else 0
  {
    if n > 0 { TotalDrop(streams, m, n - 1); }
  }

  lemma {:induction false} TotalZero(streams: seq<seq<Event>>, n: nat)
    requires n <= |streams|
    ensures Total(streams, n) == 0 <==> forall k | 0 <= k < n :: streams[k] == []
  {
    if n > 0 { TotalZero(streams, n - 1); }
  }

  /** As many events are listed as asked for, or all. */
  lemma {:induction false} MergeLength(streams: seq<seq<Event>>, fwd: bool, count: nat)
    ensures |Merge(streams, fwd, count)| == if count < Total(streams, |streams|) then count
        else Total(streams, |streams|)
    decreases count
  {
    TotalZero(streams, |streams|);
    if !AllFinished(streams) && count > 0 {
      PickedHasEvent(streams, fwd);
      var m := MinElement(streams, fwd, |streams|);
      TotalDrop(streams, m, |streams|);
      MergeLength(streams[m := streams[m][1..]], fwd, count - 1);
    }
  }

  /** How often k is among the first n picks. */
  function Times(picks: seq<nat>, k: nat, n: nat): (c: nat)
    requires n <= |picks|
    ensures c <= n
  {
    if n == 0 then 0 else Times(picks, k, n - 1) + if picks[n - 1] == k then 1 else 0
  }

  lemma {:induction false} TimesCons(m: nat, picks: seq<nat>, k: nat, n: nat)
    requires n <= |picks|
    ensures Times([m] + picks, k, n + 1) == Times(picks, k, n) + if m == k then 1 else 0
  {
    if n == 0 {
      assert Times([m] + picks, k, 0) == 0;
    } else {
      TimesCons(m, picks, k, n - 1);
      assert ([m] + picks)[n] == picks[n - 1];
    }
  }

  /** Each stream gives a prefix of itself, in its own order: event b is the next one of the stream picked for it. */
  lemma {:induction false} StreamsGivePrefixes(streams: seq<seq<Event>>, fwd: bool, count: nat, k: nat)
    requires k < |streams|
    ensures var p := Picks(streams, fwd, count);
      && |p| == |Merge(streams, fwd, count)|
      && Times(p, k, |p|) <= |streams[k]|
      && Left(streams, fwd, count)[k] == streams[k][Times(p, k, |p|)..]
    decreases count
  {
    if !AllFinished(streams) && count > 0 {
      PickedHasEvent(streams, fwd);
      var m := MinElement(streams, fwd, |streams|);
      var r := streams[m := streams[m][1..]];
      StreamsGivePrefixes(r, fwd, count - 1, k);
      var p := Picks(r, fwd, count - 1);
      TimesCons(m, p, k, |p|);
      assert Picks(streams, fwd, count) == [m] + p;
    }
  }

  lemma {:induction false} PicksLength(streams: seq<seq<Event>>, fwd: bool, count: nat)
    ensures |Picks(streams, fwd, count)| == |Merge(streams, fwd, count)|
    decreases count
  {
    if !AllFinished(streams) && count > 0 {
      var m := MinElement(streams, fwd, |streams|);
      if streams[m] != [] { PicksLength(streams[m := streams[m][1..]], fwd, count - 1); }
    }
  }

  lemma {:induction false} ListedFromPicked(streams: seq<seq<Event>>, fwd: bool, count: nat, b: nat)
    requires b < |Merge(streams, fwd, count)|
    ensures var p := Picks(streams, fwd, count);
      && b < |p| && Times(p, p[b], b) < |streams[p[b]]|
      && Merge(streams, fwd, count)[b] == streams[p[b]][Times(p, p[b], b)]
    decreases count
  {
    hide *;
    MergeStep(streams, fwd, count);
    var m := MinElement(streams, fwd, |streams|);
    var r := streams[m := streams[m][1..]];
    var p := Picks(r, fwd, count - 1);
    PicksLength(r, fwd, count - 1);
    if b == 0 {
      NoTimes([m] + p, m);
    } else {
      ListedFromPicked(r, fwd, count - 1, b - 1);
      TimesCons(m, p, p[b - 1], b - 1);
      assert ([m] + p)[b] == p[b - 1];
    }
  }

  lemma {:induction false} NoTimes(picks: seq<nat>, k: nat)
    ensures Times(picks, k, 0) == 0
  {}

  lemma {:induction false} MergeStep(streams: seq<seq<Event>>, fwd: bool, count: nat)
    requires Merge(streams, fwd, count) != []
    ensures var m := MinElement(streams, fwd, |streams|);
      && count > 0 && streams[m] != []
      && var r := streams[m := streams[m][1..]];
      && Picks(streams, fwd, count) == [m] + Picks(r, fwd, count - 1)
      && Merge(streams, fwd, count) == [streams[m][0]] + Merge(r, fwd, count - 1)
  {}

  /** What is no longer in its stream has been listed. */
  lemma {:induction false} ListedOrLeft(streams: seq<seq<Event>>, fwd: bool, count: nat, k: nat, e: Event)
    requires k < |streams| && e in streams[k]
    ensures e in Merge(streams, fwd, count) || e in Left(streams, fwd, count)[k]
    decreases count
  {
    if !AllFinished(streams) && count > 0 {
      PickedHasEvent(streams, fwd);
      var m := MinElement(streams, fwd, |streams|);
      if k != m || e != streams[m][0] {
        ListedOrLeft(streams[m := streams[m][1..]], fwd, count - 1, k, e);
      }
    }
  }

  // ---------------------------------------------------------------- the board

  function ForwardStreams(lines: seq<Line>, end: int, start: int): (r: seq<seq<Event>>)
    requires start / DAY <= end
    ensures |r| == |lines| && forall x | 0 <= x < |lines| :: r[x] == AheadFrom(lines[x], start / DAY, 0, end, start)
  {
    seq(|lines|, x requires 0 <= x < |lines| => AheadFrom(lines[x], start / DAY, 0, end, start))
  }

  /** A forward board is in order of time, and an event of any line that takes place from the start until the end day
      is listed, unless the board is full and lists nothing later. */
  lemma {:induction false} ForwardBoard(lines: seq<Line>, end: int, start: int, count: nat, x: nat, d: int, k: nat)
    requires start / DAY <= end && forall y | 0 <= y < |lines| :: Sorted(lines[y].mam) && SameDay(lines[y].mam)
    requires x < |lines| && Runs(lines[x], d, k) && d < end && At(lines[x], d, k).time >= start
    ensures var board := Merge(ForwardStreams(lines, end, start), true, count);
      && StreamOrdered(board, true)
      && (At(lines[x], d, k) in board ||
          (|board| == count && forall b | 0 <= b < |board| :: board[b].time <= At(lines[x], d, k).time))
  {
    var streams := ForwardStreams(lines, end, start);
    forall y | 0 <= y < |lines| ensures StreamOrdered(streams[y], true) {
      AheadFromInOrder(lines[y], start / DAY, 0, end, start);
    }
    MergeInOrder(streams, true, count);
    ForwardIsComplete(lines[x], end, start, d, k);
    ListedOrLeft(streams, true, count, x, At(lines[x], d, k));
    if At(lines[x], d, k) in Left(streams, true, count)[x] {
      FullIfLeft(streams, true, count, x);
    }
  }

  lemma {:induction false} FullIfLeft(streams: seq<seq<Event>>, fwd: bool, count: nat, k: nat)
    requires k < |streams| && Left(streams, fwd, count)[k] != []
    ensures |Merge(streams, fwd, count)| == count
    decreases count
  {
    if count > 0 {
      PickedHasEvent(streams, fwd);
      var m := MinElement(streams, fwd, |streams|);
      FullIfLeft(streams[m := streams[m][1..]], fwd, count - 1, k);
    }
  }

  /** And it lists nothing that does not take place then. */
  lemma {:induction false} ForwardBoardOnly(lines: seq<Line>, end: int, start: int, count: nat, b: nat)
    requires start / DAY <= end && forall y | 0 <= y < |lines| :: Sorted(lines[y].mam) && SameDay(lines[y].mam)
    requires b < |Merge(ForwardStreams(lines, end, start), true, count)|
    ensures var e := Merge(ForwardStreams(lines, end, start), true, count)[b];
      e.time >= start && e.run.StaticRun? && exists x ::
        0 <= x < |lines| && OfLine(lines[x], e)
        && Runs(lines[x], e.run.day, e.run.transport)
  {
    var streams := ForwardStreams(lines, end, start);
    ListedFromPicked(streams, true, count, b);
    var x := Picks(streams, true, count)[b];
    var e := Merge(streams, true, count)[b];
    assert e in streams[x];
    AheadFromActive(lines[x], start / DAY, 0, end, start, e);
    ForwardIsComplete(lines[x], end, start, e.run.day, e.run.transport);
  }

  // ---------------------------------------------------------------- the board backwards

  function BackwardStreams(lines: seq<Line>, start: nat): (r: seq<seq<Event>>)
    ensures |r| == |lines|
    ensures forall x | 0 <= x < |lines| :: r[x] == BehindFrom(lines[x], start / DAY, |lines[x].mam| - 1, start)
  {
    seq(|lines|, x requires 0 <= x < |lines| => BehindFrom(lines[x], start / DAY, |lines[x].mam| - 1, start))
  }

  /** A backward board is in order of time, latest first, and an event of any line that has taken place by the start is
      listed, unless it is one of the line's first transport, or the board is full and lists nothing earlier. */
  lemma {:induction false} BackwardBoard(lines: seq<Line>, start: nat, count: nat, x: nat, d: int, k: nat)
    requires forall y | 0 <= y < |lines| :: Sorted(lines[y].mam) && SameDay(lines[y].mam)
    requires x < |lines| && Runs(lines[x], d, k) && 0 <= d && At(lines[x], d, k).time <= start
    ensures var board := Merge(BackwardStreams(lines, start), false, count);
      && StreamOrdered(board, false)
      && (k == 0 || At(lines[x], d, k) in board ||
          (|board| == count && forall b | 0 <= b < |board| :: board[b].time >= At(lines[x], d, k).time))
  {
    var streams := BackwardStreams(lines, start);
    forall y | 0 <= y < |lines| ensures StreamOrdered(streams[y], false) {
      BehindFromInReverseOrder(lines[y], start / DAY, |lines[y].mam| - 1, start);
    }
    MergeInOrder(streams, false, count);
    if k > 0 {
      BackwardSkipsFirst(lines[x], start, d, k);
      ListedOrLeft(streams, false, count, x, At(lines[x], d, k));
      if At(lines[x], d, k) in Left(streams, false, count)[x] { FullIfLeft(streams, false, count, x); }
    }
  }

  /** And everything listed has taken place by then, and is not of the first transport of its line. */
  lemma {:induction false} BackwardBoardOnly(lines: seq<Line>, start: nat, count: nat, b: nat)
    requires forall y | 0 <= y < |lines| :: Sorted(lines[y].mam) && SameDay(lines[y].mam)
    requires b < |Merge(BackwardStreams(lines, start), false, count)|
    ensures var e := Merge(BackwardStreams(lines, start), false, count)[b];
      && e.time <= start && e.run.StaticRun? && e.run.transport > 0 && e.run.day >= 0
      && exists x :: 0 <= x < |lines| && OfLine(lines[x], e) && Runs(lines[x], e.run.day, e.run.transport)
  {
    hide *;
    var streams := BackwardStreams(lines, start);
    ListedFromPicked(streams, false, count, b);
    var x := Picks(streams, false, count)[b];
    var e := Merge(streams, false, count)[b];
    assert e in streams[x];
    BackwardListed(lines[x], start, e);
  }

  /** What a backward stream has. */
  lemma {:induction false} BackwardListed(l: Line, start: nat, e: Event)
    requires Sorted(l.mam) && SameDay(l.mam) && e in BehindFrom(l, start / DAY, |l.mam| - 1, start)
    ensures e.time <= start && e.run.StaticRun? && e.run.transport > 0 && e.run.day >= 0
    ensures OfLine(l, e) && Runs(l, e.run.day, e.run.transport)
  {
    BehindFromOfLine(l, start / DAY, |l.mam| - 1, start, e);
    BackwardSkipsFirst(l, start, e.run.day, e.run.transport);
  }

  // ---------------------------------------------------------------- the boards, written out

  /** Transports by their time at the stop, all on the day itself. */
  ghost predicate Regular(l: Line) {
    (forall i, k | 0 <= i <= k < |l.mam| :: l.mam[i] <= l.mam[k]) && forall i | 0 <= i < |l.mam| :: l.mam[i] < 1440
  }

  /** Forwards a line's events, by route, transport, day and minute: those that take place from the start until the
      end. */
  lemma {:induction false} ForwardEvents(l: Line, end: int, start: int, e: Event)
    requires start / 1440 <= end && Regular(l)
    ensures e in AheadFrom(l, start / 1440, 0, end, start) <==>
      && e.run.StaticRun? && e.run.line == l.id && e.run.transport < |l.mam| && e.run.day < end
      && l.active(e.run.transport, e.run.day)
      && e.time == e.run.day * 1440 + l.mam[e.run.transport] && e.time >= start
  {
    if e in AheadFrom(l, start / 1440, 0, end, start) {
      AheadFromActive(l, start / DAY, 0, end, start, e);
    }
    if e.run.StaticRun? && e.run.transport < |l.mam| {
      ForwardIsComplete(l, end, start, e.run.day, e.run.transport);
    }
  }

  /** Backwards those that have taken place by the start, from day 0 on, but for the first transport. */
  lemma {:induction false} BackwardEvents(l: Line, start: nat, e: Event)
    requires Regular(l)
    ensures e in BehindFrom(l, start / 1440, |l.mam| - 1, start) <==>
      && e.run.StaticRun? && e.run.line == l.id && 0 < e.run.transport < |l.mam| && e.run.day >= 0
      && l.active(e.run.transport, e.run.day)
      && e.time == e.run.day * 1440 + l.mam[e.run.transport] && e.time <= start
  {
    if e in BehindFrom(l, start / 1440, |l.mam| - 1, start) {
      BehindFromOfLine(l, start / DAY, |l.mam| - 1, start, e);
    }
    if e.run.StaticRun? && e.run.transport < |l.mam| {
      BackwardSkipsFirst(l, start, e.run.day, e.run.transport);
    }
  }

  /** An event of a line, by route, transport, day and minute, that takes place. */
  ghost predicate TakesPlace(l: Line, e: Event) {
    && e.run.StaticRun? && e.run.line == l.id && e.run.transport < |l.mam| && l.active(e.run.transport, e.run.day)
    && e.time == e.run.day * 1440 + l.mam[e.run.transport]
  }

  ghost predicate OnSomeLine(lines: seq<Line>, e: Event) {
    exists x :: 0 <= x < |lines| && TakesPlace(lines[x], e)
  }

  /** A forward board: nothing but what takes place from the start until the end; none before an earlier one; no more
      than asked for; and if something that takes place is not listed, there are as many as asked for, none of them
      later. */
  lemma {:induction false} ForwardBoardWrittenOut(lines: seq<Line>, end: int, start: int, count: nat)
    requires start / 1440 <= end && forall y | 0 <= y < |lines| :: Regular(lines[y])
    ensures var board := Merge(ForwardStreams(lines, end, start), true, count);
      && |board| <= count
      && (forall e | e in board :: OnSomeLine(lines, e) && e.time >= start && e.run.day < end)
      && (forall a, b | 0 <= a < b < |board| :: board[a].time <= board[b].time)
      && (forall x, e | 0 <= x < |lines| && TakesPlace(lines[x], e) && e.time >= start && e.run.day < end
        && e !in board ::
            |board| == count && forall b | 0 <= b < count :: board[b].time <= e.time)
  {
    var streams := ForwardStreams(lines, end, start);
    var board := Merge(streams, true, count);
    forall y | 0 <= y < |lines| ensures Sorted(lines[y].mam) && SameDay(lines[y].mam) { assert Regular(lines[y]); }
    MergeLength(streams, true, count);
    forall e | e in board ensures OnSomeLine(lines, e) && e.time >= start && e.run.day < end {
      var b :| 0 <= b < |board| && board[b] == e;
      ListedFromPicked(streams, true, count, b);
      var x := Picks(streams, true, count)[b];
      assert e in streams[x];
      ForwardEvents(lines[x], end, start, e);
      assert TakesPlace(lines[x], e);
    }
    ForwardBoardInOrder(lines, end, start, count);
    forall x, e | 0 <= x < |lines| && TakesPlace(lines[x], e) && e.time >= start && e.run.day < end && e !in board
      ensures |board| == count && forall b | 0 <= b < count :: board[b].time <= e.time
    {
      ForwardBoard(lines, end, start, count, x, e.run.day, e.run.transport);
      assert e == At(lines[x], e.run.day, e.run.transport);
    }
  }

  lemma {:induction false} ForwardBoardInOrder(lines: seq<Line>, end: int, start: int, count: nat)
    requires start / 1440 <= end && forall y | 0 <= y < |lines| :: Sorted(lines[y].mam) && SameDay(lines[y].mam)
    ensures var board := Merge(ForwardStreams(lines, end, start), true, count);
      forall a, b | 0 <= a < b < |board| :: board[a].time <= board[b].time
  {
    var streams := ForwardStreams(lines, end, start);
    forall y | 0 <= y < |lines| ensures StreamOrdered(streams[y], true) {
      AheadFromInOrder(lines[y], start / DAY, 0, end, start);
    }
    MergeInOrder(streams, true, count);
  }

  /** A backward board, likewise: latest first, and without the first transport of each line. */
  lemma {:induction false} BackwardBoardWrittenOut(lines: seq<Line>, start: nat, count: nat)
    requires forall y | 0 <= y < |lines| :: Regular(lines[y])
    ensures var board := Merge(BackwardStreams(lines, start), false, count);
      && |board| <= count
      && (forall e | e in board :: OnSomeLine(lines, e) && e.time <= start && e.run.day >= 0 && e.run.transport > 0)
      && (forall a, b | 0 <= a < b < |board| :: board[a].time >= board[b].time)
      && (forall x, e | 0 <= x < |lines| && TakesPlace(lines[x], e) && e.time <= start && e.run.day >= 0
                        && e.run.transport > 0 && e !in board ::
            |board| == count && forall b | 0 <= b < count :: board[b].time >= e.time)
  {
    var streams := BackwardStreams(lines, start);
    var board := Merge(streams, false, count);
    forall y | 0 <= y < |lines| ensures Sorted(lines[y].mam) && SameDay(lines[y].mam) { assert Regular(lines[y]); }
    MergeLength(streams, false, count);
    forall e | e in board ensures OnSomeLine(lines, e) && e.time <= start && e.run.day >= 0 && e.run.transport > 0 {
      var b :| 0 <= b < |board| && board[b] == e;
      ListedFromPicked(streams, false, count, b);
      var x := Picks(streams, false, count)[b];
      assert e in streams[x];
      BackwardEvents(lines[x], start, e);
      assert TakesPlace(lines[x], e);
    }
    BackwardBoardInOrder(lines, start, count);
    forall x, e | 0 <= x < |lines| && TakesPlace(lines[x], e) && e.time <= start && e.run.day >= 0
        && e.run.transport > 0
                  && e !in board
      ensures |board| == count && forall b | 0 <= b < count :: board[b].time >= e.time
    {
      BackwardBoard(lines, start, count, x, e.run.day, e.run.transport);
      assert e == At(lines[x], e.run.day, e.run.transport);
    }
  }

  lemma {:induction false} BackwardBoardInOrder(lines: seq<Line>, start: nat, count: nat)
    requires forall y | 0 <= y < |lines| :: Sorted(lines[y].mam) && SameDay(lines[y].mam)
    ensures var board := Merge(BackwardStreams(lines, start), false, count);
      forall a, b | 0 <= a < b < |board| :: board[a].time >= board[b].time
  {
    var streams := BackwardStreams(lines, start);
    forall y | 0 <= y < |lines| ensures StreamOrdered(streams[y], false) {
      BehindFromInReverseOrder(lines[y], start / DAY, |lines[y].mam| - 1, start);
    }
    MergeInOrder(streams, false, count);
  }
}
