/**
 libev's periodic timers over exact reals: `ev_floor`, `periodic_recalc` and the
 rescheduling of every periodic after a time jump.
 */
module Periods {

  /** 2^64 or 2^32, as wide as `unsigned long`. */
  function Shift(wide: bool): real {
    if wide then 18446744073709551616.0 else 4294967296.0
  }

  lemma FloorIs(v: real, n: int)
    requires n as real <= v < n as real + 1.0
    ensures v.Floor == n
  {
  }

  /** The part above the shift factor is an integer multiple of it. */
  lemma ShiftedFloor(v: real, wide: bool)
    requires v >= Shift(wide)
    ensures var u := v * (1.0 / Shift(wide)); var f := Shift(wide) * u.Floor as real;
            && u >= 1.0 && u.Floor < v.Floor && v - f >= 0.0 && (v - f).Floor < v.Floor
            && f + (v - f).Floor as real == v.Floor as real
  {
    var s := Shift(wide);
    var u := v * (1.0 / s);
    var n := u.Floor;
    assert v == u * s;
    var m := if wide then 18446744073709551616 * n else 4294967296 * n;
    assert s * n as real == m as real;
    FloorIs(v, m + (v - m as real).Floor);
  }

  lemma ReflectedFloor(v: real)
    ensures v.Floor as real == -(-v).Floor as real - if -(-v).Floor as real == v then 0.0 else 1.0
  {
    var n := -(-v).Floor;
    FloorIs(v, if n as real == v then n else n - 1);
  }

  /** `ev_floor`: truncation below the shift factor, recursion above it, reflection below zero. */
  function EvFloor(v: real, wide: bool): (r: real)
    ensures r == v.Floor as real
    decreases v < 0.0, if v < 0.0 then -v.Floor else v.Floor
  {
    if v < 0.0 then
      var f := -EvFloor(-v, wide);
      ReflectedFloor(v);
      f - (if f == v then 0.0 else 1.0)
    else if v >= Shift(wide) then
      ShiftedFloor(v, wide);
      var f := Shift(wide) * EvFloor(v * (1.0 / Shift(wide)), wide);
      f + EvFloor(v - f, wide)
    else
      v.Floor as real
  }

  /** 1/8192. */
  const MIN_INTERVAL: real := 0.0001220703125

  function Max(a: real, b: real): real { if a > b then a else b }

  /** The `k`-th point of the grid through `base`. */
  function Point(base: real, interval: real, k: int): real {
    base + k as real * interval
  }

  lemma PointSum(base: real, interval: real, j: int, k: int)
    ensures Point(Point(base, interval, j), interval, k) == Point(base, interval, j + k)
  {
    assert (j + k) as real == j as real + k as real;
  }

  lemma PointOrder(base: real, interval: real, j: int, k: int)
    requires interval > 0.0
    ensures Point(base, interval, j) < Point(base, interval, k) <==> j < k
  {
    var d := (k - j) as real;
    assert Point(base, interval, k) - Point(base, interval, j) == d * interval;
    if j < k {
      assert d * interval > 0.0;
    } else if j > k {
      assert (-d) * interval > 0.0;
    }
  }

  /** Which grid point comes last without being after `now`. */
  function Last(base: real, interval: real, now: real): int
    requires interval > 0.0
  {
    ((now - base) / interval).Floor
  }

  lemma LastNotAfter(base: real, interval: real, now: real)
    requires interval > 0.0
    ensures Point(base, interval, Last(base, interval, now)) <= now
  {
    var q := (now - base) / interval;
    assert q * interval == now - base;
    Scale(Last(base, interval, now) as real, q, interval);
  }

  lemma NextIsAfter(base: real, interval: real, now: real)
    requires interval > 0.0
    ensures now < Point(base, interval, Last(base, interval, now) + 1)
  {
    var q := (now - base) / interval;
    assert q * interval == now - base;
    Scale(q, (Last(base, interval, now) + 1) as real, interval);
  }

  lemma LastBounds(base: real, interval: real, now: real)
    requires interval > 0.0
    ensures Point(base, interval, Last(base, interval, now)) <= now < Point(base, interval, Last(base, interval, now) + 1)
  {
    LastNotAfter(base, interval, now);
    NextIsAfter(base, interval, now);
  }

  lemma Scale(a: real, b: real, c: real)
    requires c > 0.0
    ensures a <= b ==> a * c <= b * c
    ensures a < b ==> a * c < b * c
  {
    if a < b {
      assert (b - a) * c > 0.0;
    }
  }

  /** The last grid point not after `now`. */
  function Below(base: real, interval: real, now: real): real
    requires interval > 0.0
  {
    Point(base, interval, Last(base, interval, now))
  }

  /** The next time a periodic is due: from a coarse start, in steps of its interval. */
  function Due(offset: real, interval: real, now: real): real
    requires interval > 0.0
  {
    var start := Below(offset, Max(interval, MIN_INTERVAL), now);
    Point(start, interval, Last(start, interval, now) + 1)
  }

  /** Being a whole number of intervals away from the offset. */
  ghost predicate OnGrid(offset: real, interval: real, at: real) {
    exists k: int :: at == Point(offset, interval, k)
  }

  lemma GridShift(offset: real, interval: real, base: real, k: int)
    ensures OnGrid(offset, interval, Point(base, interval, k)) <==> OnGrid(offset, interval, base)
  {
    if j: int :| base == Point(offset, interval, j) {
      PointSum(offset, interval, j, k);
    }
    if j: int :| Point(base, interval, k) == Point(offset, interval, j) {
      PointSum(base, interval, k, -k);
      PointSum(offset, interval, j, -k);
    }
  }

  /** A periodic is always due after the present, and by at most one interval. */
  lemma DueSoon(offset: real, interval: real, now: real)
    requires interval > 0.0
    ensures now < Due(offset, interval, now) <= now + interval
  {
    var start := Below(offset, Max(interval, MIN_INTERVAL), now);
    LastBounds(start, interval, now);
    PointSum(start, interval, Last(start, interval, now), 1);
  }

  /** What a periodic is meant for: the least point of its grid after the present. */
  ghost predicate NextOnGrid(offset: real, interval: real, now: real, at: real) {
    && OnGrid(offset, interval, at) && at > now
    && forall k: int :: Point(offset, interval, k) > now ==> at <= Point(offset, interval, k)
  }

  /** A grid point at most one interval after the present is the least one. */
  lemma SoonIsLeast(offset: real, interval: real, now: real, at: real)
    requires interval > 0.0 && OnGrid(offset, interval, at) && now < at <= now + interval
    ensures NextOnGrid(offset, interval, now, at)
  {
    var j: int :| at == Point(offset, interval, j);
    PointSum(offset, interval, j, -1);
    forall k: int | Point(offset, interval, k) > now ensures at <= Point(offset, interval, k) {
      PointOrder(offset, interval, j - 1, k);
      PointOrder(offset, interval, k, j);
    }
  }

  /** With any interval, `periodic_recalc` finds the next grid point exactly when its coarse start is on the grid. */
  lemma DueExact(offset: real, interval: real, now: real)
    requires interval > 0.0
    ensures NextOnGrid(offset, interval, now, Due(offset, interval, now)) <==>
            OnGrid(offset, interval, Below(offset, Max(interval, MIN_INTERVAL), now))
  {
    var start := Below(offset, Max(interval, MIN_INTERVAL), now);
    GridShift(offset, interval, start, Last(start, interval, now) + 1);
    DueSoon(offset, interval, now);
    if OnGrid(offset, interval, start) {
      SoonIsLeast(offset, interval, now, Due(offset, interval, now));
    }
  }

  /** With an interval of at least 1/8192 it always does. */
  lemma DueIsLeast(offset: real, interval: real, now: real)
    requires interval >= MIN_INTERVAL
    ensures NextOnGrid(offset, interval, now, Due(offset, interval, now))
  {
    DueExact(offset, interval, now);
  }

  /**
   What the caller can check when setting the interval: at every time the next grid point is found
   if and only if the interval is at least 1/8192 or divides it.
   */
  lemma GridKeptExactly(offset: real, interval: real)
    requires interval > 0.0
    ensures (forall now :: NextOnGrid(offset, interval, now, Due(offset, interval, now))) <==>
            interval >= MIN_INTERVAL || OnGrid(0.0, interval, MIN_INTERVAL)
  {
    if interval >= MIN_INTERVAL {
      forall now ensures NextOnGrid(offset, interval, now, Due(offset, interval, now)) {
        DueIsLeast(offset, interval, now);
      }
    } else if m: int :| MIN_INTERVAL == Point(0.0, interval, m) {
      forall now ensures NextOnGrid(offset, interval, now, Due(offset, interval, now)) {
        var n := Last(offset, MIN_INTERVAL, now);
        FinerGrid(offset, interval, m, n);
        DueExact(offset, interval, now);
      }
    } else {
      var now := offset + MIN_INTERVAL;
      assert (now - offset) / MIN_INTERVAL == 1.0;
      assert Below(offset, MIN_INTERVAL, now) == now;
      DueExact(offset, interval, now);
      forall k: int ensures now != Point(offset, interval, k) {
        assert MIN_INTERVAL != Point(0.0, interval, k);
      }
    }
  }

  /** A grid `m` times as fine contains the coarser one. */
  lemma FinerGrid(offset: real, interval: real, m: int, n: int)
    ensures Point(offset, Point(0.0, interval, m), n) == Point(offset, interval, n * m)
  {
    assert (n * m) as real == n as real * m as real;
  }

  /** An interval under 1/8192 can leave the grid: one of 1/10000, seen 1/8192 after its offset. */
  lemma TinyIntervalOffGrid()
    ensures !OnGrid(0.0, 0.0001, Due(0.0, 0.0001, MIN_INTERVAL))
  {
    assert MIN_INTERVAL / MIN_INTERVAL == 1.0;
    assert Below(0.0, MIN_INTERVAL, MIN_INTERVAL) == MIN_INTERVAL;
    GridShift(0.0, 0.0001, MIN_INTERVAL, Last(MIN_INTERVAL, 0.0001, MIN_INTERVAL) + 1);
    forall k: int ensures MIN_INTERVAL != Point(0.0, 0.0001, k) {
      assert MIN_INTERVAL == Point(0.0, 0.0001, k) ==> k as real == 1.220703125;
    }
  }

  lemma CoarseStart(offset: real, step: real, now: real, f: real)
    requires step > 0.0 && f == ((now - offset) / step).Floor as real
    ensures offset + step * f == Below(offset, step, now) <= now
  {
    LastNotAfter(offset, step, now);
  }

  /** `periodic_recalc`. The source's guard against `nat == at` cannot fire on exact reals. */
  method PeriodicRecalc(offset: real, interval: real, now: real, wide: bool) returns (at: real)
    requires interval > 0.0
    ensures at == Due(offset, interval, now)
  {
    var step := if interval > MIN_INTERVAL then interval else MIN_INTERVAL;
    var f := EvFloor((now - offset) / step, wide);
    CoarseStart(offset, step, now, f);
    at := StepPast(offset + step * f, interval, now);
  }

  /** The loop of `periodic_recalc`. */
  method StepPast(start: real, interval: real, now: real) returns (at: real)
    requires interval > 0.0 && start <= now
    ensures at == Point(start, interval, Last(start, interval, now) + 1)
  {
    at := start;
    ghost var n, last := 0, Last(start, interval, now);
    LastBounds(start, interval, now);
    StartsNoLater(start, interval, now);
    while at <= now
      invariant 0 <= n <= last + 1 && at == Point(start, interval, n)
      decreases last + 1 - n
    {
      PointOrder(start, interval, n, last + 1);
      PointSum(start, interval, n, 1);
      at := at + interval;
      n := n + 1;
    }
    PointOrder(start, interval, last, n);
  }

  lemma StartsNoLater(start: real, interval: real, now: real)
    requires interval > 0.0 && start <= now
    ensures Last(start, interval, now) >= 0
  {
  }
}

/** The loop's periodic timers. */
module Periodics {
  import opened Periods
  import opened TimerHeap
  import Timers

  /** How a periodic reschedules itself; `cb` is `reschedule_cb`. */
  datatype Kind = Once | Every(offset: real, interval: real) | Callback(cb: real -> real)

  /** The deadline after a time jump to `now`. */
  function NewAt(kind: Kind, at: real, now: real): real
    requires kind.Every? ==> kind.interval > 0.0
  {
    match kind
    case Once => at
    case Every(offset, interval) => Due(offset, interval, now)
    case Callback(cb) => cb(now)
  }

  /**
   A fixed time stays, a callback is asked about the present, and an interval timer gets a time after
   the present by at most its interval: the next point of its own grid, if its interval is one that
   keeps to the grid.
   */
  ghost predicate Renewal(kind: Kind, at: real, now: real, due: real) {
    match kind
    case Once => due == at
    case Every(offset, interval) =>
      && now < due <= now + interval
      && (interval >= MIN_INTERVAL || OnGrid(0.0, interval, MIN_INTERVAL) ==> NextOnGrid(offset, interval, now, due))
    case Callback(cb) => due == cb(now)
  }

  lemma NewAtRenews(kind: Kind, at: real, now: real)
    requires kind.Every? ==> kind.interval > 0.0
    ensures Renewal(kind, at, now, NewAt(kind, at, now))
  {
    match kind
    case Every(offset, interval) =>
      DueSoon(offset, interval, now);
      GridKeptExactly(offset, interval);
    case _ =>
  }

  class PeriodicLoop {
    const periodics: Heap4
    const wide: bool
    var periodiccnt: nat
    var at: map<W, real>
    var kinds: map<W, Kind>
    var rtnow: real

    constructor (start: real, wide: bool)
      ensures Valid() && Active() == map[] && rtnow == start && fresh(periodics)
    {
      periodics := new Heap4();
      this.wide := wide;
      periodiccnt, at, kinds, rtnow := 0, map[], map[], start;
    }

    ghost predicate Valid()
      reads this, periodics
    {
      && Timers.Settled(periodics.heap, periodiccnt, periodics.active, at)
      && (forall w :: w in kinds && kinds[w].Every? ==> kinds[w].interval > 0.0)
      && (forall w :: w in Members(periodics.heap, periodiccnt) ==> w in kinds)
    }

    ghost function Active(): map<W, real>
      requires Valid()
      reads this, periodics
    {
      Timers.View(periodics.heap, periodiccnt, at)
    }

    /** One turn of the loop of `periodics_reschedule`. */
    method Recalculate(w: W) returns (due: real)
      requires w in at && w in kinds && (kinds[w].Every? ==> kinds[w].interval > 0.0)
      ensures due == NewAt(kinds[w], at[w], rtnow)
    {
      match kinds[w]
      case Once => due := at[w];
      case Every(offset, interval) => due := PeriodicRecalc(offset, interval, rtnow, wide);
      case Callback(cb) => due := cb(rtnow);
    }

    /** `periodics_reschedule`: every deadline is computed anew, in place, and the heap rebuilt. */
    method Reschedule()
      requires Valid()
      modifies this`at, periodics
      ensures Valid() && Active().Keys == old(Active()).Keys
      ensures forall w :: w in Active() ==> Renewal(kinds[w], old(Active())[w], rtnow, Active()[w])
      ensures forall w :: w in Active() ==> Active()[w] == NewAt(kinds[w], old(Active())[w], rtnow)
    {
      ghost var h, n := periodics.heap, periodiccnt;
      Timers.OwnedMember(h, n, periodics.active);
      RecalculateAll();
      ghost var h1, a1 := periodics.heap, periodics.active;
      periodics.Reheap(periodiccnt);
      Timers.Resettled(h1, a1, periodics.heap, periodics.active, n, at);
      forall w | w in Active() ensures Renewal(kinds[w], old(Active())[w], rtnow, Active()[w]) {
        NewAtRenews(kinds[w], old(Active())[w], rtnow);
      }
    }

    /** The loop of `periodics_reschedule`: watchers stay in their slots. */
    method RecalculateAll()
      requires Valid()
      modifies this`at, periodics
      ensures |periodics.heap| == |old(periodics.heap)| && periodics.active == old(periodics.active)
      ensures Distinct(periodics.heap, periodiccnt) && Timers.Cached(periodics.heap, periodiccnt, at)
      ensures Members(periodics.heap, periodiccnt) == Members(old(periodics.heap), periodiccnt)
      ensures forall w :: w in Members(periodics.heap, periodiccnt) ==> Renewed(w, old(at))
    {
      ghost var h, n, at0 := periodics.heap, periodiccnt, at;
      for i := HEAP0 to periodiccnt + HEAP0
        invariant |periodics.heap| == |h| && periodics.active == old(periodics.active)
        invariant forall j :: 0 <= j < |h| ==> periodics.heap[j].w == h[j].w
        invariant forall j :: HEAP0 <= j < i ==> Renewed(h[j].w, at0) && periodics.heap[j].at == at[h[j].w]
        invariant forall j :: i <= j < n + HEAP0 ==> h[j].w in at && at[h[j].w] == at0[h[j].w]
      {
        var w := periodics.heap[i].w;
        assert w in Members(h, n);
        var due := Recalculate(w);
        at := at[w := due];
        periodics.heap := periodics.heap[i := Anhe(w, at[w])];
      }
      assert Members(periodics.heap, n) == Members(h, n);
    }

    ghost predicate Renewed(w: W, at0: map<W, real>)
      reads this
    {
      && w in at && w in at0 && w in kinds && (kinds[w].Every? ==> kinds[w].interval > 0.0)
      && at[w] == NewAt(kinds[w], at0[w], rtnow)
    }
  }
}
