/**
 libev's relative timers: `ev_timer_start`, `ev_timer_stop`, `ev_timer_again` and
 `timers_reify` over the 4-heap and the pending queues.
 */
module TimerSpec {
  import opened Common
  import opened PendingSpec
  import opened PendingLaws
  import Pending

  /** EV_TIMER. */
  const TIMER: nat := 8

  type Deadlines = map<W, real>

  function Repeat(repeat: map<W, real>, w: W): real {
    if w in repeat then repeat[w] else 0.0
  }

  /** Where a fired repeating timer goes: one period on, but not into the past. */
  function Rescheduled(at: real, period: real, now: real): real {
    if at + period < now then now else at + period
  }

  /** The deadlines left when the timers in `fired` have been dealt with. */
  function Reified(d: Deadlines, repeat: map<W, real>, now: real, fired: set<W>): Deadlines {
    map w | w in d && (w in fired ==> Repeat(repeat, w) != 0.0) ::
      if w in fired then Rescheduled(d[w], Repeat(repeat, w), now) else d[w]
  }

  /** Exactly the due timers, each once, by non-decreasing deadline. */
  ghost predicate DueInOrder(d: Deadlines, now: real, fired: seq<W>) {
    && NoDuplicates(fired)
    && (forall w :: w in fired <==> w in d && d[w] < now)
    && InDeadlineOrder(fired, d)
  }

  /** Stopping a one-shot timer clears it first. */
  function Clears(fired: seq<W>, repeat: map<W, real>): seq<Op> {
    if fired == [] then [] else
    var n := |fired| - 1;
    Clears(fired[..n], repeat) + (if Repeat(repeat, fired[n]) == 0.0 then [Clear(fired[n])] else [])
  }

  /** `feed_reverse_done`: last fired, first fed. */
  function Feeds(fired: seq<W>): seq<Op> {
    if fired == [] then [] else [Feed(fired[|fired| - 1], {TIMER})] + Feeds(fired[..|fired| - 1])
  }

  lemma {:induction false} ApplyConcat(st: seq<Stack>, prio: W -> nat, a: seq<Op>, b: seq<Op>)
    requires forall w :: prio(w) < |st|
    ensures ApplyOps(st, prio, a + b) == ApplyOps(ApplyOps(st, prio, a), prio, b)
    decreases |b|
  {
    if b == [] {
      assert a + b == a;
    } else {
      var n := |b| - 1;
      assert (a + b)[..|a + b| - 1] == a + b[..n];
      ApplyConcat(st, prio, a, b[..n]);
    }
  }

  // ---------- Starting and stopping ----------

  datatype Call = Start(w: W) | Stop(w: W) | Again(w: W)

  /** `ev_at`: a deadline for an active timer, a time to run for any other. */
  function Left(at: map<W, real>, w: W): real {
    if w in at then at[w] else 0.0
  }

  function Started(d: Deadlines, at: map<W, real>, now: real, w: W): (Deadlines, map<W, real>) {
    if w in d then (d, at) else (d[w := Left(at, w) + now], at[w := Left(at, w) + now])
  }

  function Stopped(d: Deadlines, at: map<W, real>, now: real, w: W): (Deadlines, map<W, real>) {
    if w in d then (d - {w}, at[w := Left(at, w) - now]) else (d, at)
  }

  function Restarted(d: Deadlines, at: map<W, real>, period: real, now: real, w: W): (Deadlines, map<W, real>) {
    if period == 0.0 then Stopped(d, at, now, w) else (d[w := now + period], at[w := now + period])
  }

  function AfterCall(d: Deadlines, at: map<W, real>, repeat: map<W, real>, now: real, c: Call): (Deadlines, map<W, real>) {
    match c
    case Start(w) => Started(d, at, now, w)
    case Stop(w) => Stopped(d, at, now, w)
    case Again(w) => Restarted(d, at, Repeat(repeat, w), now, w)
  }

  function AfterCalls(d: Deadlines, at: map<W, real>, repeat: map<W, real>, now: real, calls: seq<Call>): (Deadlines, map<W, real>)
    decreases |calls|
  {
    if calls == [] then (d, at)
    else
      var next := AfterCall(d, at, repeat, now, calls[0]);
      AfterCalls(next.0, next.1, repeat, now, calls[1..])
  }

  /** Stopping and `ev_timer_again` clear the watcher's pending event; starting does not. */
  function CallOps(calls: seq<Call>): seq<Op> {
    if calls == [] then [] else (if calls[0].Start? then [] else [Clear(calls[0].w)]) + CallOps(calls[1..])
  }

  lemma CallOpsUnfold(st: seq<Stack>, prio: W -> nat, calls: seq<Call>)
    requires (forall w :: prio(w) < |st|) && calls != []
    ensures ApplyOps(st, prio, CallOps(calls))
         == ApplyOps(if calls[0].Start? then st else ApplyOp(st, prio, Clear(calls[0].w)), prio, CallOps(calls[1..]))
  {
    var c := calls[0];
    var head := if c.Start? then [] else [Clear(c.w)];
    ApplyConcat(st, prio, head, CallOps(calls[1..]));
    if !c.Start? {
      OneOp(st, prio, Clear(c.w));
    }
  }

  /** A timer started is due its time to run from now; no other timer is touched. */
  lemma StartedFromNow(d: Deadlines, at: map<W, real>, now: real, w: W)
    requires w !in d
    ensures var s := Started(d, at, now, w).0;
            w in s && s[w] - now == (if w in at then at[w] else 0.0) && s - {w} == d
  {
  }

  /** After `ev_timer_again` a repeating timer is due one period from now, whatever it was before. */
  lemma AgainFromNow(d: Deadlines, at: map<W, real>, period: real, now: real, w: W)
    requires period != 0.0
    ensures var (s, left) := Restarted(d, at, period, now, w);
            w in s && w in left && s[w] == left[w] == now + period && s - {w} == d - {w}
  {
  }

  /** Without a period it is off. */
  lemma AgainStops(d: Deadlines, at: map<W, real>, now: real, w: W)
    ensures Restarted(d, at, 0.0, now, w).0 == d - {w}
  {
  }

  /** Stopping remembers the time to run: starting again at once restores every deadline, and the other way round. */
  lemma StopStartUndo(d: Deadlines, at: map<W, real>, now: real, w: W)
    requires forall v :: v in d ==> v in at && at[v] == d[v]
    ensures w in d ==> var s := Stopped(d, at, now, w); Started(s.0, s.1, now, w) == (d, at)
    ensures w !in d && w in at ==> var s := Started(d, at, now, w); Stopped(s.0, s.1, now, w) == (d, at)
  {
    if w in d {
      assert (d - {w})[w := at[w]] == d && at[w := at[w] - now][w := at[w]] == at;
    } else if w in at {
      assert d[w := at[w] + now] - {w} == d && at[w := at[w] + now][w := at[w]] == at;
    }
  }

  /** A pause shifts the deadline by its length and by nothing else. */
  lemma PauseShifts(d: Deadlines, at: map<W, real>, stop: real, start: real, w: W)
    requires w in d && w in at && at[w] == d[w]
    ensures var s := Stopped(d, at, stop, w); Started(s.0, s.1, start, w).0 == d[w := d[w] + (start - stop)]
  {
  }

  // ---------- Repeating timers over many passes ----------

  /** A repeating timer served in time keeps its phase; one served late is due at once. */
  lemma PhaseKept(at: real, period: real, now: real)
    requires period > 0.0 && at < now
    ensures at + period >= now ==> Rescheduled(at, period, now) == at + period
    ensures at + period < now ==> Rescheduled(at, period, now) == now
  {
  }

  /** One call of `timers_reify`: its time and the timers it fired. */
  datatype Pass = Pass(now: real, fired: set<W>)

  function AfterPasses(d: Deadlines, repeat: map<W, real>, passes: seq<Pass>): Deadlines
    decreases |passes|
  {
    if passes == [] then d else AfterPasses(Reified(d, repeat, passes[0].now, passes[0].fired), repeat, passes[1..])
  }

  /** Each pass fires exactly the timers due at its time. */
  ghost predicate Passing(d: Deadlines, repeat: map<W, real>, passes: seq<Pass>)
    decreases |passes|
  {
    passes == [] ||
    var p := passes[0];
    && (forall w :: w in p.fired <==> w in d && d[w] < p.now)
    && Passing(Reified(d, repeat, p.now, p.fired), repeat, passes[1..])
  }

  function Served(passes: seq<Pass>, w: W): nat {
    if passes == [] then 0 else (if w in passes[0].fired then 1 else 0) + Served(passes[1..], w)
  }

  /** The length of `n` periods. */
  function Elapsed(n: nat, period: real): real {
    if n == 0 then 0.0 else period + Elapsed(n - 1, period)
  }

  lemma {:induction false} ElapsedIs(n: nat, period: real)
    ensures Elapsed(n, period) == n as real * period
  {
    if n > 0 {
      ElapsedIs(n - 1, period);
      assert n as real * period == (n - 1) as real * period + period;
    }
  }

  /** No pass comes later than one period after the timer's deadline. */
  predicate InTime(d: Deadlines, repeat: map<W, real>, passes: seq<Pass>, w: W)
    decreases |passes|
  {
    passes == [] ||
    var p := passes[0];
    && (w in d ==> p.now <= d[w] + Repeat(repeat, w))
    && InTime(Reified(d, repeat, p.now, p.fired), repeat, passes[1..], w)
  }

  /** No drift: a repeating timer always served in time stands at its first deadline plus a period for each firing. */
  lemma {:induction false} NoDrift(d: Deadlines, repeat: map<W, real>, passes: seq<Pass>, w: W)
    requires w in d && Repeat(repeat, w) > 0.0 && Passing(d, repeat, passes) && InTime(d, repeat, passes, w)
    ensures w in AfterPasses(d, repeat, passes)
    ensures AfterPasses(d, repeat, passes)[w] == d[w] + Elapsed(Served(passes, w), Repeat(repeat, w))
    decreases |passes|
  {
    if passes != [] {
      var p := passes[0];
      NoDrift(Reified(d, repeat, p.now, p.fired), repeat, passes[1..], w);
      if w in p.fired {
        PhaseKept(d[w], Repeat(repeat, w), p.now);
      }
    }
  }

  /** However late the passes come, a repeating timer stays on, never falls behind, and never runs ahead of its phase. */
  lemma {:induction false} KeepsRunning(d: Deadlines, repeat: map<W, real>, passes: seq<Pass>, w: W)
    requires w in d && Repeat(repeat, w) > 0.0 && Passing(d, repeat, passes)
    ensures w in AfterPasses(d, repeat, passes)
    ensures AfterPasses(d, repeat, passes)[w] >= d[w] + Elapsed(Served(passes, w), Repeat(repeat, w))
    ensures passes != [] ==> AfterPasses(d, repeat, passes)[w] >= passes[|passes| - 1].now
    decreases |passes|
  {
    if passes != [] {
      var p := passes[0];
      KeepsRunning(Reified(d, repeat, p.now, p.fired), repeat, passes[1..], w);
      if w in p.fired {
        PhaseKept(d[w], Repeat(repeat, w), p.now);
      }
    }
  }

  /** A timer without a period fires at most once, and is on until it has. */
  lemma {:induction false} OneShotOnce(d: Deadlines, repeat: map<W, real>, passes: seq<Pass>, w: W)
    requires Repeat(repeat, w) == 0.0 && Passing(d, repeat, passes)
    ensures Served(passes, w) <= if w in d then 1 else 0
    ensures w in AfterPasses(d, repeat, passes) <==> w in d && Served(passes, w) == 0
    ensures w in AfterPasses(d, repeat, passes) ==> AfterPasses(d, repeat, passes)[w] == d[w]
    decreases |passes|
  {
    if passes != [] {
      OneShotOnce(Reified(d, repeat, passes[0].now, passes[0].fired), repeat, passes[1..], w);
    }
  }

  // ---------- The firing loop ----------

  /** What the loop of `timers_reify` keeps: `f` are the timers fired so far, `act` the deadlines now. */
  ghost predicate Firing(d: Deadlines, repeat: map<W, real>, now: real, f: seq<W>, act: Deadlines) {
    && NoDuplicates(f) && InDeadlineOrder(f, d)
    && (forall w :: w in f ==> w in d && d[w] < now)
    && (forall w, v :: w in f && v in d && v !in f ==> d[w] <= d[v])
    && act == Reified(d, repeat, now, set w | w in f)
  }

  function Unfired(d: Deadlines, f: seq<W>): set<W> {
    set w | w in d && w !in f
  }

  lemma FireStep(d: Deadlines, repeat: map<W, real>, now: real, f: seq<W>, act: Deadlines, w: W)
    requires Firing(d, repeat, now, f, act)
    requires w in act && act[w] < now && forall v :: v in act ==> act[w] <= act[v]
    ensures w !in f && w in d
    ensures var act' := if Repeat(repeat, w) != 0.0 then act[w := Rescheduled(act[w], Repeat(repeat, w), now)] else act - {w};
            Firing(d, repeat, now, f + [w], act')
  {
    assert w !in f;
    var g := f + [w];
    forall v | v in d && v !in f ensures d[w] <= d[v] {
      assert act[v] == d[v];
    }
    assert NoDuplicates(g) && InDeadlineOrder(g, d);
    ReifiedStep(d, repeat, now, f, w);
  }

  lemma ReifiedStep(d: Deadlines, repeat: map<W, real>, now: real, f: seq<W>, w: W)
    requires w in d && w !in f
    ensures var act := Reified(d, repeat, now, set v | v in f);
            w in act && Reified(d, repeat, now, set v | v in f + [w])
              == if Repeat(repeat, w) != 0.0 then act[w := Rescheduled(act[w], Repeat(repeat, w), now)] else act - {w}
  {
  }

  lemma FiringDone(d: Deadlines, repeat: map<W, real>, now: real, f: seq<W>, act: Deadlines)
    requires Firing(d, repeat, now, f, act) && forall v :: v in act ==> now <= act[v]
    ensures DueInOrder(d, now, f)
  {
    assert forall w :: w in d && w !in f ==> w in act && act[w] == d[w];
  }

  lemma FiringReal(d: Deadlines, repeat: map<W, real>, now: real, f: seq<W>, act: Deadlines)
    requires Firing(d, repeat, now, f, act) && DUMMY !in d
    ensures DUMMY !in f
  {
  }

  lemma ClearsStep(st: seq<Stack>, prio: W -> nat, f: seq<W>, repeat: map<W, real>, w: W)
    requires forall v :: prio(v) < |st|
    ensures var r := ApplyOps(st, prio, Clears(f, repeat));
            ApplyOps(st, prio, Clears(f + [w], repeat)) == if Repeat(repeat, w) != 0.0 then r else ApplyOp(r, prio, Clear(w))
  {
    assert (f + [w])[..|f|] == f;
    ApplyConcat(st, prio, Clears(f, repeat), if Repeat(repeat, w) == 0.0 then [Clear(w)] else []);
    OneOp(ApplyOps(st, prio, Clears(f, repeat)), prio, Clear(w));
  }

  // ---------- The order timers fire in ----------

  function Timed(ws: seq<W>): seq<Slot> {
    seq(|ws|, i requires 0 <= i < |ws| => Slot(ws[i], {TIMER}))
  }

  function OfPriority(ws: seq<W>, prio: W -> nat, p: nat): seq<W> {
    if ws == [] then [] else (if prio(ws[0]) == p then [ws[0]] else []) + OfPriority(ws[1..], prio, p)
  }

  function LogOf(log: seq<Slot>, prio: W -> nat, p: nat): seq<Slot> {
    if log == [] then [] else (if prio(log[0].w) == p then [log[0]] else []) + LogOf(log[1..], prio, p)
  }

  predicate Placed(st: seq<Stack>, prio: W -> nat) {
    forall p, k :: 0 <= p < |st| && 0 <= k < |st[p]| ==> prio(st[p][k].w) == p
  }

  lemma {:induction false} LogOfConcat(a: seq<Slot>, b: seq<Slot>, prio: W -> nat, p: nat)
    ensures LogOf(a + b, prio, p) == LogOf(a, prio, p) + LogOf(b, prio, p)
  {
    if a == [] {
      assert a + b == b;
    } else {
      assert (a + b)[1..] == a[1..] + b;
      LogOfConcat(a[1..], b, prio, p);
      var h := if prio(a[0].w) == p then [a[0]] else [];
      var x, y := LogOf(a[1..], prio, p), LogOf(b, prio, p);
      assert h + (x + y) == (h + x) + y;
    }
  }

  lemma {:induction false} OfPriorityLast(ws: seq<W>, prio: W -> nat, p: nat)
    requires ws != []
    ensures var n := |ws| - 1;
            OfPriority(ws, prio, p) == OfPriority(ws[..n], prio, p) + if prio(ws[n]) == p then [ws[n]] else []
  {
    if |ws| > 1 {
      var n := |ws| - 1;
      assert ws[1..][..n - 1] == ws[..n][1..];
      OfPriorityLast(ws[1..], prio, p);
      var h := if prio(ws[0]) == p then [ws[0]] else [];
      var t := if prio(ws[n]) == p then [ws[n]] else [];
      assert h + (OfPriority(ws[1..][..n - 1], prio, p) + t) == (h + OfPriority(ws[1..][..n - 1], prio, p)) + t;
    }
  }

  lemma {:induction false} LogOfReverse(s: Stack, prio: W -> nat, p: nat, q: nat)
    requires forall k :: 0 <= k < |s| ==> prio(s[k].w) == q
    ensures LogOf(Reverse(s), prio, p) == if p == q then Reverse(s) else []
  {
    if s != [] {
      LogOfReverse(s[..|s| - 1], prio, p, q);
      LogOfConcat([s[|s| - 1]], Reverse(s[..|s| - 1]), prio, p);
    }
  }

  lemma {:induction false} LogOfDrained(st: seq<Stack>, prio: W -> nat, p: nat)
    requires Placed(st, prio)
    ensures LogOf(Drained(st), prio, p) == if p < |st| then Reverse(st[p]) else []
  {
    if st != [] {
      var n := |st| - 1;
      LogOfDrained(st[..n], prio, p);
      LogOfReverse(st[n], prio, p, n);
      LogOfConcat(Reverse(st[n]), Drained(st[..n]), prio, p);
    }
  }

  lemma {:induction false} ReverseConcat(a: Stack, b: Stack)
    ensures Reverse(a + b) == Reverse(b) + Reverse(a)
  {
    if b == [] {
      assert a + b == a;
    } else {
      var n := |b| - 1;
      assert (a + b)[..|a + b| - 1] == a + b[..n];
      ReverseConcat(a, b[..n]);
    }
  }

  lemma {:induction false} ReverseTwice(s: Stack)
    ensures Reverse(Reverse(s)) == s
  {
    if s != [] {
      var n := |s| - 1;
      ReverseConcat([s[n]], Reverse(s[..n]));
      ReverseTwice(s[..n]);
      assert Reverse([s[n]]) == [s[n]] + Reverse([s[n]][..0]);
      assert s[..n] + [s[n]] == s;
    }
  }

  lemma {:induction false} ClearsNothing(st: seq<Stack>, prio: W -> nat, fired: seq<W>, repeat: map<W, real>)
    requires forall w :: prio(w) < |st|
    requires forall w :: w in fired ==> Nowhere(st, w)
    ensures ApplyOps(st, prio, Clears(fired, repeat)) == st
  {
    if fired != [] {
      var n := |fired| - 1;
      ClearsNothing(st, prio, fired[..n], repeat);
      if Repeat(repeat, fired[n]) == 0.0 {
        assert fired[n] in fired;
        ApplyConcat(st, prio, Clears(fired[..n], repeat), [Clear(fired[n])]);
        OneOp(st, prio, Clear(fired[n]));
        Pending.FeedStackAbsent(st[prio(fired[n])], fired[n], {});
        assert st[prio(fired[n]) := st[prio(fired[n])]] == st;
      } else {
        assert Clears(fired, repeat) == Clears(fired[..n], repeat);
      }
    }
  }

  lemma OneOp(st: seq<Stack>, prio: W -> nat, op: Op)
    requires forall w :: prio(w) < |st|
    ensures ApplyOps(st, prio, [op]) == ApplyOp(st, prio, op)
  {
  }

  lemma FeedAbsent(st: seq<Stack>, prio: W -> nat, w: W)
    requires (forall v :: prio(v) < |st|) && Nowhere(st, w)
    ensures ApplyOps(st, prio, [Feed(w, {TIMER})]) == st[prio(w) := st[prio(w)] + [Slot(w, {TIMER})]]
    ensures forall v :: v != w && Nowhere(st, v) ==> Nowhere(st[prio(w) := st[prio(w)] + [Slot(w, {TIMER})]], v)
  {
    OneOp(st, prio, Feed(w, {TIMER}));
    Pending.FeedStackAbsent(st[prio(w)], w, {TIMER});
    forall v | v != w && Nowhere(st, v) ensures Nowhere(st[prio(w) := st[prio(w)] + [Slot(w, {TIMER})]], v) {
      InConcat(st[prio(w)], [Slot(w, {TIMER})], v);
    }
  }

  lemma TimedLast(s: Stack, ws: seq<W>, w: W)
    ensures s + [Slot(w, {TIMER})] + Reverse(Timed(ws)) == s + Reverse(Timed(ws + [w]))
  {
    var x := Slot(w, {TIMER});
    assert Timed(ws + [w]) == Timed(ws) + [x];
    assert (Timed(ws) + [x])[..|ws|] == Timed(ws);
    assert s + [x] + Reverse(Timed(ws)) == s + ([x] + Reverse(Timed(ws)));
  }

  /** Feeding timers that are not pending stacks them up, last fired lowest. */
  lemma {:induction false} FeedsStack(st: seq<Stack>, prio: W -> nat, fired: seq<W>, p: nat)
    requires (forall w :: prio(w) < |st|) && p < |st|
    requires NoDuplicates(fired) && forall w :: w in fired ==> Nowhere(st, w)
    ensures ApplyOps(st, prio, Feeds(fired))[p] == st[p] + Reverse(Timed(OfPriority(fired, prio, p)))
    decreases |fired|
  {
    if fired == [] {
      assert Timed([]) == [];
    } else {
      var n := |fired| - 1;
      var w, rest := fired[n], fired[..n];
      var st1 := st[prio(w) := st[prio(w)] + [Slot(w, {TIMER})]];
      assert w in fired;
      FeedAbsent(st, prio, w);
      assert forall v :: v in rest ==> v in fired && v != w;
      FeedsStack(st1, prio, rest, p);
      ApplyConcat(st, prio, [Feed(w, {TIMER})], Feeds(rest));
      OfPriorityLast(fired, prio, p);
      var ws := OfPriority(rest, prio, p);
      if prio(w) == p {
        TimedLast(st[p], ws, w);
      } else {
        assert ws + [] == ws;
      }
    }
  }

  /**
   With passive callbacks and none of the due timers pending beforehand, the invocations at each
   priority are the fired timers in firing order, then whatever was pending before.
   */
  lemma FiringOrder(st: seq<Stack>, prio: W -> nat, fired: seq<W>, repeat: map<W, real>, p: nat)
    requires (forall w :: prio(w) < |st|) && p < |st| && Placed(st, prio)
    requires NoDuplicates(fired) && forall w :: w in fired ==> Nowhere(st, w)
    ensures var st1 := ApplyOps(st, prio, Clears(fired, repeat) + Feeds(fired));
            LogOf(InvokeAll(st1, prio, []).1, prio, p) == Timed(OfPriority(fired, prio, p)) + Reverse(st[p])
  {
    var st1 := ApplyOps(st, prio, Clears(fired, repeat) + Feeds(fired));
    ApplyConcat(st, prio, Clears(fired, repeat), Feeds(fired));
    ClearsNothing(st, prio, fired, repeat);
    forall q | 0 <= q < |st1| ensures st1[q] == st[q] + Reverse(Timed(OfPriority(fired, prio, q))) {
      FeedsStack(st, prio, fired, q);
    }
    forall q, k | 0 <= q < |st1| && 0 <= k < |st1[q]| ensures prio(st1[q][k].w) == q {
      var more := Timed(OfPriority(fired, prio, q));
      if k >= |st[q]| {
        ReverseMember(more, k - |st[q]|);
        OfPriorityMember(fired, prio, q);
      }
    }
    PassiveOrder(st1, prio);
    LogOfDrained(st1, prio, p);
    ReverseConcat(st[p], Reverse(Timed(OfPriority(fired, prio, p))));
    ReverseTwice(Timed(OfPriority(fired, prio, p)));
  }

  lemma {:induction false} ReverseMember(s: Stack, k: nat)
    requires k < |Reverse(s)|
    ensures exists i :: 0 <= i < |s| && s[i] == Reverse(s)[k]
  {
    var n := |s| - 1;
    if k == 0 {
      assert s[n] == Reverse(s)[0];
    } else {
      ReverseMember(s[..n], k - 1);
      var i :| 0 <= i < n && s[..n][i] == Reverse(s[..n])[k - 1];
      assert s[i] == Reverse(s)[k];
    }
  }

  lemma {:induction false} OfPriorityMember(ws: seq<W>, prio: W -> nat, p: nat)
    ensures forall i :: 0 <= i < |OfPriority(ws, prio, p)| ==> prio(OfPriority(ws, prio, p)[i]) == p
    ensures forall w :: w in OfPriority(ws, prio, p) ==> w in ws
  {
    if ws != [] {
      OfPriorityMember(ws[1..], prio, p);
    }
  }

  predicate InDeadlineOrder(ws: seq<W>, d: Deadlines) {
    forall i, j :: 0 <= i < j < |ws| && ws[i] in d && ws[j] in d ==> d[ws[i]] <= d[ws[j]]
  }

  /** Timers of equal priority are invoked by non-decreasing original deadline. */
  lemma {:induction false} EqualPriorityInDeadlineOrder(d: Deadlines, fired: seq<W>, prio: W -> nat, p: nat)
    requires InDeadlineOrder(fired, d)
    ensures InDeadlineOrder(OfPriority(fired, prio, p), d)
  {
    if fired != [] {
      var rest := OfPriority(fired[1..], prio, p);
      EqualPriorityInDeadlineOrder(d, fired[1..], prio, p);
      OfPriorityMember(fired[1..], prio, p);
      forall w | w in rest && fired[0] in d && w in d ensures d[fired[0]] <= d[w] {
        assert w in fired[1..];
      }
      if prio(fired[0]) == p {
        assert OfPriority(fired, prio, p) == [fired[0]] + rest;
        forall i, j | 0 <= i < j < |rest| + 1 && ([fired[0]] + rest)[i] in d && ([fired[0]] + rest)[j] in d
          ensures d[([fired[0]] + rest)[i]] <= d[([fired[0]] + rest)[j]]
        {
          assert rest[j - 1] in rest;
        }
      } else {
        assert OfPriority(fired, prio, p) == rest;
      }
    }
  }
}

/** The loop's timers, in place. */
module Timers {
  import opened TimerSpec
  import PendingLaws
  import opened TimerHeap
  import opened PendingSpec
  import Pending

  /** Everything `verify_heap` asserts, and that exactly the heap's watchers have a nonzero `active`. */
  ghost predicate Settled(h: seq<Anhe>, n: nat, active: map<W, int>, at: map<W, real>) {
    && n + HEAP0 <= |h|
    && Ordered(h, n) && Distinct(h, n) && Indexed(h, n, active) && Cached(h, n, at)
    && Owned(h, n, active)
  }

  predicate Cached(h: seq<Anhe>, n: nat, at: map<W, real>)
    requires n + HEAP0 <= |h|
  {
    forall j :: HEAP0 <= j < n + HEAP0 ==> h[j].w != DUMMY && h[j].w in at && h[j].at == at[h[j].w]
  }

  /** A nonzero `active` names the watcher's slot. */
  ghost predicate Owned(h: seq<Anhe>, n: nat, active: map<W, int>)
    requires n + HEAP0 <= |h|
  {
    forall w :: w in active && active[w] != 0 ==> InHeap(n, active[w]) && h[active[w]].w == w
  }

  lemma OwnedMember(h: seq<Anhe>, n: nat, a: map<W, int>)
    requires n + HEAP0 <= |h| && Indexed(h, n, a)
    ensures Owned(h, n, a) <==> forall w :: w in a && a[w] != 0 ==> w in Members(h, n)
  {
  }

  /** The abstract content of the heap: the deadline of every active timer. */
  function View(h: seq<Anhe>, n: nat, at: map<W, real>): Deadlines
    requires n + HEAP0 <= |h| && Cached(h, n, at)
  {
    map w | w in Members(h, n) :: at[w]
  }

  lemma PermutedCached(h: seq<Anhe>, h': seq<Anhe>, n: nat, at: map<W, real>)
    requires Permuted(h, h', n, n) && Cached(h, n, at)
    ensures Cached(h', n, at) && View(h', n, at) == View(h, n, at)
  {
    forall j | HEAP0 <= j < n + HEAP0
      ensures h'[j].w != DUMMY && h'[j].w in at && h'[j].at == at[h'[j].w]
    {
      assert h'[HEAP0..n + HEAP0][j - HEAP0] in Entries(h', n);
      assert h'[j] in multiset(h[HEAP0..n + HEAP0]);
      var i :| 0 <= i < n && h[HEAP0..n + HEAP0][i] == h'[j];
      assert h[i + HEAP0] == h'[j];
    }
  }

  /** After a heap operation on a heap that was settled but for its order. */
  lemma Resettled(h: seq<Anhe>, a: map<W, int>, h': seq<Anhe>, a': map<W, int>, n: nat, at: map<W, real>)
    requires n + HEAP0 <= |h| && Cached(h, n, at)
    requires forall w :: w in a && a[w] != 0 ==> w in Members(h, n)
    requires Permuted(h, h', n, n) && SameOutside(a, a', Members(h, n))
    requires Ordered(h', n) && Indexed(h', n, a')
    ensures Settled(h', n, a', at) && View(h', n, at) == View(h, n, at)
  {
    PermutedCached(h, h', n, at);
    OwnedMember(h', n, a');
  }

  lemma {:induction false} RootEarliest(h: seq<Anhe>, n: nat, j: int)
    requires n + HEAP0 <= |h| && Ordered(h, n) && InHeap(n, j)
    ensures h[HEAP0].at <= h[j].at
    decreases j
  {
    if j > HEAP0 {
      assert After(h, n, j);
      RootEarliest(h, n, Parent(j));
    }
  }

  /** Appending an inactive watcher. */
  lemma StartReady(h: seq<Anhe>, h1: seq<Anhe>, n: nat, a: map<W, int>, at: map<W, real>, w: W, due: real)
    requires Settled(h, n, a, at) && w != DUMMY && w !in Members(h, n)
    requires n + 1 + HEAP0 <= |h1| && h1[..n + HEAP0] == h[..n + HEAP0] && h1[n + HEAP0] == Anhe(w, due)
    ensures OrderedUp(h1, n + 1, n + HEAP0) && Distinct(h1, n + 1)
    ensures IndexedBut(h1, n + 1, a[w := n + HEAP0], n + HEAP0)
    ensures Cached(h1, n + 1, at[w := due]) && Members(h1, n + 1) == Members(h, n) + {w}
    ensures View(h1, n + 1, at[w := due]) == View(h, n, at)[w := due]
  {
    assert forall j :: 0 <= j < n + HEAP0 ==> h1[j] == h1[..n + HEAP0][j] == h[j];
    forall j | HEAP0 <= j < n + HEAP0 ensures h[j].w in Members(h, n) {}
    forall j ensures After(h1, n, j) {
      assert After(h, n, j);
    }
    ExtendHeap(h1, n);
    forall v | v in Members(h, n) ensures v in Members(h1, n + 1) {
      var j :| HEAP0 <= j < n + HEAP0 && h[j].w == v;
      assert h1[j].w == v;
    }
    assert h1[n + HEAP0].w == w;
  }

  /** The heap after the last entry moved into slot `k`, if that is another slot. */
  function Dropped(h: seq<Anhe>, n: nat, k: int): seq<Anhe>
    requires 0 < n && n + HEAP0 <= |h| && InHeap(n, k)
  {
    if k < n - 1 + HEAP0 then h[k := h[n - 1 + HEAP0]] else h
  }

  lemma DroppedMembers(h: seq<Anhe>, n: nat, k: int)
    requires 0 < n && n + HEAP0 <= |h| && InHeap(n, k) && Distinct(h, n)
    ensures Members(Dropped(h, n, k), n - 1) == Members(h, n) - {h[k].w}
  {
    var m, h1 := n - 1, Dropped(h, n, k);
    forall v | v in Members(h, n) && v != h[k].w ensures v in Members(h1, m) {
      var j :| HEAP0 <= j < n + HEAP0 && h[j].w == v;
      assert h1[if j == m + HEAP0 then k else j].w == v;
    }
    forall v | v in Members(h1, m) ensures v in Members(h, n) && v != h[k].w {
      var j :| HEAP0 <= j < m + HEAP0 && h1[j].w == v;
      assert h[if j == k then m + HEAP0 else j].w == v;
    }
  }

  lemma DroppedOrder(h: seq<Anhe>, n: nat, k: int)
    requires 0 < n && n + HEAP0 <= |h| && InHeap(n, k) && Ordered(h, n)
    ensures if InHeap(n - 1, k) then OrderedBut(Dropped(h, n, k), n - 1, k) else Ordered(Dropped(h, n, k), n - 1)
  {
    var m, h1 := n - 1, Dropped(h, n, k);
    if InHeap(m, k) {
      forall j | j != k && Parent(j) != k ensures After(h1, m, j) {
        assert After(h, n, j);
      }
      forall j | InHeap(m, j) && Parent(j) == k && j != k && k != HEAP0 ensures h1[Parent(k)].at <= h1[j].at {
        assert After(h, n, j) && After(h, n, k);
      }
    } else {
      forall j ensures After(h1, m, j) {
        assert After(h, n, j);
      }
    }
  }

  /** Ready for `adjustheap` at `k`, if `k` is still in use. */
  ghost predicate Droppable(h: seq<Anhe>, m: nat, k: int, a: map<W, int>)
    requires m + HEAP0 <= |h|
  {
    && Distinct(h, m)
    && (if InHeap(m, k) then OrderedBut(h, m, k) && IndexedBut(h, m, a, k) else Ordered(h, m) && Indexed(h, m, a))
  }

  lemma StopReady(h: seq<Anhe>, n: nat, a: map<W, int>, at: map<W, real>, k: int)
    requires Settled(h, n, a, at) && InHeap(n, k) && 0 < n
    ensures Droppable(Dropped(h, n, k), n - 1, k, a)
  {
    DroppedOrder(h, n, k);
  }

  lemma ChangeMembers(h: seq<Anhe>, n: nat, k: int, due: real)
    requires n + HEAP0 <= |h| && InHeap(n, k)
    ensures Members(h[k := Anhe(h[k].w, due)], n) == Members(h, n)
  {
    var h1 := h[k := Anhe(h[k].w, due)];
    forall v | v in Members(h, n) ensures v in Members(h1, n) {
      var j :| HEAP0 <= j < n + HEAP0 && h[j].w == v;
      assert h1[j].w == v;
    }
    forall v | v in Members(h1, n) ensures v in Members(h, n) {
      var j :| HEAP0 <= j < n + HEAP0 && h1[j].w == v;
      assert h[j].w == v;
    }
  }

  lemma ChangeOrder(h: seq<Anhe>, n: nat, k: int, due: real)
    requires n + HEAP0 <= |h| && Ordered(h, n) && InHeap(n, k)
    ensures OrderedBut(h[k := Anhe(h[k].w, due)], n, k)
  {
    var h1 := h[k := Anhe(h[k].w, due)];
    forall j | j != k && Parent(j) != k ensures After(h1, n, j) {
      assert After(h, n, j);
    }
    forall j | InHeap(n, j) && Parent(j) == k && j != k && k != HEAP0 ensures h1[Parent(k)].at <= h1[j].at {
      assert After(h, n, j) && After(h, n, k);
    }
  }

  /** Giving one entry a new deadline, in the heap and in the watcher. */
  lemma ChangeReady(h: seq<Anhe>, n: nat, a: map<W, int>, at: map<W, real>, k: int, due: real)
    requires Settled(h, n, a, at) && InHeap(n, k)
    ensures var h1 := h[k := Anhe(h[k].w, due)]; var at1 := at[h[k].w := due];
            && OrderedBut(h1, n, k) && Distinct(h1, n) && IndexedBut(h1, n, a, k)
            && Cached(h1, n, at1) && Members(h1, n) == Members(h, n)
            && View(h1, n, at1) == View(h, n, at)[h[k].w := due]
            && (k == HEAP0 ==> OrderedDown(h1, n, k))
  {
    var h1 := h[k := Anhe(h[k].w, due)];
    ChangeMembers(h, n, k, due);
    ChangeOrder(h, n, k, due);
    if k == HEAP0 {
      AdjustReady(h1, n, k);
    }
  }

  lemma SlotOf(h: seq<Anhe>, n: nat, a: map<W, int>, w: W)
    requires n + HEAP0 <= |h| && Owned(h, n, a) && w in a && a[w] != 0
    ensures 0 < n && InHeap(n, a[w]) && h[a[w]].w == w
  {
  }

  lemma NotMember(h: seq<Anhe>, n: nat, a: map<W, int>, w: W)
    requires n + HEAP0 <= |h| && Indexed(h, n, a) && !(w in a && a[w] != 0)
    ensures w !in Members(h, n)
  {
  }

  /** A watcher off the heap may change its time and its index. */
  lemma Elsewhere(h: seq<Anhe>, n: nat, a: map<W, int>, at: map<W, real>, w: W, left: real)
    requires n + HEAP0 <= |h| && Indexed(h, n, a) && Cached(h, n, at) && w !in Members(h, n)
    ensures Indexed(h, n, a[w := 0]) && Cached(h, n, at[w := left])
    ensures View(h, n, at[w := left]) == View(h, n, at)
  {
  }

  lemma PermutedSelf(h: seq<Anhe>, n: nat, a: map<W, int>)
    requires n + HEAP0 <= |h| && Distinct(h, n)
    ensures Permuted(h, h, n, n) && SameOutside(a, a, Members(h, n))
  {
  }

  lemma DroppedView(h: seq<Anhe>, n: nat, a: map<W, int>, at: map<W, real>, k: int)
    requires Settled(h, n, a, at) && InHeap(n, k) && 0 < n
    ensures Cached(Dropped(h, n, k), n - 1, at)
    ensures View(Dropped(h, n, k), n - 1, at) == View(h, n, at) - {h[k].w}
  {
    DroppedMembers(h, n, k);
  }

  lemma StopOwned(h: seq<Anhe>, n: nat, a: map<W, int>, k: int, h': seq<Anhe>, a': map<W, int>)
    requires 0 < n && n + HEAP0 <= |h| == |h'| && InHeap(n, k) && Distinct(h, n) && Indexed(h, n, a) && Owned(h, n, a)
    requires Members(h', n - 1) == Members(h, n) - {h[k].w} && Indexed(h', n - 1, a'[h[k].w := 0])
    requires SameOutside(a, a', Members(h', n - 1))
    ensures Owned(h', n - 1, a'[h[k].w := 0])
  {
    var b := a'[h[k].w := 0];
    forall v | v in b && b[v] != 0 ensures v in Members(h', n - 1) {
      OwnedMember(h, n, a);
    }
    OwnedMember(h', n - 1, b);
  }

  /** The heap once the stopped timer's slot is filled and settled. */
  lemma StopDone(h: seq<Anhe>, n: nat, a: map<W, int>, at: map<W, real>, k: int, w: W, h': seq<Anhe>, a': map<W, int>, left: real)
    requires Settled(h, n, a, at) && InHeap(n, k) && 0 < n && h[k].w == w
    requires |h'| == |h| && Ordered(h', n - 1) && Indexed(h', n - 1, a')
    requires Permuted(Dropped(h, n, k), h', n - 1, n - 1) && SameOutside(a, a', Members(Dropped(h, n, k), n - 1))
    ensures Settled(h', n - 1, a'[w := 0], at[w := left])
    ensures View(h', n - 1, at[w := left]) == View(h, n, at) - {w}
  {
    var m := n - 1;
    StopView(h, n, a, at, k, h');
    DroppedMembers(h, n, k);
    Elsewhere(h', m, a', at, w, left);
    StopOwned(h, n, a, k, h', a');
  }

  lemma StopView(h: seq<Anhe>, n: nat, a: map<W, int>, at: map<W, real>, k: int, h': seq<Anhe>)
    requires Settled(h, n, a, at) && InHeap(n, k) && 0 < n
    requires Permuted(Dropped(h, n, k), h', n - 1, n - 1)
    ensures Cached(h', n - 1, at) && View(h', n - 1, at) == View(h, n, at) - {h[k].w}
  {
    DroppedView(h, n, a, at, k);
    PermutedCached(Dropped(h, n, k), h', n - 1, at);
  }

  class Loop {
    const timers: Heap4
    const queues: Pending.PendingQueues
    var timercnt: nat
    var at: map<W, real>
    var repeat: map<W, real>
    var now: real
    var rfeeds: seq<W>

    constructor (prio: W -> nat, numpri: nat, start: real)
      requires forall w :: prio(w) < numpri
      ensures Valid() && Active() == map[] && now == start && rfeeds == []
      ensures Empty(queues.Stacks()) && queues.prio == prio && |queues.pendings| == numpri
      ensures fresh(timers) && fresh(queues)
    {
      timers := new Heap4();
      queues := new Pending.PendingQueues(prio, numpri);
      timercnt, at, repeat, now, rfeeds := 0, map[], map[], start, [];
    }

    ghost predicate Valid()
      reads this, timers, queues
    {
      && Settled(timers.heap, timercnt, timers.active, at)
      && queues.Valid()
    }

    ghost function Active(): Deadlines
      requires Valid()
      reads this, timers, queues
    {
      View(timers.heap, timercnt, at)
    }

    function At(w: W): real
      reads this
    {
      if w in at then at[w] else 0.0
    }

    predicate IsActive(w: W)
      reads this, timers
    {
      w in timers.active && timers.active[w] != 0
    }

    /** Append an inactive timer and let it rise. */
    method Insert(w: W, due: real)
      requires Settled(timers.heap, timercnt, timers.active, at) && w != DUMMY && !IsActive(w)
      modifies this`at, this`timercnt, timers
      ensures Settled(timers.heap, timercnt, timers.active, at)
      ensures View(timers.heap, timercnt, at) == old(View(timers.heap, timercnt, at))[w := due] && at == old(at)[w := due]
    {
      ghost var h, n, a := timers.heap, timercnt, timers.active;
      NotMember(h, n, a, w);
      timercnt := timercnt + 1;
      var k := timercnt + HEAP0 - 1;
      if |timers.heap| <= k {
        timers.heap := timers.heap + [Anhe(w, due)];
      }
      timers.heap := timers.heap[k := Anhe(w, due)];
      timers.active := timers.active[w := k];
      StartReady(h, timers.heap, n, a, at, w, due);
      at := at[w := due];
      ghost var h1, a1 := timers.heap, timers.active;
      timers.Upheap(k, timercnt, timercnt);
      Resettled(h1, a1, timers.heap, timers.active, timercnt, at);
    }

    /** Take an active timer off the heap. */
    method Delete(w: W)
      requires Settled(timers.heap, timercnt, timers.active, at) && IsActive(w)
      modifies this`at, this`timercnt, timers
      ensures Settled(timers.heap, timercnt, timers.active, at) && !IsActive(w)
      ensures View(timers.heap, timercnt, at) == old(View(timers.heap, timercnt, at)) - {w}
      ensures at == old(at)[w := old(At(w)) - now]
    {
      ghost var h, n, a := timers.heap, timercnt, timers.active;
      SlotOf(h, n, a, w);
      Vacate(w, timers.active[w], At(w) - now);
      at := at[w := At(w) - now];
    }

    /** The heap's part of it. */
    method Vacate(w: W, k: int, ghost left: real)
      requires Settled(timers.heap, timercnt, timers.active, at) && 0 < timercnt && InHeap(timercnt, k) && timers.heap[k].w == w
      modifies this`timercnt, timers
      ensures Settled(timers.heap, timercnt, timers.active, at[w := left]) && !IsActive(w)
      ensures View(timers.heap, timercnt, at[w := left]) == old(View(timers.heap, timercnt, at)) - {w}
    {
      ghost var h, n, a := timers.heap, timercnt, timers.active;
      StopReady(h, n, a, at, k);
      FillSlot(k);
      StopDone(h, n, a, at, k, w, timers.heap, timers.active, left);
      timers.active := timers.active[w := 0];
    }

    /** The last entry takes over slot `k`. */
    method FillSlot(k: int)
      requires 0 < timercnt && timercnt + HEAP0 <= |timers.heap| && InHeap(timercnt, k)
      requires Droppable(Dropped(timers.heap, timercnt, k), timercnt - 1, k, timers.active)
      modifies this`timercnt, timers
      ensures timercnt == old(timercnt) - 1 && |timers.heap| == |old(timers.heap)|
      ensures Ordered(timers.heap, timercnt) && Indexed(timers.heap, timercnt, timers.active)
      ensures Permuted(Dropped(old(timers.heap), old(timercnt), k), timers.heap, timercnt, timercnt)
      ensures SameOutside(old(timers.active), timers.active, Members(Dropped(old(timers.heap), old(timercnt), k), timercnt))
    {
      PermutedSelf(Dropped(timers.heap, timercnt, k), timercnt - 1, timers.active);
      timercnt := timercnt - 1;
      if k < timercnt + HEAP0 {
        timers.heap := timers.heap[k := timers.heap[timercnt + HEAP0]];
        timers.Adjustheap(timercnt, k);
      }
    }

    /** `ev_timer_start`: the relative time becomes a deadline. */
    method Start(w: W)
      requires Valid() && w != DUMMY
      modifies this`at, this`timercnt, timers
      ensures Valid() && queues.Stacks() == old(queues.Stacks())
      ensures (Active(), at) == Started(old(Active()), old(at), now, w)
    {
      ActiveIs(w);
      if w in timers.active && timers.active[w] != 0 {
        return;
      }
      Insert(w, At(w) + now);
    }

    /** `ev_timer_stop`: what is left of the deadline becomes relative again. */
    method Stop(w: W)
      requires Valid() && w != DUMMY
      modifies this`at, this`timercnt, timers, queues
      ensures Valid() && queues.Stacks() == ApplyOp(old(queues.Stacks()), queues.prio, Clear(w))
      ensures |queues.pendings| == old(|queues.pendings|)
      ensures (Active(), at) == Stopped(old(Active()), old(at), now, w) && !IsActive(w)
    {
      ActiveIs(w);
      var _ := queues.ClearPending(w);
      if !(w in timers.active && timers.active[w] != 0) {
        NotMember(timers.heap, timercnt, timers.active, w);
        return;
      }
      Delete(w);
    }

    /** `ev_timer_again`. */
    method Again(w: W)
      requires Valid() && w != DUMMY
      modifies this`at, this`timercnt, timers, queues
      ensures Valid() && queues.Stacks() == ApplyOp(old(queues.Stacks()), queues.prio, Clear(w))
      ensures |queues.pendings| == old(|queues.pendings|)
      ensures (Active(), at) == Restarted(old(Active()), old(at), Repeat(repeat, w), now, w)
    {
      if Repeat(repeat, w) == 0.0 {
        // also clears an inactive watcher
        Stop(w);
      } else {
        var _ := queues.ClearPending(w);
        Rearm(w, Repeat(repeat, w));
      }
    }

    /** One period from now, whether the timer is active or not. */
    method Rearm(w: W, period: real)
      requires Settled(timers.heap, timercnt, timers.active, at) && w != DUMMY
      modifies this`at, this`timercnt, timers
      ensures Settled(timers.heap, timercnt, timers.active, at)
      ensures View(timers.heap, timercnt, at) == old(View(timers.heap, timercnt, at))[w := now + period] && at == old(at)[w := now + period]
    {
      if w in timers.active && timers.active[w] != 0 {
        Move(w, now + period);
      } else {
        // ev_at becomes the period, and ev_timer_start adds the current time
        Insert(w, period + now);
      }
    }

    /** Set an active timer's deadline and settle the heap. */
    method Move(w: W, due: real)
      requires Settled(timers.heap, timercnt, timers.active, at) && IsActive(w)
      modifies this`at, timers
      ensures Settled(timers.heap, timercnt, timers.active, at)
      ensures View(timers.heap, timercnt, at) == old(View(timers.heap, timercnt, at))[w := due] && at == old(at)[w := due]
    {
      ghost var h, n, a := timers.heap, timercnt, timers.active;
      var k := timers.active[w];
      SlotOf(h, n, a, w);
      ChangeReady(h, n, a, at, k, due);
      OwnedMember(h, n, a);
      at := at[w := due];
      timers.heap := timers.heap[k := Anhe(timers.heap[k].w, at[w])];
      ghost var h1 := timers.heap;
      timers.Adjustheap(timercnt, k);
      Resettled(h1, a, timers.heap, timers.active, timercnt, at);
    }

    /** A timer counts as active exactly when it has a deadline on the heap. */
    lemma ActiveIs(w: W)
      requires Valid()
      ensures w in Active() <==> IsActive(w)
      ensures w in Active() ==> w in at && Active()[w] == at[w]
    {
    }

    /** A callback's or an application's calls, in turn. */
    method Perform(calls: seq<Call>)
      requires Valid() && forall i :: 0 <= i < |calls| ==> calls[i].w != DUMMY
      modifies this`at, this`timercnt, timers, queues
      ensures Valid() && |queues.pendings| == old(|queues.pendings|)
      ensures (Active(), at) == AfterCalls(old(Active()), old(at), repeat, now, calls)
      ensures queues.Stacks() == ApplyOps(old(queues.Stacks()), queues.prio, CallOps(calls))
    {
      if calls != [] {
        PerformOne(calls[0]);
        CallOpsUnfold(old(queues.Stacks()), queues.prio, calls);
        Perform(calls[1..]);
      }
    }

    method PerformOne(c: Call)
      requires Valid() && c.w != DUMMY
      modifies this`at, this`timercnt, timers, queues
      ensures Valid() && |queues.pendings| == old(|queues.pendings|)
      ensures (Active(), at) == AfterCall(old(Active()), old(at), repeat, now, c)
      ensures queues.Stacks() == if c.Start? then old(queues.Stacks()) else ApplyOp(old(queues.Stacks()), queues.prio, Clear(c.w))
    {
      match c {
        case Start(w) => Start(w);
        case Stop(w) => Stop(w);
        case Again(w) => Again(w);
      }
    }

    /** The root is the earliest active timer; an empty heap has none. */
    lemma RootView()
      requires Valid()
      ensures timercnt == 0 ==> Active() == map[]
      ensures timercnt > 0 ==>
                && timers.heap[HEAP0].w in Active() && IsActive(timers.heap[HEAP0].w)
                && Active()[timers.heap[HEAP0].w] == timers.heap[HEAP0].at
                && forall v :: v in Active() ==> timers.heap[HEAP0].at <= Active()[v]
    {
      if timercnt > 0 {
        assert timers.heap[HEAP0].w in Members(timers.heap, timercnt);
        forall v | v in Active() ensures timers.heap[HEAP0].at <= Active()[v] {
          var j :| HEAP0 <= j < timercnt + HEAP0 && timers.heap[j].w == v;
          RootEarliest(timers.heap, timercnt, j);
        }
      } else {
        assert Members(timers.heap, timercnt) == {};
      }
    }

    lemma ActiveReal()
      requires Valid()
      ensures DUMMY !in Active()
    {
    }

    /** Deal with the timer at the root: reschedule or stop it, and note it for feeding. */
    method FireRoot() returns (w: W)
      requires Valid() && timercnt > 0 && timers.heap[HEAP0].at < now
      modifies this`at, this`timercnt, this`rfeeds, timers, queues
      ensures Valid() && |queues.pendings| == old(|queues.pendings|)
      ensures w in old(Active()) && old(Active())[w] < now && forall v :: v in old(Active()) ==> old(Active())[w] <= old(Active())[v]
      ensures Active() == if Repeat(repeat, w) != 0.0
                          then old(Active())[w := Rescheduled(old(Active())[w], Repeat(repeat, w), now)]
                          else old(Active()) - {w}
      ensures rfeeds == old(rfeeds) + [w]
      ensures queues.Stacks() == if Repeat(repeat, w) != 0.0 then old(queues.Stacks())
                                 else ApplyOp(old(queues.Stacks()), queues.prio, Clear(w))
    {
      RootView();
      w := timers.heap[HEAP0].w;
      RenewRoot(w);
      rfeeds := rfeeds + [w];
    }

    /** Reschedule a repeating timer at the root, stop any other. */
    method RenewRoot(w: W)
      requires Valid() && timercnt > 0 && timers.heap[HEAP0].w == w && w != DUMMY && IsActive(w)
      requires w in Active() && Active()[w] == timers.heap[HEAP0].at
      modifies this`at, this`timercnt, timers, queues
      ensures Valid() && |queues.pendings| == old(|queues.pendings|)
      ensures Active() == if Repeat(repeat, w) != 0.0
                          then old(Active())[w := Rescheduled(old(Active())[w], Repeat(repeat, w), now)]
                          else old(Active()) - {w}
      ensures queues.Stacks() == if Repeat(repeat, w) != 0.0 then old(queues.Stacks())
                                 else ApplyOp(old(queues.Stacks()), queues.prio, Clear(w))
    {
      ActiveIs(w);
      if Repeat(repeat, w) != 0.0 {
        var due := At(w) + Repeat(repeat, w);
        if due < now {
          due := now;
        }
        MoveRoot(w, due);
      } else {
        Stop(w);
      }
    }

    /** Set the root's deadline and let it sink. */
    method MoveRoot(w: W, due: real)
      requires Settled(timers.heap, timercnt, timers.active, at) && timercnt > 0 && timers.heap[HEAP0].w == w
      modifies this`at, timers
      ensures Settled(timers.heap, timercnt, timers.active, at)
      ensures View(timers.heap, timercnt, at) == old(View(timers.heap, timercnt, at))[w := due]
    {
      ghost var h, n, a := timers.heap, timercnt, timers.active;
      ChangeReady(h, n, a, at, HEAP0, due);
      OwnedMember(h, n, a);
      at := at[w := due];
      timers.heap := timers.heap[HEAP0 := Anhe(w, at[w])];
      ghost var h1 := timers.heap;
      timers.Downheap(timercnt, HEAP0);
      Resettled(h1, a, timers.heap, timers.active, timercnt, at);
    }

    /** `feed_reverse_done`. */
    method FeedReverseDone()
      requires queues.Valid() && rfeeds != [] && DUMMY !in rfeeds
      modifies this`rfeeds, queues
      ensures queues.Valid() && rfeeds == []
      ensures queues.Stacks() == ApplyOps(old(queues.Stacks()), queues.prio, Feeds(old(rfeeds)))
    {
      ghost var all := ApplyOps(queues.Stacks(), queues.prio, Feeds(rfeeds));
      while rfeeds != []
        invariant queues.Valid() && DUMMY !in rfeeds
        invariant ApplyOps(queues.Stacks(), queues.prio, Feeds(rfeeds)) == all
        decreases |rfeeds|
      {
        var n := |rfeeds| - 1;
        var w := rfeeds[n];
        assert w in rfeeds;
        ghost var st := queues.Stacks();
        ApplyConcat(st, queues.prio, [Feed(w, {TIMER})], Feeds(rfeeds[..n]));
        OneOp(st, queues.prio, Feed(w, {TIMER}));
        queues.FeedEvent(w, {TIMER});
        rfeeds := rfeeds[..n];
      }
    }

    /** `timers_reify`. */
    method Reify() returns (ghost fired: seq<W>)
      requires Valid() && rfeeds == []
      modifies this`at, this`timercnt, this`rfeeds, timers, queues
      ensures Valid() && rfeeds == []
      ensures DueInOrder(old(Active()), now, fired)
      ensures Active() == Reified(old(Active()), repeat, now, set w | w in fired)
      ensures queues.Stacks() == ApplyOps(old(queues.Stacks()), queues.prio, Clears(fired, repeat) + Feeds(fired))
    {
      ghost var d, st := Active(), queues.Stacks();
      ActiveReal();
      fired := FireAll();
      FiringReal(d, repeat, now, fired, Active());
      ApplyConcat(st, queues.prio, Clears(fired, repeat), Feeds(fired));
      if rfeeds != [] {
        FeedReverseDone();
      }
    }

    /** A pass at each of the times the clock shows. */
    method ReifyAt(times: seq<real>) returns (ghost passes: seq<Pass>)
      requires Valid() && rfeeds == []
      modifies this`at, this`timercnt, this`rfeeds, this`now, timers, queues
      ensures Valid() && rfeeds == []
      ensures |passes| == |times| && forall i :: 0 <= i < |times| ==> passes[i].now == times[i]
      ensures Passing(old(Active()), repeat, passes) && Active() == AfterPasses(old(Active()), repeat, passes)
    {
      passes := [];
      if times != [] {
        now := times[0];
        ghost var fired := Reify();
        ghost var rest := ReifyAt(times[1..]);
        passes := [Pass(times[0], set w | w in fired)] + rest;
        assert passes[1..] == rest;
      }
    }

    /** The loop of `timers_reify`. */
    method FireAll() returns (ghost fired: seq<W>)
      requires Valid() && rfeeds == []
      modifies this`at, this`timercnt, this`rfeeds, timers, queues
      ensures Valid() && |queues.pendings| == old(|queues.pendings|) && rfeeds == fired
      ensures Firing(old(Active()), repeat, now, fired, Active()) && DueInOrder(old(Active()), now, fired)
      ensures queues.Stacks() == ApplyOps(old(queues.Stacks()), queues.prio, Clears(fired, repeat))
    {
      ghost var d, st := Active(), queues.Stacks();
      while timercnt > 0 && timers.heap[HEAP0].at < now
        invariant Valid() && |queues.pendings| == |st|
        invariant Firing(d, repeat, now, rfeeds, Active())
        invariant queues.Stacks() == ApplyOps(st, queues.prio, Clears(rfeeds, repeat))
        decreases Unfired(d, rfeeds)
      {
        FireOne(d, st);
      }
      fired := rfeeds;
      RootView();
      FiringDone(d, repeat, now, fired, Active());
    }

    method FireOne(ghost d: Deadlines, ghost st: seq<Stack>)
      requires Valid() && |queues.pendings| == |st| && timercnt > 0 && timers.heap[HEAP0].at < now
      requires Firing(d, repeat, now, rfeeds, Active())
      requires queues.Stacks() == ApplyOps(st, queues.prio, Clears(rfeeds, repeat))
      modifies this`at, this`timercnt, this`rfeeds, timers, queues
      ensures Valid() && |queues.pendings| == |st|
      ensures Firing(d, repeat, now, rfeeds, Active())
      ensures queues.Stacks() == ApplyOps(st, queues.prio, Clears(rfeeds, repeat))
      ensures Unfired(d, rfeeds) < Unfired(d, old(rfeeds))
    {
      ghost var f, act := rfeeds, Active();
      var w := FireRoot();
      FireStep(d, repeat, now, f, act, w);
      ClearsStep(st, queues.prio, f, repeat, w);
      assert w in Unfired(d, f) && w !in Unfired(d, f + [w]);
    }

    /**
     One pass of the loop over its timers, with passive callbacks: the due timers of each
     priority are invoked by non-decreasing original deadline, each once, ahead of
     whatever was pending at that priority before.
     */
    method RunTimers() returns (ghost fired: seq<W>, log: seq<Slot>)
      requires Valid() && rfeeds == [] && |queues.pendings| > 0
      requires forall w :: w in Active() && Active()[w] < now ==> Pending.IndexOf(queues.index, w) == 0
      modifies this`at, this`timercnt, this`rfeeds, timers, queues
      ensures Valid() && Empty(queues.Stacks())
      ensures DueInOrder(old(Active()), now, fired) && Active() == Reified(old(Active()), repeat, now, set w | w in fired)
      ensures forall p :: 0 <= p < |old(queues.Stacks())| ==>
                && LogOf(log, queues.prio, p) == Timed(OfPriority(fired, queues.prio, p)) + PendingLaws.Reverse(old(queues.Stacks())[p])
                && InDeadlineOrder(OfPriority(fired, queues.prio, p), old(Active()))
    {
      ghost var d, st := Active(), queues.Stacks();
      ActiveReal();
      Pending.LivePlaced(queues.prio, queues.pendings, queues.index);
      fired := Reify();
      forall p | 0 <= p < |st|
        ensures LogOf(InvokeAll(queues.Stacks(), queues.prio, []).1, queues.prio, p) == Timed(OfPriority(fired, queues.prio, p)) + PendingLaws.Reverse(st[p])
        ensures InDeadlineOrder(OfPriority(fired, queues.prio, p), d)
      {
        FiringOrder(st, queues.prio, fired, repeat, p);
        EqualPriorityInDeadlineOrder(d, fired, queues.prio, p);
      }
      PendingLaws.QueuesRunEmpty(queues.Stacks(), queues.prio, []);
      log := queues.InvokePending([]);
    }
  }
}
