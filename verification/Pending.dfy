/**
 libev's pending queues. Each watcher carries the 1-based index of its slot; clearing a
 watcher leaves a dummy in the slot, and callbacks may feed and clear at will while
 `ev_invoke_pending` runs.

 The specification has no dummies and no indices: one stack of pending watchers per priority.
 */
module PendingSpec {

  /** A watcher; 0 is `pending_w`, the dummy whose callback does nothing. */
  type W = nat
  const DUMMY: W := 0

  /** A set of event bits. */
  type Revents = set<nat>

  /** One `ANPENDING`. */
  datatype Slot = Slot(w: W, events: Revents)
  type Stack = seq<Slot>

  /** What callbacks do to the queues. */
  datatype Op = Feed(w: W, events: Revents) | Clear(w: W)

  predicate In(s: Stack, w: W) {
    exists i :: 0 <= i < |s| && s[i].w == w
  }

  lemma InConcat(a: Stack, b: Stack, w: W)
    ensures In(a + b, w) <==> In(a, w) || In(b, w)
  {
    if i :| 0 <= i < |a| && a[i].w == w {
      assert (a + b)[i].w == w;
    }
    if i :| 0 <= i < |b| && b[i].w == w {
      assert (a + b)[|a| + i].w == w;
    }
  }

  /** Feeding merges into the watcher's slot, or pushes a new one. */
  function FeedStack(s: Stack, w: W, events: Revents): Stack {
    if s == [] then [Slot(w, events)]
    else if s[0].w == w then [Slot(w, s[0].events + events)] + s[1..]
    else [s[0]] + FeedStack(s[1..], w, events)
  }

  function ClearStack(s: Stack, w: W): Stack {
    if s == [] then [] else if s[0].w == w then s[1..] else [s[0]] + ClearStack(s[1..], w)
  }

  /** What the watcher is pending with. */
  function EventsIn(s: Stack, w: W): Revents {
    if s == [] then {} else if s[0].w == w then s[0].events else EventsIn(s[1..], w)
  }

  function ApplyOp(st: seq<Stack>, prio: W -> nat, op: Op): seq<Stack>
    requires prio(op.w) < |st|
  {
    var p := prio(op.w);
    st[p := match op case Feed(w, events) => FeedStack(st[p], w, events) case Clear(w) => ClearStack(st[p], w)]
  }

  function ApplyOps(st: seq<Stack>, prio: W -> nat, ops: seq<Op>): (r: seq<Stack>)
    requires forall w :: prio(w) < |st|
    ensures |r| == |st|
    decreases |ops|
  {
    if ops == [] then st else ApplyOp(ApplyOps(st, prio, ops[..|ops| - 1]), prio, ops[|ops| - 1])
  }

  predicate Empty(st: seq<Stack>) {
    forall p :: 0 <= p < |st| ==> st[p] == []
  }

  function Total(st: seq<Stack>): nat {
    if st == [] then 0 else |st[0]| + Total(st[1..])
  }

  /** The highest priority with something pending. */
  function Highest(st: seq<Stack>): (p: nat)
    requires !Empty(st)
    ensures p < |st| && st[p] != [] && forall q :: p < q < |st| ==> st[q] == []
    decreases |st|
  {
    var n := |st| - 1;
    if st[n] != [] then n else
      assert exists p :: 0 <= p < n && st[..n][p] != [] by {
        var p :| 0 <= p < |st| && st[p] != [];
        assert st[..n][p] != [];
      }
      Highest(st[..n])
  }

  function Popped(st: seq<Stack>): seq<Stack>
    requires !Empty(st)
  {
    var p := Highest(st);
    st[p := st[p][..|st[p]| - 1]]
  }

  lemma {:induction false} TotalUpdate(st: seq<Stack>, p: nat, s: Stack)
    requires p < |st|
    ensures Total(st[p := s]) == Total(st) - |st[p]| + |s|
  {
    if p > 0 {
      assert st[p := s][1..] == st[1..][p - 1 := s];
      TotalUpdate(st[1..], p - 1, s);
    } else {
      assert st[p := s][1..] == st[1..];
    }
  }

  /**
   The specification of `ev_invoke_pending`. `script` says what each callback does, in the order
   the callbacks run; when it is used up, callbacks leave the queues alone. Returns the
   queues it ends with and the invocations made.
   */
  function InvokeAll(st: seq<Stack>, prio: W -> nat, script: seq<seq<Op>>): (seq<Stack>, seq<Slot>)
    requires forall w :: prio(w) < |st|
    decreases |script|, Total(st)
  {
    if Empty(st) then (st, []) else
    var p := Highest(st);
    TotalUpdate(st, p, st[p][..|st[p]| - 1]);
    var (r, log) := if script == [] then InvokeAll(Popped(st), prio, [])
                    else InvokeAll(ApplyOps(Popped(st), prio, script[0]), prio, script[1..]);
    (r, [st[p][|st[p]| - 1]] + log)
  }

  /** Callbacks never touch the dummy. */
  predicate Proper(script: seq<seq<Op>>) {
    forall i, j :: 0 <= i < |script| && 0 <= j < |script[i]| ==> script[i][j].w != DUMMY
  }

  lemma HighestIs(st: seq<Stack>, p: nat)
    requires p < |st| && st[p] != [] && forall q :: p < q < |st| ==> st[q] == []
    ensures !Empty(st) && Highest(st) == p
  {
  }
}

/** What `ev_invoke_pending` guarantees, whatever the callbacks do. */
module PendingLaws {
  import opened PendingSpec

  predicate Pends(st: seq<Stack>, prio: W -> nat, w: W)
    requires prio(w) < |st|
  {
    In(st[prio(w)], w)
  }

  lemma {:induction false} FeedIn(s: Stack, w: W, events: Revents, v: W)
    ensures In(FeedStack(s, w, events), v) <==> v == w || In(s, v)
  {
    if s == [] {
      assert FeedStack(s, w, events)[0].w == w;
    } else {
      InCons(s[0], s[1..], v);
      if s[0].w == w {
        InCons(Slot(w, s[0].events + events), s[1..], v);
      } else {
        FeedIn(s[1..], w, events, v);
        InCons(s[0], FeedStack(s[1..], w, events), v);
      }
    }
  }

  lemma InCons(x: Slot, s: Stack, v: W)
    ensures In([x] + s, v) <==> x.w == v || In(s, v)
    ensures |s| > 0 ==> [s[0]] + s[1..] == s
  {
    InConcat([x], s, v);
    assert [x][0] == x;
  }

  lemma {:induction false} ClearIn(s: Stack, w: W, v: W)
    ensures In(ClearStack(s, w), v) ==> In(s, v)
    ensures v != w && In(s, v) ==> In(ClearStack(s, w), v)
  {
    if s != [] {
      InCons(s[0], s[1..], v);
      if s[0].w != w {
        ClearIn(s[1..], w, v);
        InCons(s[0], ClearStack(s[1..], w), v);
      }
    }
  }

  lemma {:induction false} OpsIn(st: seq<Stack>, prio: W -> nat, ops: seq<Op>, v: W)
    requires forall w :: prio(w) < |st|
    requires forall j :: 0 <= j < |ops| && ops[j].w == v ==> ops[j].Feed?
    requires Pends(st, prio, v)
    ensures Pends(ApplyOps(st, prio, ops), prio, v)
    decreases |ops|
  {
    if ops != [] {
      var n := |ops| - 1;
      OpsIn(st, prio, ops[..n], v);
      var r, op := ApplyOps(st, prio, ops[..n]), ops[n];
      match op
      case Feed(w, events) => FeedIn(r[prio(w)], w, events, v);
      case Clear(w) => ClearIn(r[prio(w)], w, v);
    }
  }

  lemma PoppedIn(st: seq<Stack>, prio: W -> nat, v: W)
    requires (forall w :: prio(w) < |st|) && !Empty(st)
    ensures Pends(Popped(st), prio, v) ==> Pends(st, prio, v)
    ensures Pends(st, prio, v) ==>
              Pends(Popped(st), prio, v) || st[Highest(st)][|st[Highest(st)]| - 1].w == v
  {
  }

  lemma InLast(s: Stack, v: W)
    requires s != []
    ensures In(s, v) <==> In(s[..|s| - 1], v) || s[|s| - 1].w == v
  {
  }

  predicate Silent(script: seq<seq<Op>>, v: W, feeds: bool) {
    forall i, j :: 0 <= i < |script| && 0 <= j < |script[i]| && script[i][j].w == v ==> script[i][j].Feed? != feeds
  }

  lemma InvokeUnfold(st: seq<Stack>, prio: W -> nat, script: seq<seq<Op>>) returns (next: seq<Stack>, rest: seq<seq<Op>>)
    requires (forall w :: prio(w) < |st|) && !Empty(st)
    ensures |next| == |st| && (|rest| < |script| || (rest == script && Total(next) < Total(st)))
    ensures script == [] ==> next == Popped(st) && rest == []
    ensures script != [] ==> next == ApplyOps(Popped(st), prio, script[0]) && rest == script[1..]
    ensures InvokeAll(st, prio, script).1 == [st[Highest(st)][|st[Highest(st)]| - 1]] + InvokeAll(next, prio, rest).1
    ensures InvokeAll(st, prio, script).0 == InvokeAll(next, prio, rest).0
  {
    var p := Highest(st);
    TotalUpdate(st, p, st[p][..|st[p]| - 1]);
    if script == [] {
      next, rest := Popped(st), [];
    } else {
      next, rest := ApplyOps(Popped(st), prio, script[0]), script[1..];
    }
  }

  predicate Nowhere(st: seq<Stack>, v: W) {
    forall p :: 0 <= p < |st| ==> !In(st[p], v)
  }

  lemma {:induction false} OpsNowhere(st: seq<Stack>, prio: W -> nat, ops: seq<Op>, v: W)
    requires (forall w :: prio(w) < |st|) && Nowhere(st, v)
    requires forall j :: 0 <= j < |ops| ==> ops[j].w != v || ops[j].Clear?
    ensures Nowhere(ApplyOps(st, prio, ops), v)
    decreases |ops|
  {
    if ops != [] {
      var n := |ops| - 1;
      OpsNowhere(st, prio, ops[..n], v);
      var r, op := ApplyOps(st, prio, ops[..n]), ops[n];
      match op
      case Feed(w, events) => FeedIn(r[prio(w)], w, events, v);
      case Clear(w) => ClearIn(r[prio(w)], w, v);
    }
  }

  /** A watcher that is nowhere pending is not invoked unless it is fed. */
  lemma {:induction false} UnfedNeverInvoked(st: seq<Stack>, prio: W -> nat, script: seq<seq<Op>>, v: W)
    requires forall w :: prio(w) < |st|
    requires Nowhere(st, v) && Silent(script, v, true)
    ensures !In(InvokeAll(st, prio, script).1, v)
    decreases |script|, Total(st)
  {
    if !Empty(st) {
      var next, rest := InvokeUnfold(st, prio, script);
      var top := st[Highest(st)];
      InLast(top, v);
      assert Nowhere(Popped(st), v);
      if script != [] {
        OpsNowhere(Popped(st), prio, script[0], v);
      }
      UnfedNeverInvoked(next, prio, rest, v);
      InCons(top[|top| - 1], InvokeAll(next, prio, rest).1, v);
    }
  }

  // ---------- Clearing during the run ----------

  predicate Once(s: Stack, v: W) {
    forall i, j :: 0 <= i < j < |s| ==> s[i].w != v || s[j].w != v
  }

  /** The watcher has at most one slot, and only in the stack of its priority. */
  ghost predicate Single(st: seq<Stack>, prio: W -> nat, v: W) {
    forall p :: 0 <= p < |st| ==> Once(st[p], v) && (In(st[p], v) ==> p == prio(v))
  }

  lemma OnceCons(x: Slot, s: Stack, v: W)
    ensures Once([x] + s, v) <==> Once(s, v) && (x.w == v ==> !In(s, v))
  {
    var t := [x] + s;
    if Once(t, v) {
      forall i, j | 0 <= i < j < |s| ensures s[i].w != v || s[j].w != v {
        assert t[i + 1] == s[i] && t[j + 1] == s[j];
      }
      forall i | 0 <= i < |s| ensures x.w == v ==> s[i].w != v {
        assert t[0] == x && t[i + 1] == s[i];
      }
    }
  }

  lemma {:induction false} OnceOp(s: Stack, w: W, events: Revents, v: W)
    requires Once(s, v)
    ensures Once(FeedStack(s, w, events), v) && Once(ClearStack(s, w), v) && !In(ClearStack(s, v), v)
  {
    if s != [] {
      InCons(s[0], s[1..], v);
      OnceCons(s[0], s[1..], v);
      if s[0].w == w {
        OnceCons(Slot(w, s[0].events + events), s[1..], v);
      } else {
        OnceOp(s[1..], w, events, v);
        FeedIn(s[1..], w, events, v);
        ClearIn(s[1..], w, v);
        OnceCons(s[0], FeedStack(s[1..], w, events), v);
        OnceCons(s[0], ClearStack(s[1..], w), v);
      }
      if s[0].w != v {
        OnceOp(s[1..], v, events, v);
        InCons(s[0], ClearStack(s[1..], v), v);
      }
    }
  }

  lemma {:induction false} OpsSingle(st: seq<Stack>, prio: W -> nat, ops: seq<Op>, v: W)
    requires (forall w :: prio(w) < |st|) && Single(st, prio, v)
    ensures Single(ApplyOps(st, prio, ops), prio, v)
    decreases |ops|
  {
    if ops != [] {
      var n := |ops| - 1;
      OpsSingle(st, prio, ops[..n], v);
      OpSingle(ApplyOps(st, prio, ops[..n]), prio, ops[n], v);
    }
  }

  lemma OpSingle(st: seq<Stack>, prio: W -> nat, op: Op, v: W)
    requires (forall w :: prio(w) < |st|) && Single(st, prio, v)
    ensures Single(ApplyOp(st, prio, op), prio, v)
    ensures op == Clear(v) || (Nowhere(st, v) && (op.w != v || op.Clear?)) ==> Nowhere(ApplyOp(st, prio, op), v)
  {
    var s := st[prio(op.w)];
    var events := if op.Feed? then op.events else {};
    OnceOp(s, op.w, events, v);
    FeedIn(s, op.w, events, v);
    ClearIn(s, op.w, v);
  }

  /** A callback whose last word on the watcher is to clear it leaves it nowhere. */
  lemma {:induction false} OpsClear(st: seq<Stack>, prio: W -> nat, ops: seq<Op>, j: nat, v: W)
    requires (forall w :: prio(w) < |st|) && Single(st, prio, v)
    requires j < |ops| && ops[j] == Clear(v) && forall k :: j < k < |ops| ==> ops[k].w != v || ops[k].Clear?
    ensures Nowhere(ApplyOps(st, prio, ops), v)
    decreases |ops|
  {
    var n := |ops| - 1;
    if j < n {
      OpsClear(st, prio, ops[..n], j, v);
    }
    OpsSingle(st, prio, ops[..n], v);
    OpSingle(ApplyOps(st, prio, ops[..n]), prio, ops[n], v);
  }

  lemma PoppedSingle(st: seq<Stack>, prio: W -> nat, v: W)
    requires Single(st, prio, v) && !Empty(st)
    ensures Single(Popped(st), prio, v)
  {
    var p := Highest(st);
    InLast(st[p], v);
  }

  /**
   Once callback `i` has cleared the watcher for good (operation `j` clears it, and nothing feeds it
   from then on), it is not invoked any more, even if it was pending when the run began.
   */
  lemma {:induction false} ClearedNeverInvoked(st: seq<Stack>, prio: W -> nat, script: seq<seq<Op>>, i: nat, j: nat, v: W)
    requires (forall w :: prio(w) < |st|) && Single(st, prio, v)
    requires i < |script| && j < |script[i]| && script[i][j] == Clear(v)
    requires forall k :: j < k < |script[i]| ==> script[i][k].w != v || script[i][k].Clear?
    requires Silent(script[i + 1..], v, true)
    ensures forall k :: i < k < |InvokeAll(st, prio, script).1| ==> InvokeAll(st, prio, script).1[k].w != v
    decreases i
  {
    if !Empty(st) {
      var next, rest := InvokeUnfold(st, prio, script);
      var log := InvokeAll(next, prio, rest).1;
      PoppedSingle(st, prio, v);
      if i == 0 {
        OpsClear(Popped(st), prio, script[0], j, v);
        UnfedNeverInvoked(next, prio, rest, v);
      } else {
        OpsSingle(Popped(st), prio, script[0], v);
        assert script[i + 1..] == rest[i..];
        ClearedNeverInvoked(next, prio, rest, i - 1, j, v);
      }
      var all := InvokeAll(st, prio, script).1;
      assert forall k :: 0 < k < |all| ==> all[k] == log[k - 1];
      assert i == 0 ==> forall k :: 0 <= k < |log| ==> log[k].w != v;
    }
  }

  /** A pending watcher is invoked before the queues run empty, unless some callback clears it. */
  lemma {:induction false} PendingGetsInvoked(st: seq<Stack>, prio: W -> nat, script: seq<seq<Op>>, v: W)
    requires forall w :: prio(w) < |st|
    requires Pends(st, prio, v) && Silent(script, v, false)
    ensures In(InvokeAll(st, prio, script).1, v)
    decreases |script|, Total(st)
  {
    var next, rest := InvokeUnfold(st, prio, script);
    PoppedIn(st, prio, v);
    var top := st[Highest(st)];
    InCons(top[|top| - 1], InvokeAll(next, prio, rest).1, v);
    if top[|top| - 1].w != v {
      if script != [] {
        OpsIn(Popped(st), prio, script[0], v);
      }
      PendingGetsInvoked(next, prio, rest, v);
    }
  }

  lemma {:induction false} QueuesRunEmpty(st: seq<Stack>, prio: W -> nat, script: seq<seq<Op>>)
    requires forall w :: prio(w) < |st|
    ensures Empty(InvokeAll(st, prio, script).0)
    decreases |script|, Total(st)
  {
    if !Empty(st) {
      var next, rest := InvokeUnfold(st, prio, script);
      QueuesRunEmpty(next, prio, rest);
    }
  }

  // ---------- Passive callbacks ----------

  function Reverse(s: Stack): Stack {
    if s == [] then [] else [s[|s| - 1]] + Reverse(s[..|s| - 1])
  }

  /** Priorities from high to low, each queue from its last slot to its first. */
  function Drained(st: seq<Stack>): seq<Slot> {
    if st == [] then [] else Reverse(st[|st| - 1]) + Drained(st[..|st| - 1])
  }

  lemma {:induction false} DrainedPop(st: seq<Stack>)
    requires !Empty(st)
    ensures var top := st[Highest(st)]; Drained(st) == [top[|top| - 1]] + Drained(Popped(st))
    decreases |st|
  {
    var n, p := |st| - 1, Highest(st);
    var top := st[p];
    if p == n {
      assert Popped(st)[..n] == st[..n];
      assert Reverse(top) + Drained(st[..n]) == [top[|top| - 1]] + (Reverse(top[..|top| - 1]) + Drained(st[..n]));
    } else {
      assert st[..n][p] != [];
      HighestIs(st[..n], p);
      assert Popped(st)[..n] == Popped(st[..n]);
      DrainedPop(st[..n]);
      assert Drained(st) == Drained(st[..n]);
    }
  }

  lemma {:induction false} DrainedEmpty(st: seq<Stack>)
    requires Empty(st)
    ensures Drained(st) == []
  {
    if st != [] {
      DrainedEmpty(st[..|st| - 1]);
    }
  }

  /** With passive callbacks the invocations are exactly the queues, drained. */
  lemma {:induction false} PassiveOrder(st: seq<Stack>, prio: W -> nat)
    requires forall w :: prio(w) < |st|
    ensures InvokeAll(st, prio, []).1 == Drained(st)
    decreases Total(st)
  {
    if Empty(st) {
      DrainedEmpty(st);
    } else {
      var next, rest := InvokeUnfold(st, prio, []);
      DrainedPop(st);
      PassiveOrder(next, prio);
    }
  }
}

/** The queues as libev keeps them. */
module Pending {
  import opened PendingSpec
  import PendingLaws

  /** The watchers of a queue, without the dummies. */
  function Live(s: Stack): Stack {
    if s == [] then [] else (if s[0].w == DUMMY then [] else [s[0]]) + Live(s[1..])
  }

  function LiveAll(q: seq<Stack>): seq<Stack> {
    seq(|q|, i requires 0 <= i < |q| => Live(q[i]))
  }

  lemma {:induction false} LiveConcat(a: Stack, b: Stack)
    ensures Live(a + b) == Live(a) + Live(b)
  {
    if a == [] {
      assert a + b == b;
    } else {
      assert (a + b)[1..] == a[1..] + b;
      LiveConcat(a[1..], b);
    }
  }

  lemma {:induction false} LiveIn(s: Stack, w: W)
    ensures In(Live(s), w) <==> w != DUMMY && In(s, w)
  {
    if s != [] {
      LiveIn(s[1..], w);
      var l := Live(s[1..]);
      var h := if s[0].w == DUMMY then [] else [s[0]];
      InConcat(h, l, w);
      InConcat([s[0]], s[1..], w);
      assert [s[0]] + s[1..] == s;
    }
  }

  lemma {:induction false} FeedStackAt(a: Stack, x: Slot, b: Stack, events: Revents)
    requires !In(a, x.w)
    ensures FeedStack(a + [x] + b, x.w, events) == a + [Slot(x.w, x.events + events)] + b
    ensures ClearStack(a + [x] + b, x.w) == a + b && EventsIn(a + [x] + b, x.w) == x.events
  {
    if a == [] {
      assert a + [x] + b == [x] + b;
    } else {
      InConcat([a[0]], a[1..], x.w);
      assert [a[0]] + a[1..] == a;
      assert (a + [x] + b)[1..] == a[1..] + [x] + b;
      FeedStackAt(a[1..], x, b, events);
      assert [a[0]] + (a[1..] + [Slot(x.w, x.events + events)] + b) == a + [Slot(x.w, x.events + events)] + b;
      assert [a[0]] + (a[1..] + b) == a + b;
    }
  }

  lemma {:induction false} FeedStackAbsent(s: Stack, w: W, events: Revents)
    requires !In(s, w)
    ensures FeedStack(s, w, events) == s + [Slot(w, events)] && ClearStack(s, w) == s && EventsIn(s, w) == {}
  {
    if s != [] {
      InConcat([s[0]], s[1..], w);
      assert [s[0]] + s[1..] == s;
      assert s[0].w != w;
      FeedStackAbsent(s[1..], w, events);
    }
  }

  /** Rewriting or blanking the slot of `w` in a queue is feeding or clearing its live view. */
  lemma SlotUpdate(s: Stack, k: nat, events: Revents)
    requires k < |s| && s[k].w != DUMMY
    requires forall i :: 0 <= i < |s| && i != k ==> s[i].w != s[k].w
    ensures Live(s[k := Slot(s[k].w, s[k].events + events)]) == FeedStack(Live(s), s[k].w, events)
    ensures Live(s[k := Slot(DUMMY, s[k].events)]) == ClearStack(Live(s), s[k].w)
    ensures EventsIn(Live(s), s[k].w) == s[k].events
  {
    var a, b, x := s[..k], s[k + 1..], s[k];
    assert s == a + [x] + b;
    assert !In(a, x.w);
    LiveIn(a, x.w);
    LiveParts(a, x, b);
    FeedStackAt(Live(a), x, Live(b), events);
    var y, z := Slot(x.w, x.events + events), Slot(DUMMY, x.events);
    assert s[k := y] == a + [y] + b;
    LiveParts(a, y, b);
    assert s[k := z] == a + [z] + b;
    LiveParts(a, z, b);
  }

  lemma LiveParts(a: Stack, x: Slot, b: Stack)
    ensures Live(a + [x] + b) == Live(a) + (if x.w == DUMMY then [] else [x]) + Live(b)
  {
    LiveConcat(a + [x], b);
    LiveConcat(a, [x]);
    assert Live([x]) == (if x.w == DUMMY then [] else [x]) + Live([]);
  }

  // ---------- Slots and indices ----------

  function IndexOf(ix: map<W, nat>, w: W): nat {
    if w in ix then ix[w] else 0
  }

  /** The watcher's index names its slot: what `verify_watcher` asserts. */
  ghost predicate Indexed(prio: W -> nat, q: seq<Stack>, ix: map<W, nat>, w: W) {
    IndexOf(ix, w) != 0 ==>
      && prio(w) < |q| && IndexOf(ix, w) <= |q[prio(w)]|
      && q[prio(w)][IndexOf(ix, w) - 1].w == w
  }

  ghost predicate SlotOk(prio: W -> nat, q: seq<Stack>, ix: map<W, nat>, p: nat, k: nat)
    requires p < |q| && k < |q[p]|
  {
    var w := q[p][k].w;
    w != DUMMY ==> prio(w) == p && IndexOf(ix, w) == k + 1
  }

  ghost predicate Consistent(prio: W -> nat, q: seq<Stack>, ix: map<W, nat>) {
    && (forall w :: prio(w) < |q|)
    && (forall w :: Indexed(prio, q, ix, w))
    && IndexOf(ix, DUMMY) == 0
    && (forall p, k :: 0 <= p < |q| && 0 <= k < |q[p]| ==> SlotOk(prio, q, ix, p, k))
  }

  /** A pending watcher has one slot; any other has none. */
  lemma OneSlot(prio: W -> nat, q: seq<Stack>, ix: map<W, nat>, w: W)
    requires Consistent(prio, q, ix) && w != DUMMY
    ensures Indexed(prio, q, ix, w)
    ensures forall i :: 0 <= i < |q[prio(w)]| && i != IndexOf(ix, w) - 1 ==> q[prio(w)][i].w != w
    ensures IndexOf(ix, w) == 0 ==> !In(Live(q[prio(w)]), w)
  {
    var p := prio(w);
    forall i | 0 <= i < |q[p]| && i != IndexOf(ix, w) - 1
      ensures q[p][i].w != w
    {
      assert SlotOk(prio, q, ix, p, i);
    }
    LiveIn(q[p], w);
  }

  lemma ConsistentRewrite(prio: W -> nat, q: seq<Stack>, ix: map<W, nat>, p: nat, k: nat, x: Slot)
    requires Consistent(prio, q, ix) && p < |q| && k < |q[p]| && x.w == q[p][k].w
    ensures Consistent(prio, q[p := q[p][k := x]], ix)
  {
    var r := q[p := q[p][k := x]];
    forall w ensures Indexed(prio, r, ix, w) { assert Indexed(prio, q, ix, w); }
    forall p', k' | 0 <= p' < |r| && 0 <= k' < |r[p']| ensures SlotOk(prio, r, ix, p', k') {
      assert SlotOk(prio, q, ix, p', k');
    }
  }

  lemma ConsistentPush(prio: W -> nat, q: seq<Stack>, ix: map<W, nat>, x: Slot)
    requires Consistent(prio, q, ix) && x.w != DUMMY && IndexOf(ix, x.w) == 0
    ensures Consistent(prio, q[prio(x.w) := q[prio(x.w)] + [x]], ix[x.w := |q[prio(x.w)]| + 1])
  {
    var p := prio(x.w);
    var r, iy := q[p := q[p] + [x]], ix[x.w := |q[p]| + 1];
    forall w ensures Indexed(prio, r, iy, w) { assert Indexed(prio, q, ix, w); }
    OneSlot(prio, q, ix, x.w);
    forall p', k' | 0 <= p' < |r| && 0 <= k' < |r[p']| ensures SlotOk(prio, r, iy, p', k') {
      if p' != p || k' < |q[p]| {
        assert SlotOk(prio, q, ix, p', k');
      }
    }
  }

  lemma ConsistentBlank(prio: W -> nat, q: seq<Stack>, ix: map<W, nat>, w: W)
    requires Consistent(prio, q, ix) && IndexOf(ix, w) != 0 && Indexed(prio, q, ix, w)
    ensures var p, k := prio(w), IndexOf(ix, w) - 1;
            Consistent(prio, q[p := q[p][k := Slot(DUMMY, q[p][k].events)]], ix[w := 0])
  {
    var p, k := prio(w), IndexOf(ix, w) - 1;
    var r, iy := q[p := q[p][k := Slot(DUMMY, q[p][k].events)]], ix[w := 0];
    forall v ensures Indexed(prio, r, iy, v) { assert Indexed(prio, q, ix, v); }
    forall p', k' | 0 <= p' < |r| && 0 <= k' < |r[p']| ensures SlotOk(prio, r, iy, p', k') {
      assert SlotOk(prio, q, ix, p', k');
    }
  }

  lemma ConsistentPop(prio: W -> nat, q: seq<Stack>, ix: map<W, nat>, p: nat)
    requires Consistent(prio, q, ix) && p < |q| && q[p] != []
    ensures var n := |q[p]| - 1; Consistent(prio, q[p := q[p][..n]], ix[q[p][n].w := 0])
  {
    var n := |q[p]| - 1;
    var r, iy := q[p := q[p][..n]], ix[q[p][n].w := 0];
    assert SlotOk(prio, q, ix, p, n);
    forall v ensures Indexed(prio, r, iy, v) { assert Indexed(prio, q, ix, v); }
    forall p', k' | 0 <= p' < |r| && 0 <= k' < |r[p']| ensures SlotOk(prio, r, iy, p', k') {
      assert SlotOk(prio, q, ix, p', k');
    }
  }

  lemma LiveAllUpdate(q: seq<Stack>, p: nat, s: Stack)
    requires p < |q|
    ensures LiveAll(q[p := s]) == LiveAll(q)[p := Live(s)]
  {
  }

  lemma {:induction false} LiveFrom(s: Stack, k: nat)
    requires k < |Live(s)|
    ensures Live(s)[k].w != DUMMY && exists i :: 0 <= i < |s| && s[i] == Live(s)[k]
  {
    var h := if s[0].w == DUMMY then [] else [s[0]];
    if k < |h| {
      assert s[0] == Live(s)[k];
    } else {
      LiveFrom(s[1..], k - |h|);
      var i :| 0 <= i < |s[1..]| && s[1..][i] == Live(s[1..])[k - |h|];
      assert s[i + 1] == Live(s)[k];
    }
  }

  /** What `ClearedNeverInvoked` asks of the stacks always holds of libev's queues. */
  lemma LiveSingle(prio: W -> nat, q: seq<Stack>, ix: map<W, nat>, v: W)
    requires Consistent(prio, q, ix) && v != DUMMY
    ensures PendingLaws.Single(LiveAll(q), prio, v)
  {
    OneSlot(prio, q, ix, v);
    forall p | 0 <= p < |q| ensures PendingLaws.Once(Live(q[p]), v) && (In(Live(q[p]), v) ==> p == prio(v)) {
      LiveIn(q[p], v);
      forall i, j | 0 <= i < j < |q[p]| ensures q[p][i].w != v || q[p][j].w != v {
        assert SlotOk(prio, q, ix, p, i) && SlotOk(prio, q, ix, p, j);
      }
      LiveOnce(q[p], v);
      forall i | 0 <= i < |q[p]| && q[p][i].w == v ensures p == prio(v) {
        assert SlotOk(prio, q, ix, p, i);
      }
    }
  }

  lemma {:induction false} LiveOnce(s: Stack, v: W)
    requires PendingLaws.Once(s, v)
    ensures PendingLaws.Once(Live(s), v)
  {
    if s != [] {
      assert [s[0]] + s[1..] == s;
      PendingLaws.OnceCons(s[0], s[1..], v);
      LiveOnce(s[1..], v);
      LiveIn(s[1..], v);
      if s[0].w != DUMMY {
        PendingLaws.OnceCons(s[0], Live(s[1..]), v);
      }
    }
  }

  /** Live watchers sit in the queue of their priority, and only pending watchers are live. */
  lemma LivePlaced(prio: W -> nat, q: seq<Stack>, ix: map<W, nat>)
    requires Consistent(prio, q, ix)
    ensures forall p, k :: 0 <= p < |q| && 0 <= k < |LiveAll(q)[p]| ==> prio(LiveAll(q)[p][k].w) == p
    ensures forall w, p :: w != DUMMY && IndexOf(ix, w) == 0 && 0 <= p < |q| ==> !In(LiveAll(q)[p], w)
  {
    forall p, k | 0 <= p < |q| && 0 <= k < |LiveAll(q)[p]|
      ensures prio(LiveAll(q)[p][k].w) == p && IndexOf(ix, LiveAll(q)[p][k].w) != 0
    {
      LiveFrom(q[p], k);
      var i :| 0 <= i < |q[p]| && q[p][i] == Live(q[p])[k];
      assert SlotOk(prio, q, ix, p, i);
    }
  }

  class PendingQueues {
    const prio: W -> nat
    var pendings: seq<seq<Slot>>
    var index: map<W, nat>
    var pendingpri: int

    constructor (prio: W -> nat, numpri: nat)
      requires forall w :: prio(w) < numpri
      ensures Valid() && Empty(Stacks()) && this.prio == prio && |pendings| == numpri
    {
      this.prio := prio;
      pendings := seq(numpri, _ => []);
      index := map[];
      pendingpri := 0;
    }

    ghost predicate Valid()
      reads this
    {
      Consistent(prio, pendings, index)
    }

    ghost function Stacks(): seq<Stack>
      reads this
    {
      LiveAll(pendings)
    }

    /** `ev_feed_event`. */
    method FeedEvent(w: W, events: Revents)
      requires Valid() && w != DUMMY
      modifies this
      ensures Valid() && |pendings| == old(|pendings|)
      ensures Stacks() == ApplyOp(old(Stacks()), prio, Feed(w, events))
      ensures pendingpri == |pendings| - 1
    {
      var p := prio(w);
      ghost var q := pendings;
      OneSlot(prio, q, index, w);
      if IndexOf(index, w) != 0 {
        var k := IndexOf(index, w) - 1;
        SlotUpdate(q[p], k, events);
        ConsistentRewrite(prio, q, index, p, k, Slot(w, q[p][k].events + events));
        pendings := pendings[p := pendings[p][k := Slot(w, pendings[p][k].events + events)]];
      } else {
        FeedStackAbsent(Live(q[p]), w, events);
        LiveConcat(q[p], [Slot(w, events)]);
        assert Live([Slot(w, events)]) == [Slot(w, events)] + Live([]);
        ConsistentPush(prio, q, index, Slot(w, events));
        index := index[w := |pendings[p]| + 1];
        pendings := pendings[p := pendings[p] + [Slot(w, events)]];
      }
      assert Live(pendings[p]) == FeedStack(Live(q[p]), w, events);
      LiveAllUpdate(q, p, pendings[p]);
      pendingpri := |pendings| - 1;
    }

    /** `ev_clear_pending`: returns the events the watcher was pending with. */
    method ClearPending(w: W) returns (events: Revents)
      requires Valid() && w != DUMMY
      modifies this`pendings, this`index
      ensures Valid() && |pendings| == old(|pendings|)
      ensures Stacks() == ApplyOp(old(Stacks()), prio, Clear(w))
      ensures IndexOf(index, w) == 0 && events == EventsIn(old(Stacks())[prio(w)], w)
      ensures forall r :: 0 <= r < |pendings| ==> |pendings[r]| == |old(pendings)[r]|
    {
      var p := prio(w);
      ghost var q := pendings;
      OneSlot(prio, q, index, w);
      if IndexOf(index, w) != 0 {
        var k := IndexOf(index, w) - 1;
        SlotUpdate(q[p], k, {});
        ConsistentBlank(prio, q, index, w);
        events := pendings[p][k].events;
        pendings := pendings[p := pendings[p][k := Slot(DUMMY, events)]];
        index := index[w := 0];
        LiveAllUpdate(q, p, pendings[p]);
      } else {
        FeedStackAbsent(Live(q[p]), w, {});
        assert LiveAll(q)[p := Live(q[p])] == LiveAll(q);
        events := {};
      }
    }

    /** A callback's operations. Feeding sends `pendingpri` to the top; clearing shortens no queue. */
    method RunOps(ops: seq<Op>)
      requires Valid() && forall j :: 0 <= j < |ops| ==> ops[j].w != DUMMY
      modifies this
      ensures Valid() && |pendings| == old(|pendings|)
      ensures Stacks() == ApplyOps(old(Stacks()), prio, ops)
      ensures pendingpri == |pendings| - 1 ||
              (pendingpri == old(pendingpri) && forall r :: 0 <= r < |pendings| ==> |pendings[r]| == |old(pendings)[r]|)
    {
      ghost var st := Stacks();
      for i := 0 to |ops|
        invariant Valid() && |pendings| == |st|
        invariant Stacks() == ApplyOps(st, prio, ops[..i])
        invariant pendingpri == |pendings| - 1 ||
                  (pendingpri == old(pendingpri) && forall r :: 0 <= r < |pendings| ==> |pendings[r]| == |old(pendings)[r]|)
      {
        assert ops[..i + 1][..i] == ops[..i];
        match ops[i]
        case Feed(w, events) => FeedEvent(w, events);
        case Clear(w) => var _ := ClearPending(w);
      }
      assert ops[..|ops|] == ops;
    }

    /** Take the last slot of queue `p` off; a dummy leaves the live view alone. */
    method Pop(p: nat) returns (x: Slot)
      requires Valid() && p < |pendings| && pendings[p] != []
      requires forall r :: p < r < |pendings| ==> pendings[r] == []
      modifies this`pendings, this`index
      ensures Valid() && |pendings| == old(|pendings|)
      ensures forall r :: p < r < |pendings| ==> pendings[r] == []
      ensures Total(pendings) == Total(old(pendings)) - 1
      ensures x.w == DUMMY ==> Stacks() == old(Stacks())
      ensures x.w != DUMMY ==> TopOf(old(Stacks()), x) && Stacks() == Popped(old(Stacks()))
    {
      ghost var q := pendings;
      var n := |pendings[p]| - 1;
      x := pendings[p][n];
      ConsistentPop(prio, q, index, p);
      TotalUpdate(q, p, q[p][..n]);
      LivePop(q, p);
      pendings := pendings[p := pendings[p][..n]];
      index := index[x.w := 0];
    }

    /** One turn of the inner loop: take a slot off and run its callback. */
    method InvokeOne(script: seq<seq<Op>>) returns (log: seq<Slot>, rest: seq<seq<Op>>)
      requires Valid() && 0 <= pendingpri < |pendings| && pendings[pendingpri] != [] && Proper(script)
      requires forall r :: pendingpri < r < |pendings| ==> pendings[r] == []
      modifies this
      ensures Valid() && |pendings| == old(|pendings|) && 0 <= pendingpri < |pendings| && Proper(rest)
      ensures forall r :: pendingpri < r < |pendings| ==> pendings[r] == []
      ensures |rest| < |script| || (rest == script && Total(pendings) < Total(old(pendings)))
      ensures Continues(InvokeAll(old(Stacks()), prio, script), log, Stacks(), prio, rest)
    {
      rest := script;
      var x := Pop(pendingpri);
      if x.w == DUMMY {
        log := [];
        NothingLogged(InvokeAll(Stacks(), prio, rest), Stacks(), prio, rest);
      } else {
        log := [x];
        if rest != [] {
          rest := rest[1..];
          RunOps(script[0]);
        }
      }
    }

    /** `ev_invoke_pending`, with callbacks that do what `script` says. */
    method InvokePending(script: seq<seq<Op>>) returns (log: seq<Slot>)
      requires Valid() && |pendings| > 0 && Proper(script)
      modifies this
      ensures Valid() && |pendings| == old(|pendings|) && Empty(pendings)
      ensures (Stacks(), log) == InvokeAll(old(Stacks()), prio, script)
    {
      log := [];
      var rest := script;
      ghost var all := InvokeAll(Stacks(), prio, script);
      pendingpri := |pendings|;
      NothingLogged(all, Stacks(), prio, rest);
      while pendingpri > 0
        invariant Valid() && |pendings| == |old(pendings)| && 0 <= pendingpri <= |pendings|
        invariant forall r :: pendingpri <= r < |pendings| ==> pendings[r] == []
        invariant Proper(rest) && Continues(all, log, Stacks(), prio, rest)
        decreases |rest|, Total(pendings), pendingpri
      {
        ghost var rest0, total0, pri0 := |rest|, Total(pendings), pendingpri;
        pendingpri := pendingpri - 1;
        while pendings[pendingpri] != []
          invariant Valid() && |pendings| == |old(pendings)| && 0 <= pendingpri < |pendings|
          invariant forall r :: pendingpri < r < |pendings| ==> pendings[r] == []
          invariant Proper(rest) && Continues(all, log, Stacks(), prio, rest)
          invariant |rest| < rest0 || (|rest| == rest0 &&
                      (Total(pendings) < total0 || (Total(pendings) == total0 && pendingpri < pri0)))
          decreases |rest|, Total(pendings)
        {
          var more;
          ghost var st, r0 := Stacks(), rest;
          more, rest := InvokeOne(rest);
          Chain(all, log, st, r0, more, Stacks(), prio, rest);
          log := log + more;
        }
      }
      assert Empty(Stacks());
      assert log + [] == log;
    }
  }

  ghost predicate TopOf(st: seq<Stack>, x: Slot) {
    !Empty(st) && var top := st[Highest(st)]; x == top[|top| - 1]
  }

  lemma LivePop(q: seq<Stack>, p: nat)
    requires p < |q| && q[p] != [] && forall r :: p < r < |q| ==> q[r] == []
    ensures var n := |q[p]| - 1;
            var t := LiveAll(q[p := q[p][..n]]);
            if q[p][n].w == DUMMY then t == LiveAll(q)
            else TopOf(LiveAll(q), q[p][n]) && t == Popped(LiveAll(q))
  {
    var n := |q[p]| - 1;
    var x, l := q[p][n], Live(q[p][..n]);
    LiveParts(q[p][..n], x, []);
    assert q[p] == q[p][..n] + [x] + [];
    LiveAllUpdate(q, p, q[p][..n]);
    if x.w == DUMMY {
      assert Live(q[p]) == l;
      assert LiveAll(q)[p := l] == LiveAll(q);
    } else {
      assert Live(q[p]) == l + [x];
      HighestIs(LiveAll(q), p);
      assert (l + [x])[..|l|] == l;
    }
  }

  /** Having logged `log`, what is left to do from `st` with `rest` completes `all`. */
  ghost predicate Continues(all: (seq<Stack>, seq<Slot>), log: seq<Slot>, st: seq<Stack>, prio: W -> nat, rest: seq<seq<Op>>)
    requires forall w :: prio(w) < |st|
  {
    all == (InvokeAll(st, prio, rest).0, log + InvokeAll(st, prio, rest).1)
  }

  lemma NothingLogged(all: (seq<Stack>, seq<Slot>), st: seq<Stack>, prio: W -> nat, rest: seq<seq<Op>>)
    requires forall w :: prio(w) < |st|
    requires all == InvokeAll(st, prio, rest)
    ensures Continues(all, [], st, prio, rest)
  {
    assert [] + all.1 == all.1;
  }

  lemma Chain(all: (seq<Stack>, seq<Slot>), log: seq<Slot>, st: seq<Stack>, rest: seq<seq<Op>>,
              more: seq<Slot>, st': seq<Stack>, prio: W -> nat, rest': seq<seq<Op>>)
    requires (forall w :: prio(w) < |st|) && (forall w :: prio(w) < |st'|)
    requires Continues(all, log, st, prio, rest)
    requires Continues(InvokeAll(st, prio, rest), more, st', prio, rest')
    ensures Continues(all, log + more, st', prio, rest')
  {
    var l := InvokeAll(st', prio, rest').1;
    assert log + (more + l) == (log + more) + l;
  }
}
