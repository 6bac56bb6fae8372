/**
 libhv's timers: two pointer heaps, one for relative and one for calendar timers, and the loop
 counters they share.
 */
module HloopTimers {
  import opened Common
  import opened HeapShape
  import opened PointerHeap

  type U32 = x: nat | x < 0x1_0000_0000
  const INFINITE: U32 := 0xFFFF_FFFF

  /** Relative timers have the highest priority, calendar timers the high one. */
  datatype Kind = Timeout | Period

  /** An `htimer_t`, but for its deadline, which is the key of its heap node. */
  datatype Timer = Timer(kind: Kind, ms: nat, repeat: U32, destroy: bool, active: bool, pending: bool)

  // ---------- Deadlines ----------

  /** Long round timeouts are cut to tenths of a second. */
  function Deadline(now: nat, ms: nat): nat {
    if ms >= 1000 && ms % 100 == 0 then (now + ms * 1000) / 100000 * 100000 else now + ms * 1000
  }

  /** Cutting never makes a timer due at once, and costs it less than a tenth of a second. */
  lemma DeadlineNear(now: nat, ms: nat)
    requires ms > 0
    ensures now < Deadline(now, ms) <= now + ms * 1000 < Deadline(now, ms) + 100000
  {
  }

  /** The deadline after catching up: whole periods past `key`, the first beyond `now`. */
  function CaughtUp(key: int, step: int, now: int): (r: int)
    requires step > 0
    ensures r > now
    decreases now - key
  {
    if key > now then key else CaughtUp(key + step, step, now)
  }

  method CatchUp(key: int, step: int, now: int) returns (next: int)
    requires step > 0
    ensures next == CaughtUp(key, step, now)
  {
    next := key;
    while next <= now
      invariant CaughtUp(next, step, now) == CaughtUp(key, step, now)
      decreases now - next
    {
      next := next + step;
    }
  }

  lemma {:induction false} CaughtUpLeast(key: int, step: int, now: int) returns (k: nat)
    requires step > 0
    ensures CaughtUp(key, step, now) == key + k * step > now
    ensures forall j: nat :: key + j * step > now ==> j >= k
    ensures key <= now ==> k >= 1
    decreases now - key
  {
    if key > now {
      k := 0;
    } else {
      var k1 := CaughtUpLeast(key + step, step, now);
      k := k1 + 1;
      assert k * step == k1 * step + step;
      forall j: nat | key + j * step > now ensures j >= k {
        if j > 0 {
          assert j * step == (j - 1) * step + step;
        }
      }
    }
  }

  /** Only round timeouts of a second or more are cut, to whole tenths of a second. */
  lemma DeadlineExact(now: nat, ms: nat)
    ensures ms >= 1000 && ms % 100 == 0 ==> Deadline(now, ms) % 100000 == 0
    ensures ms < 1000 || ms % 100 != 0 ==> Deadline(now, ms) == now + ms * 1000
  {
  }

  method DeadlineFor(now: nat, ms: nat) returns (key: nat)
    ensures key == Deadline(now, ms)
  {
    key := now + ms * 1000;
    if ms >= 1000 && ms % 100 == 0 {
      key := key / 100000 * 100000;
    }
  }

  // ---------- What one firing does ----------

  /** An unsigned decrement, which spares INFINITE. */
  function Spent(repeat: U32): U32 {
    if repeat == INFINITE then repeat else if repeat == 0 then INFINITE else repeat - 1
  }

  function Fired(t: Timer): Timer {
    t.(repeat := Spent(t.repeat), destroy := t.destroy || Spent(t.repeat) == 0, pending := true)
  }

  /** A relative timer after a reset: live, active, not pending, with at least one firing left. */
  function Restarted(t: Timer, ms: nat): Timer {
    Timer(Timeout, if ms > 0 then ms else t.ms, if t.repeat == 0 then 1 else t.repeat, false, true, false)
  }

  function FiredKey(t: Timer, key: int, now: int, cron: int): int
    requires t.kind == Timeout ==> t.ms > 0
  {
    if Spent(t.repeat) == 0 then key
    else if t.kind == Timeout then CaughtUp(key, t.ms * 1000, now)
    else cron
  }

  /**
   A reset gives the timer the new timeout if there is one and the old one otherwise. A timer with no
   firing left gets exactly one; any other keeps what it has.
   */
  lemma RestartedLaw(t: Timer, ms: nat)
    ensures var r := Restarted(t, ms);
            && r.kind == Timeout && !r.destroy && r.active && !r.pending
            && (ms > 0 ==> r.ms == ms) && (ms == 0 ==> r.ms == t.ms)
            && (t.repeat == 0 ==> Fired(r).destroy) && (t.repeat != 0 ==> r.repeat == t.repeat)
  {
  }

  /**
   Where a firing sends a timer: a spent one nowhere, a calendar timer to its next date, and a due
   relative one to the first whole number of periods after its deadline that lies ahead.
   */
  lemma FiredDeadline(t: Timer, key: int, now: int, cron: int) returns (k: nat)
    requires key <= now && !t.destroy && (t.kind == Timeout ==> t.ms > 0)
    ensures Fired(t).destroy ==> FiredKey(t, key, now, cron) == key
    ensures !Fired(t).destroy && t.kind == Period ==> FiredKey(t, key, now, cron) == cron
    ensures !Fired(t).destroy && t.kind == Timeout ==>
              && k >= 1 && FiredKey(t, key, now, cron) == key + k * (t.ms * 1000) > now
              && forall j: nat :: key + j * (t.ms * 1000) > now ==> j >= k
  {
    k := 1;
    if t.kind == Timeout {
      k := CaughtUpLeast(key, t.ms * 1000, now);
    }
  }

  predicate Loose(c: Cell) {
    c.parent == NULL && c.left == NULL && c.right == NULL
  }

  /** The timers of a kind and the heap they live in. */
  ghost predicate Housed(info: map<Ptr, Timer>, m: Mem, slots: seq<Ptr>, kind: Kind) {
    && (forall p :: p in info && info[p].kind == kind ==> p in m && p != NULL && (p in slots <==> !info[p].destroy))
    && (forall p :: p in info && info[p].kind == kind && info[p].destroy ==> Loose(m[p]))
    && (forall p :: p in slots ==> p in info && info[p].kind == kind)
    && (kind == Timeout ==> forall p :: p in info && info[p].kind == kind ==> info[p].ms > 0)
  }

  lemma BagRemoved(slots: seq<Ptr>, slots': seq<Ptr>, p: Ptr)
    requires NoDuplicates(slots) && p in slots && multiset(slots') == multiset(slots) - multiset{p}
    ensures |slots'| == |slots| - 1 && forall q :: q in slots' <==> q in slots && q != p
  {
    var i := PositionOf(slots, p) - 1;
    var rest := slots[..i] + slots[i + 1..];
    assert slots == slots[..i] + [p] + slots[i + 1..];
    assert multiset(slots') == multiset(rest);
    assert p !in slots[..i] && p !in slots[i + 1..];
    assert |slots'| == |multiset(slots')|;
    forall q ensures q in slots' <==> q in slots && q != p {
      assert q in slots' <==> q in multiset(slots');
      assert q in rest <==> q in multiset(rest);
    }
  }

  lemma BagAdded(slots: seq<Ptr>, slots': seq<Ptr>, p: Ptr)
    requires multiset(slots') == multiset(slots) + multiset{p}
    ensures |slots'| == |slots| + 1 && forall q :: q in slots' <==> q in slots || q == p
  {
    assert |slots'| == |multiset(slots')|;
    forall q ensures q in slots' <==> q in slots || q == p {
      assert q in slots' <==> q in multiset(slots');
    }
  }

  lemma HousedElse(info: map<Ptr, Timer>, m: Mem, slots: seq<Ptr>, p: Ptr, t: Timer, kind: Kind)
    requires Housed(info, m, slots, kind) && t.kind != kind && (p in info ==> info[p].kind != kind)
    ensures Housed(info[p := t], m, slots, kind)
  {
  }

  /** A removed timer is marked; the rest stay as they were. */
  lemma HousedRemoved(info: map<Ptr, Timer>, m: Mem, m': Mem, slots: seq<Ptr>, slots': seq<Ptr>, p: Ptr, t: Timer)
    requires Housed(info, m, slots, t.kind) && p in slots && p in info && t.destroy && t.ms == info[p].ms
    requires m'.Keys == m.Keys && Spared(m, m', Outside(m, slots)) && p in m' && Loose(m'[p])
    requires forall q :: q in slots' <==> q in slots && q != p
    ensures Housed(info[p := t], m', slots', t.kind)
  {
  }

  /** A timer newly in the heap is live. */
  lemma HousedAdded(info: map<Ptr, Timer>, m: Mem, m': Mem, slots: seq<Ptr>, slots': seq<Ptr>, p: Ptr, t: Timer)
    requires Housed(info, m, slots, t.kind) && p !in slots && p != NULL && !t.destroy && (t.kind == Timeout ==> t.ms > 0)
    requires m'.Keys == m.Keys + {p} && Spared(m, m', Outside(m, slots) - {p})
    requires forall q :: q in slots' <==> q in slots || q == p
    ensures Housed(info[p := t], m', slots', t.kind)
  {
  }

  /** Repeat count and flags other than `destroy` do not matter to the heap. */
  lemma HousedFlags(info: map<Ptr, Timer>, m: Mem, slots: seq<Ptr>, p: Ptr, t: Timer, kind: Kind)
    requires Housed(info, m, slots, kind) && p in info
    requires t.kind == info[p].kind && t.destroy == info[p].destroy && t.ms == info[p].ms
    ensures Housed(info[p := t], m, slots, kind)
  {
  }

  /** A spent timer may be freed. */
  lemma HousedForgotten(info: map<Ptr, Timer>, m: Mem, slots: seq<Ptr>, p: Ptr, kind: Kind)
    requires Housed(info, m, slots, kind) && p in info && info[p].destroy
    ensures Housed(info - {p}, m, slots, kind)
  {
  }

  function OtherKind(kind: Kind): Kind { if kind == Timeout then Period else Timeout }

  /** Keys of every node but `p` are as before. */
  ghost predicate KeysBut(m: Mem, m': Mem, p: Ptr) {
    forall q :: q in m && q != p ==> q in m' && m'[q].key == m[q].key
  }

  ghost predicate Wrote(info: map<Ptr, Timer>, info': map<Ptr, Timer>, p: Ptr, t: Timer) {
    && info'.Keys == info.Keys && p in info && info'[p] == t
    && forall q :: q in info && q != p ==> info'[q] == info[q]
  }

  /** The pending list of a priority, once timer `t` at `p` is marked. */
  function Pushed(t: Timer, kind: Kind, p: Ptr, list: seq<Ptr>): seq<Ptr> {
    if t.kind == kind && !t.pending then [p] + list else list
  }

  // ---------- Firing everything due ----------

  /** A pending list once `fired` have been marked in turn. */
  function PushedAll(inf: map<Ptr, Timer>, kind: Kind, fired: seq<Ptr>, list: seq<Ptr>): seq<Ptr>
    requires forall q :: q in fired ==> q in inf
  {
    if fired == [] then list
    else
      var p := fired[|fired| - 1];
      assert p in fired;
      Pushed(inf[p], kind, p, PushedAll(inf, kind, fired[..|fired| - 1], list))
  }

  function NextDate(cron: map<Ptr, int>, p: Ptr): int {
    if p in cron then cron[p] else 0
  }

  /** The timers before a run: those in the heap are live, and calendar dates lie ahead. */
  ghost predicate Before(inf: map<Ptr, Timer>, m: Mem, v: seq<Ptr>, now: int, cron: map<Ptr, int>) {
    && NoDuplicates(v)
    && forall q :: q in v ==>
      && q in inf && q in m && !inf[q].destroy
      && (if inf[q].kind == Timeout then inf[q].ms > 0 else NextDate(cron, q) > now)
  }

  /** Each of `fired` was due and has fired once, the rest of heap `v` is as before. */
  ghost predicate Effect(inf: map<Ptr, Timer>, inf': map<Ptr, Timer>, m: Mem, m': Mem, v: seq<Ptr>, v': seq<Ptr>,
                         fired: seq<Ptr>, now: int, cron: map<Ptr, int>)
    requires Before(inf, m, v, now, cron)
  {
    && NoDuplicates(fired) && (forall q :: q in fired ==> q in v && m[q].key <= now)
    && inf'.Keys == inf.Keys && (forall q :: q in inf ==> inf'[q] == if q in fired then Fired(inf[q]) else inf[q])
    && (forall q :: q in m ==> q in m')
    && (forall q :: q in m && q !in fired ==> m'[q].key == m[q].key)
    && (forall q :: q in fired ==> m'[q].key == FiredKey(inf[q], m[q].key, now, NextDate(cron, q)))
    && (forall q :: q in v' <==> q in v && (q in fired ==> Spent(inf[q].repeat) != 0))
  }

  /** The earliest deadlines go first. */
  ghost predicate InTurn(m: Mem, v: seq<Ptr>, fired: seq<Ptr>) {
    && (forall i, j :: 0 <= i < j < |fired| && fired[i] in m && fired[j] in m ==> m[fired[i]].key <= m[fired[j]].key)
    && (forall q, r :: q in fired && r in v && r !in fired && q in m && r in m ==> m[q].key <= m[r].key)
  }

  lemma EffectStep(inf: map<Ptr, Timer>, inf': map<Ptr, Timer>, inf'': map<Ptr, Timer>, m: Mem, m': Mem, m'': Mem,
                   v: seq<Ptr>, v': seq<Ptr>, v'': seq<Ptr>, fired: seq<Ptr>, p: Ptr, now: int, cron: map<Ptr, int>)
    requires Before(inf, m, v, now, cron) && Effect(inf, inf', m, m', v, v', fired, now, cron)
    requires p in v' && p in m' && m'[p].key <= now && Wrote(inf', inf'', p, Fired(inf'[p]))
    requires p in m'' && KeysBut(m', m'', p) && (inf'[p].kind == Timeout ==> inf'[p].ms > 0)
    requires m''[p].key == FiredKey(inf'[p], m'[p].key, now, NextDate(cron, p))
    requires forall q :: q in v'' <==> q in v' && (q != p || Spent(inf'[p].repeat) != 0)
    ensures p !in fired && Effect(inf, inf'', m, m'', v, v'', fired + [p], now, cron)
  {
  }

  lemma InTurnStep(inf: map<Ptr, Timer>, inf': map<Ptr, Timer>, m: Mem, m': Mem, v: seq<Ptr>, v': seq<Ptr>,
                   fired: seq<Ptr>, p: Ptr, now: int, cron: map<Ptr, int>)
    requires Before(inf, m, v, now, cron) && Effect(inf, inf', m, m', v, v', fired, now, cron) && InTurn(m, v, fired)
    requires p in v' && p !in fired && forall q :: q in v' && q in m' ==> m'[p].key <= m'[q].key
    ensures InTurn(m, v, fired + [p])
  {
  }

  lemma AllFired(inf: map<Ptr, Timer>, inf': map<Ptr, Timer>, m: Mem, m': Mem, v: seq<Ptr>, v': seq<Ptr>, root: Ptr,
                 fired: seq<Ptr>, now: int, cron: map<Ptr, int>)
    requires Before(inf, m, v, now, cron) && Effect(inf, inf', m, m', v, v', fired, now, cron)
    requires v' == [] || (root in v' && root in m' && m'[root].key > now && forall q :: q in v' && q in m' ==> m'[root].key <= m'[q].key)
    ensures forall p :: p in v ==> (p in fired <==> m[p].key <= now)
    ensures forall p :: p in v' ==> p in m' && m'[p].key > now
  {
  }

  // ---------- How often a timer fires ----------

  /** The timers and one of their heaps at some moment. */
  datatype Snapshot = Snapshot(info: map<Ptr, Timer>, mem: Mem, slots: seq<Ptr>)

  /** One pass of `__hloop_process_timers`. */
  datatype Pass = Pass(before: Snapshot, after: Snapshot, fired: seq<Ptr>, now: int)

  ghost predicate Legal(a: Pass, cron: map<Ptr, int>) {
    && Before(a.before.info, a.before.mem, a.before.slots, a.now, cron)
    && Effect(a.before.info, a.after.info, a.before.mem, a.after.mem, a.before.slots, a.after.slots, a.fired, a.now, cron)
  }

  /** Between passes pending timers are run, which clears the mark; the heap stays as it is. */
  ghost predicate Carried(a: Snapshot, b: Snapshot) {
    && (forall p :: p in a.slots <==> p in b.slots)
    && forall p :: p in a.slots && p in a.info ==> p in b.info && b.info[p] == a.info[p].(pending := b.info[p].pending)
  }

  ghost predicate Chained(passes: seq<Pass>, cron: map<Ptr, int>) {
    && (forall i :: 0 <= i < |passes| ==> Legal(passes[i], cron))
    && forall i, j :: 0 <= i && j == i + 1 < |passes| ==> Carried(passes[i].after, passes[j].before)
  }

  function Firings(passes: seq<Pass>, p: Ptr): nat {
    if passes == [] then 0
    else
      var n := |passes| - 1;
      Firings(passes[..n], p) + if p in passes[n].fired then 1 else 0
  }

  /**
   Over any passes a timer added with a finite repeat count fires at most that often. It stays in the
   heap until then, with the count going down by one at each firing, and is given up at the last.
   */
  lemma {:induction false} FiresRepeatTimes(passes: seq<Pass>, cron: map<Ptr, int>, p: Ptr)
    requires passes != [] && Chained(passes, cron) && p in passes[0].before.slots && p in passes[0].before.info
    requires 0 < passes[0].before.info[p].repeat < INFINITE
    ensures var repeat, n, last := passes[0].before.info[p].repeat, Firings(passes, p), passes[|passes| - 1];
            && n <= repeat && (p in last.after.slots <==> n < repeat)
            && (p in last.after.slots ==> p in last.after.info && last.after.info[p].repeat == repeat - n)
            && (p in last.fired && n == repeat ==> p in last.after.info && last.after.info[p].destroy)
    decreases |passes|
  {
    var n := |passes| - 1;
    assert Legal(passes[n], cron);
    if n > 0 {
      var rest := passes[..n];
      assert rest[n - 1] == passes[n - 1] && rest[0] == passes[0];
      FiresRepeatTimes(rest, cron, p);
      assert Carried(passes[n - 1].after, passes[n].before);
    }
  }

  /** A timer without a limit is never given up. */
  lemma {:induction false} FiresForever(passes: seq<Pass>, cron: map<Ptr, int>, p: Ptr)
    requires passes != [] && Chained(passes, cron) && p in passes[0].before.slots && p in passes[0].before.info
    requires passes[0].before.info[p].repeat == INFINITE
    ensures var last := passes[|passes| - 1];
            p in last.after.slots && p in last.after.info && last.after.info[p].repeat == INFINITE
    decreases |passes|
  {
    var n := |passes| - 1;
    assert Legal(passes[n], cron);
    if n > 0 {
      var rest := passes[..n];
      assert rest[n - 1] == passes[n - 1] && rest[0] == passes[0];
      FiresForever(rest, cron, p);
      assert Carried(passes[n - 1].after, passes[n].before);
    }
  }

  /** A timer added with a count of 0 has no limit from its first firing on. */
  lemma ZeroMeansForever(t: Timer)
    requires t.repeat == 0 && !t.destroy
    ensures Fired(t).repeat == INFINITE && !Fired(t).destroy
  {
  }

  /** The fired timers of a kind that were not marked yet. */
  function FreshOnes(inf: map<Ptr, Timer>, kind: Kind, fired: seq<Ptr>): seq<Ptr>
    requires forall q :: q in fired ==> q in inf
  {
    if fired == [] then []
    else
      var n := |fired| - 1;
      var p := fired[n];
      assert p in fired;
      FreshOnes(inf, kind, fired[..n]) + if inf[p].kind == kind && !inf[p].pending then [p] else []
  }

  function Backwards(s: seq<Ptr>): seq<Ptr> {
    if s == [] then [] else [s[|s| - 1]] + Backwards(s[..|s| - 1])
  }

  /** A pending list gains those, last fired first, and keeps what it held. */
  lemma {:induction false} PushedExactly(inf: map<Ptr, Timer>, kind: Kind, fired: seq<Ptr>, list: seq<Ptr>)
    requires forall q :: q in fired ==> q in inf
    ensures PushedAll(inf, kind, fired, list) == Backwards(FreshOnes(inf, kind, fired)) + list
    decreases |fired|
  {
    if fired != [] {
      var n := |fired| - 1;
      var p, rest := fired[n], FreshOnes(inf, kind, fired[..n]);
      assert p in fired;
      PushedExactly(inf, kind, fired[..n], list);
      if inf[p].kind == kind && !inf[p].pending {
        assert (rest + [p])[..|rest|] == rest;
        assert [p] + (Backwards(rest) + list) == [p] + Backwards(rest) + list;
      } else {
        assert rest + [] == rest;
      }
    }
  }

  /**
   The pending list is a stack: fresh timers of one kind stand in front of what was there, the one
   with the latest deadline first. `hloop_process_pendings` walks it from the front.
   */
  lemma LatestDeadlineFirst(inf: map<Ptr, Timer>, m: Mem, v: seq<Ptr>, kind: Kind, fired: seq<Ptr>, list: seq<Ptr>)
    requires InTurn(m, v, fired)
    requires forall q :: q in fired ==> q in inf && q in m && inf[q].kind == kind && !inf[q].pending
    ensures var all := PushedAll(inf, kind, fired, list);
            && |all| == |fired| + |list| && all[|fired|..] == list
            && (forall i :: 0 <= i < |fired| ==> all[i] == fired[|fired| - 1 - i])
            && (forall i, j :: 0 <= i < j < |fired| ==> m[all[j]].key <= m[all[i]].key)
  {
    PushedExactly(inf, kind, fired, list);
    AllFresh(inf, kind, fired);
    BackwardsList(fired, list);
    var all := PushedAll(inf, kind, fired, list);
    forall i, j | 0 <= i < j < |fired| ensures m[all[j]].key <= m[all[i]].key {
      var a, b := |fired| - 1 - j, |fired| - 1 - i;
      assert fired[a] in fired && fired[b] in fired;
    }
  }

  lemma {:induction false} AllFresh(inf: map<Ptr, Timer>, kind: Kind, fired: seq<Ptr>)
    requires forall q :: q in fired ==> q in inf && inf[q].kind == kind && !inf[q].pending
    ensures FreshOnes(inf, kind, fired) == fired
    decreases |fired|
  {
    if fired != [] {
      var n := |fired| - 1;
      assert fired[n] in fired && fired == fired[..n] + [fired[n]];
      AllFresh(inf, kind, fired[..n]);
    }
  }

  lemma BackwardsList(s: seq<Ptr>, list: seq<Ptr>)
    ensures var all := Backwards(s) + list;
            && |all| == |s| + |list| && all[|s|..] == list
            && forall i :: 0 <= i < |s| ==> all[i] == s[|s| - 1 - i]
  {
    forall i | 0 <= i < |s| ensures |Backwards(s)| == |s| && Backwards(s)[i] == s[|s| - 1 - i] {
      BackwardsAt(s, i);
    }
    assert s == [] ==> Backwards(s) == [];
  }

  lemma {:induction false} BackwardsAt(s: seq<Ptr>, i: nat)
    requires i < |s|
    ensures |Backwards(s)| == |s| && Backwards(s)[i] == s[|s| - 1 - i]
    decreases |s|
  {
    var n := |s| - 1;
    if n > 0 {
      BackwardsAt(s[..n], if i > 0 then i - 1 else 0);
    }
  }

  lemma PushedOne(inf: map<Ptr, Timer>, kind: Kind, fired: seq<Ptr>, p: Ptr, list: seq<Ptr>)
    requires p in inf && forall q :: q in fired ==> q in inf
    ensures PushedAll(inf, kind, fired + [p], list) == Pushed(inf[p], kind, p, PushedAll(inf, kind, fired, list))
  {
  }

  lemma {:induction false} FewFired(fired: seq<Ptr>, v: seq<Ptr>)
    requires NoDuplicates(fired) && forall q :: q in fired ==> q in v
    ensures |fired| <= |v|
  {
    if fired != [] {
      var n := |fired| - 1;
      var p := fired[n];
      var i := PositionOf(v, p) - 1;
      var rest := v[..i] + v[i + 1..];
      assert v == v[..i] + [p] + v[i + 1..];
      forall q | q in fired[..n] ensures q in rest {
        assert q != p && q in fired;
      }
      FewFired(fired[..n], rest);
    }
  }

  class TimerLoop {
    const timers: Heap
    const realtimers: Heap
    var info: map<Ptr, Timer>
    var ntimers: int
    var npendings: int
    /** Pending lists by priority, newest first. */
    var highest: seq<Ptr>
    var high: seq<Ptr>

    constructor ()
      ensures Valid() && fresh(timers) && fresh(realtimers) && info == map[] && ntimers == 0
    {
      timers := new Heap();
      realtimers := new Heap();
      info, ntimers, npendings, highest, high := map[], 0, 0, [], [];
    }

    ghost predicate Valid()
      reads this, timers, realtimers
    {
      && timers != realtimers && timers.Valid() && realtimers.Valid()
      && Housed(info, timers.mem, timers.slots, Timeout)
      && Housed(info, realtimers.mem, realtimers.slots, Period)
      && ntimers == |timers.slots| + |realtimers.slots|
    }

    function HeapOf(kind: Kind): Heap {
      if kind == Timeout then timers else realtimers
    }

    /** `__htimer_del` */
    method Drop(h: Heap, p: Ptr)
      requires Valid() && p in info && h == HeapOf(info[p].kind)
      modifies this`info, this`ntimers, h
      ensures Valid() && Wrote(old(info), info, p, old(info)[p].(destroy := true))
      ensures ntimers == if old(info)[p].destroy then old(ntimers) else old(ntimers) - 1
      ensures SameKeys(old(h.mem), h.mem) && forall q :: q in h.slots <==> q in old(h.slots) && q != p
    {
      if info[p].destroy {
        return;
      }
      Lift(h, p);
      ntimers := ntimers - 1;
      info := info[p := info[p].(destroy := true)];
    }

    method Unhook(h: Heap, p: Ptr, ghost inf: map<Ptr, Timer>, ghost t: Timer)
      requires h.Valid() && Housed(inf, h.mem, h.slots, t.kind) && p in h.slots && p in inf && t.destroy && t.ms == inf[p].ms
      modifies h
      ensures h.Valid() && Housed(inf[p := t], h.mem, h.slots, t.kind) && SameKeys(old(h.mem), h.mem)
      ensures |h.slots| == |old(h.slots)| - 1 && forall q :: q in h.slots <==> q in old(h.slots) && q != p
    {
      ghost var m, v := h.mem, h.slots;
      h.Remove(p);
      BagRemoved(v, h.slots, p);
      HousedRemoved(inf, m, h.mem, v, h.slots, p, t);
    }

    /** Set the deadline of a timer outside the heap, and insert it. */
    method Seat(h: Heap, p: Ptr, key: int, zeroed: bool, ghost inf: map<Ptr, Timer>, ghost t: Timer)
      requires h.Valid() && Housed(inf, h.mem, h.slots, t.kind) && p != NULL && !t.destroy && (t.kind == Timeout ==> t.ms > 0)
      requires if p in inf then inf[p].kind == t.kind && inf[p].destroy else zeroed
      modifies h
      ensures h.Valid() && Housed(inf[p := t], h.mem, h.slots, t.kind)
      ensures p in h.mem && h.mem[p].key == key && KeysBut(old(h.mem), h.mem, p) && h.mem.Keys == old(h.mem).Keys + {p}
      ensures |h.slots| == |old(h.slots)| + 1 && forall q :: q in h.slots <==> q in old(h.slots) || q == p
    {
      ghost var m, v := h.mem, h.slots;
      h.Embed(p, key, zeroed);
      h.Insert(p);
      BagAdded(v, h.slots, p);
      HousedAdded(inf, m, h.mem, v, h.slots, p, t);
    }

    /** `htimer_add`, null for a zero timeout; `p` is the block the allocator returned. */
    method AddTimeout(p: Ptr, now: nat, ms: nat, repeat: U32) returns (timer: Ptr)
      requires Valid() && p != NULL && p !in info
      modifies this`info, this`ntimers, timers
      ensures Valid()
      ensures ms == 0 ==> timer == NULL && info == old(info) && ntimers == old(ntimers)
      ensures ms > 0 ==> timer == p && ntimers == old(ntimers) + 1
                         && info == old(info)[p := Timer(Timeout, ms, repeat, false, true, false)]
                         && p in timers.mem && timers.mem[p].key == Deadline(now, ms)
      ensures KeysBut(old(timers.mem), timers.mem, p)
    {
      if ms == 0 {
        return NULL;
      }
      var t := Timer(Timeout, ms, repeat, false, true, false);
      var key := DeadlineFor(now, ms);
      Seat(timers, p, key, true, info, t);
      HousedElse(info, realtimers.mem, realtimers.slots, p, t, Period);
      info := info[p := t];
      ntimers := ntimers + 1;
      timer := p;
    }

    /** `htimer_add_period`, null for a time no calendar has; `next` is what the calendar says. */
    method AddPeriod(p: Ptr, minute: int, hour: int, day: int, week: int, month: int, next: int, repeat: U32) returns (timer: Ptr)
      requires Valid() && p != NULL && p !in info
      modifies this`info, this`ntimers, realtimers
      ensures Valid() && KeysBut(old(realtimers.mem), realtimers.mem, p)
      ensures timer == if minute <= 59 && hour <= 23 && day <= 31 && week <= 6 && month <= 12 then p else NULL
      ensures timer == NULL ==> info == old(info) && ntimers == old(ntimers)
      ensures timer == p ==> ntimers == old(ntimers) + 1
                             && info == old(info)[p := Timer(Period, 0, repeat, false, true, false)]
                             && p in realtimers.mem && realtimers.mem[p].key == next
    {
      if minute > 59 || hour > 23 || day > 31 || week > 6 || month > 12 {
        return NULL;
      }
      var t := Timer(Period, 0, repeat, false, true, false);
      Seat(realtimers, p, next, true, info, t);
      HousedElse(info, timers.mem, timers.slots, p, t, Timeout);
      info := info[p := t];
      ntimers := ntimers + 1;
      timer := p;
    }

    /**
     `htimer_reset`: a spent timer comes back, a live one moves; calendar timers are refused. The pending
     lists and their count are not touched, though the timer's own mark is cleared.
     */
    method Reset(p: Ptr, now: nat, ms: nat)
      requires Valid() && p in info
      modifies this`info, this`ntimers, timers
      ensures Valid()
      ensures old(info)[p].kind == Period ==> info == old(info) && ntimers == old(ntimers)
      ensures old(info)[p].kind == Timeout ==>
                var t := old(info)[p];
                && Wrote(old(info), info, p, Restarted(t, ms))
                && p in timers.mem && timers.mem[p].key == Deadline(now, Restarted(t, ms).ms)
                && ntimers == old(ntimers) + if t.destroy then 1 else 0
      ensures KeysBut(old(timers.mem), timers.mem, p)
    {
      if info[p].kind != Timeout {
        return;
      }
      LiftAny(timers, p);
      ComeBack(p, now, ms);
    }

    /** The second half of `htimer_reset`. */
    method ComeBack(p: Ptr, now: nat, ms: nat)
      requires Lifted(p) && info[p].kind == Timeout && info[p].ms > 0
      modifies this`info, timers
      ensures Valid() && Wrote(old(info), info, p, Restarted(old(info)[p], ms)) && KeysBut(old(timers.mem), timers.mem, p)
      ensures p in timers.mem && timers.mem[p].key == Deadline(now, Restarted(old(info)[p], ms).ms)
    {
      var t := info[p].(destroy := false, active := true, pending := false);
      if t.repeat == 0 {
        t := t.(repeat := 1);
      }
      if ms > 0 {
        t := t.(ms := ms);
      }
      var key := DeadlineFor(now, t.ms);
      Reinsert(timers, p, t, key);
    }

    /** `p` is out of its heap, but still counted. */
    ghost predicate Lifted(p: Ptr)
      reads this, timers, realtimers
    {
      && p in info && timers != realtimers && timers.Valid() && realtimers.Valid()
      && var t := info[p].(destroy := true);
         && Housed(info[p := t], timers.mem, timers.slots, Timeout)
         && Housed(info[p := t], realtimers.mem, realtimers.slots, Period)
         && ntimers == |timers.slots| + |realtimers.slots| + 1
    }

    /** The first half of `htimer_reset`. */
    method LiftAny(h: Heap, p: Ptr)
      requires Valid() && p in info && h == HeapOf(info[p].kind)
      modifies this`ntimers, h
      ensures Lifted(p) && ntimers == old(ntimers) + if info[p].destroy then 1 else 0
      ensures SameKeys(old(h.mem), h.mem)
    {
      if info[p].destroy {
        ntimers := ntimers + 1;
        assert info[p := info[p].(destroy := true)] == info;
      } else {
        Lift(h, p);
      }
    }

    method Lift(h: Heap, p: Ptr)
      requires Valid() && p in info && h == HeapOf(info[p].kind) && !info[p].destroy
      modifies h
      ensures Lifted(p)
      ensures SameKeys(old(h.mem), h.mem) && forall q :: q in h.slots <==> q in old(h.slots) && q != p
    {
      ghost var dead, rest := info[p].(destroy := true), HeapOf(OtherKind(info[p].kind));
      Unhook(h, p, info, dead);
      HousedElse(info, rest.mem, rest.slots, p, dead, OtherKind(dead.kind));
    }

    method Reinsert(h: Heap, p: Ptr, t: Timer, key: int)
      requires Lifted(p) && h == HeapOf(info[p].kind) && t.kind == info[p].kind && !t.destroy && (t.kind == Timeout ==> t.ms > 0)
      modifies this`info, h
      ensures Valid() && Wrote(old(info), info, p, t)
      ensures p in h.mem && h.mem[p].key == key && KeysBut(old(h.mem), h.mem, p) && h.mem.Keys == old(h.mem).Keys + {p}
              && forall q :: q in h.slots <==> q in old(h.slots) || q == p
    {
      ghost var inf, rest := info[p := info[p].(destroy := true)], HeapOf(OtherKind(t.kind));
      Seat(h, p, key, false, inf, t);
      HousedElse(inf, rest.mem, rest.slots, p, t, OtherKind(t.kind));
      assert inf[p := t] == info[p := t];
      info := info[p := t];
    }

    /** `htimer_del`: a timer no longer pending is freed at once. */
    method Delete(p: Ptr)
      requires Valid() && p in info
      modifies this`info, this`ntimers, HeapOf(info[p].kind)
      ensures Valid() && ntimers == old(ntimers) - if old(info)[p].active && !old(info)[p].destroy then 1 else 0
      ensures var t := old(info)[p];
              if !t.active then info == old(info)
              else if t.pending then Wrote(old(info), info, p, t.(active := false, destroy := true))
              else info == old(info) - {p}
      ensures var h := HeapOf(old(info)[p].kind);
              SameKeys(old(h.mem), h.mem)
    {
      if !info[p].active {
        return;
      }
      var h := HeapOf(info[p].kind);
      Drop(h, p);
      Deactivate(p);
    }

    /** `EVENT_DEL` */
    method Deactivate(p: Ptr)
      requires Valid() && p in info && info[p].destroy
      modifies this`info
      ensures Valid()
      ensures if old(info)[p].pending then Wrote(old(info), info, p, old(info)[p].(active := false)) else info == old(info) - {p}
    {
      if info[p].pending {
        Flag(p, info[p].(active := false));
      } else {
        HousedForgotten(info, timers.mem, timers.slots, p, Timeout);
        HousedForgotten(info, realtimers.mem, realtimers.slots, p, Period);
        info := info - {p};
      }
    }

    /** Write flags or the repeat count. */
    method Flag(p: Ptr, t: Timer)
      requires Valid() && p in info
      requires t.kind == info[p].kind && t.destroy == info[p].destroy && t.ms == info[p].ms
      modifies this`info
      ensures Valid() && Wrote(old(info), info, p, t)
    {
      HousedFlags(info, timers.mem, timers.slots, p, t, Timeout);
      HousedFlags(info, realtimers.mem, realtimers.slots, p, t, Period);
      info := info[p := t];
    }

    /** `EVENT_PENDING` */
    method MarkPending(p: Ptr)
      requires Valid() && p in info
      modifies this`info, this`npendings, this`highest, this`high
      ensures Valid() && Wrote(old(info), info, p, old(info)[p].(pending := true))
      ensures highest == Pushed(old(info)[p], Timeout, p, old(highest)) && high == Pushed(old(info)[p], Period, p, old(high))
      ensures npendings == old(npendings) + if old(info)[p].pending then 0 else 1
    {
      if !info[p].pending {
        Flag(p, info[p].(pending := true));
        npendings := npendings + 1;
        if info[p].kind == Timeout {
          highest := [p] + highest;
        } else {
          high := [p] + high;
        }
      }
    }

    /** The decrement in `__hloop_process_timers`. */
    method Spend(p: Ptr)
      requires Valid() && p in info
      modifies this`info
      ensures Valid() && Wrote(old(info), info, p, old(info)[p].(repeat := Spent(old(info)[p].repeat)))
    {
      if info[p].repeat != INFINITE {
        Flag(p, info[p].(repeat := (info[p].repeat + 0xFFFF_FFFF) % 0x1_0000_0000));
      }
    }

    /** Dequeue a timer with firings left and insert it at its next deadline. */
    method Requeue(h: Heap, p: Ptr, now: int, next: int)
      requires Valid() && p in info && !info[p].destroy && h == HeapOf(info[p].kind)
      modifies this`info, h
      ensures Valid() && info == old(info)
      ensures var t := info[p];
              && p in old(h.mem) && p in h.mem && (t.kind == Timeout ==> t.ms > 0)
              && h.mem[p].key == (if t.kind == Timeout then CaughtUp(old(h.mem)[p].key, t.ms * 1000, now) else next)
              && KeysBut(old(h.mem), h.mem, p)
              && forall q :: q in h.slots <==> q in old(h.slots)
    {
      var t := info[p];
      var key := h.mem[p].key;
      Lift(h, p);
      if t.kind == Timeout {
        key := CatchUp(key, t.ms * 1000, now);
      } else {
        key := next;
      }
      Reinsert(h, p, t, key);
    }

    /** One round of `__hloop_process_timers`. */
    method FireRoot(h: Heap, p: Ptr, now: int, next: int)
      requires Valid() && p in info && !info[p].destroy && h == HeapOf(info[p].kind)
      modifies this`info, this`ntimers, this`npendings, this`highest, this`high, h
      ensures Valid() && Wrote(old(info), info, p, Fired(old(info)[p]))
      ensures var t := old(info)[p];
              && p in old(h.mem) && p in h.mem && (t.kind == Timeout ==> t.ms > 0)
              && h.mem[p].key == FiredKey(t, old(h.mem)[p].key, now, next)
              && KeysBut(old(h.mem), h.mem, p)
              && forall q :: q in h.slots <==> q in old(h.slots) && (q != p || Spent(t.repeat) != 0)
      ensures highest == Pushed(old(info)[p], Timeout, p, old(highest)) && high == Pushed(old(info)[p], Period, p, old(high))
      ensures npendings == old(npendings) + if old(info)[p].pending then 0 else 1
    {
      Serve(h, p, now, next);
      MarkPending(p);
    }

    method Serve(h: Heap, p: Ptr, now: int, next: int)
      requires Valid() && p in info && !info[p].destroy && h == HeapOf(info[p].kind)
      modifies this`info, this`ntimers, h
      ensures Valid() && Wrote(old(info), info, p, Fired(old(info)[p]).(pending := old(info)[p].pending))
      ensures var t := old(info)[p];
              && p in old(h.mem) && p in h.mem && (t.kind == Timeout ==> t.ms > 0)
              && h.mem[p].key == FiredKey(t, old(h.mem)[p].key, now, next)
              && KeysBut(old(h.mem), h.mem, p)
              && forall q :: q in h.slots <==> q in old(h.slots) && (q != p || Spent(t.repeat) != 0)
    {
      Spend(p);
      Renew(h, p, now, next);
    }

    method Renew(h: Heap, p: Ptr, now: int, next: int)
      requires Valid() && p in info && !info[p].destroy && h == HeapOf(info[p].kind)
      modifies this`info, this`ntimers, h
      ensures Valid() && Wrote(old(info), info, p, old(info)[p].(destroy := old(info)[p].repeat == 0))
      ensures var t := old(info)[p];
              && p in old(h.mem) && p in h.mem && (t.kind == Timeout ==> t.ms > 0)
              && h.mem[p].key == (if t.repeat == 0 then old(h.mem)[p].key
                                  else if t.kind == Timeout then CaughtUp(old(h.mem)[p].key, t.ms * 1000, now) else next)
              && KeysBut(old(h.mem), h.mem, p)
              && forall q :: q in h.slots <==> q in old(h.slots) && (q != p || t.repeat != 0)
    {
      if info[p].repeat == 0 {
        Drop(h, p);
      } else {
        Requeue(h, p, now, next);
      }
    }

    /** `__hloop_process_timers`: every due timer fires once, the earliest deadline first. */
    method Process(kind: Kind, now: int, cron: map<Ptr, int>) returns (n: nat, ghost fired: seq<Ptr>)
      requires Valid() && (kind == Period ==> forall p :: p in realtimers.slots ==> NextDate(cron, p) > now)
      modifies this`info, this`ntimers, this`npendings, this`highest, this`high, HeapOf(kind)
      ensures Valid() && n == |fired|
      ensures var h := HeapOf(kind);
              && Before(old(info), old(h.mem), old(h.slots), now, cron)
              && Effect(old(info), info, old(h.mem), h.mem, old(h.slots), h.slots, fired, now, cron)
              && InTurn(old(h.mem), old(h.slots), fired)
              && (forall p :: p in old(h.slots) ==> (p in fired <==> old(h.mem)[p].key <= now))
              && (forall p :: p in h.slots ==> p in h.mem && h.mem[p].key > now)
      ensures forall q :: q in fired ==> q in old(info)
      ensures highest == PushedAll(old(info), Timeout, fired, old(highest)) && high == PushedAll(old(info), Period, fired, old(high))
      ensures npendings - |highest| - |high| == old(npendings) - old(|highest|) - old(|high|)
    {
      var h := HeapOf(kind);
      n, fired := 0, [];
      ghost var m, v, inf := h.mem, h.slots, info;
      RepReal(m, h.root, v);
      FewFired(fired, v);
      while h.root != NULL
        invariant Valid() && n == |fired| <= |v|
        invariant Before(inf, m, v, now, cron) && Effect(inf, info, m, h.mem, v, h.slots, fired, now, cron) && InTurn(m, v, fired)
        invariant highest == PushedAll(inf, Timeout, fired, old(highest)) && high == PushedAll(inf, Period, fired, old(high))
        invariant npendings - |highest| - |high| == old(npendings) - old(|highest|) - old(|high|)
        decreases |v| - n
      {
        RootFirst(h.mem, h.root, h.slots);
        if h.mem[h.root].key > now {
          break;
        }
        ghost var p, done := h.root, fired;
        fired := FireNext(h, h.root, now, cron, inf, m, v, fired);
        PushedOne(inf, Timeout, done, p, old(highest));
        PushedOne(inf, Period, done, p, old(high));
        n := n + 1;
      }
      RootFirst(h.mem, h.root, h.slots);
      AllFired(inf, info, m, h.mem, v, h.slots, h.root, fired, now, cron);
    }

    /** `hloop_process_timers`: relative timers by the loop's clock, then calendar timers by the wall clock. */
    method ProcessAll(hrtime: int, now: int, cron: map<Ptr, int>) returns (n: nat)
      requires Valid() && forall p :: p in realtimers.slots ==> NextDate(cron, p) > now
      modifies this`info, this`ntimers, this`npendings, this`highest, this`high, timers, realtimers
      ensures Valid() && ntimers == |timers.slots| + |realtimers.slots|
      ensures forall p :: p in timers.slots ==> p in timers.mem && timers.mem[p].key > hrtime
      ensures forall p :: p in realtimers.slots ==> p in realtimers.mem && realtimers.mem[p].key > now
    {
      ghost var fired, fired';
      var m;
      n, fired := Process(Timeout, hrtime, cron);
      m, fired' := Process(Period, now, cron);
      n := n + m;
    }

    method FireNext(h: Heap, p: Ptr, now: int, cron: map<Ptr, int>, ghost inf: map<Ptr, Timer>, ghost m: Mem, ghost v: seq<Ptr>, ghost fired: seq<Ptr>)
      returns (ghost fired': seq<Ptr>)
      requires Valid() && p in info && h == HeapOf(info[p].kind) && p == h.root && p in h.slots && p in h.mem && h.mem[p].key <= now
      requires Before(inf, m, v, now, cron) && Effect(inf, info, m, h.mem, v, h.slots, fired, now, cron) && InTurn(m, v, fired)
      modifies this`info, this`ntimers, this`npendings, this`highest, this`high, h
      ensures Valid() && fired' == fired + [p] && |fired'| <= |v|
      ensures Effect(inf, info, m, h.mem, v, h.slots, fired', now, cron) && InTurn(m, v, fired')
      ensures p in inf && highest == Pushed(inf[p], Timeout, p, old(highest)) && high == Pushed(inf[p], Period, p, old(high))
      ensures npendings - |highest| - |high| == old(npendings) - old(|highest|) - old(|high|)
    {
      ghost var inf', m', v' := info, h.mem, h.slots;
      RootFirst(m', h.root, v');
      FireRoot(h, p, now, NextDate(cron, p));
      EffectStep(inf, inf', info, m, m', h.mem, v, v', h.slots, fired, p, now, cron);
      InTurnStep(inf, inf', m, m', v, v', fired, p, now, cron);
      fired' := fired + [p];
      FewFired(fired', v);
    }
  }
}
