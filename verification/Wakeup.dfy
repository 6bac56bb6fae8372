/**
 libev's lock-free wake-up protocol: any number of threads (and signal handlers) inside
 `ev_async_send` / `ev_feed_signal`, one event loop, every interleaving of their steps.

 One step touches one shared variable; fences make the steps sequentially consistent.
 */
module Wakeup {
  import opened Common

  /** The two flags handed to `evpipe_write`: `sig_pending` and `async_pending`. */
  datatype Chan = Sig | Async
  type Item = nat
  type Key = (Chan, Item)

  /** Where a sender stands: the step it takes next. */
  datatype SendPc = TestFlag | SetFlag | SetSkipped | TestWanted | ClearSkipped | Write | Done
  datatype Sender = Sender(chan: Chan, item: Item, pc: SendPc)

  /** Where the loop stands: the step it takes next. */
  datatype LoopPc =
    | Running
    | Announce
    | CheckSkipped
    | Polling(blocking: bool)
    | Unannounce
    | Recheck
    | ReadPipe
    | PipeClearSkipped
    | TestPending(c: Chan)
    | ClearPending(c: Chan)
    | Scan(c: Chan, n: nat)
    | ClearItem(c: Chan, n: nat)
    | Feed(c: Chan, n: nat)

  /** `sig_pending` and `async_pending` as a set, `pipe_write_skipped`, `pipe_write_wanted`, bytes in the pipe. */
  datatype Shared = Shared(flag: set<Chan>, skipped: bool, wanted: bool, pipe: nat)

  /** The arrays the pipe callback scans, and the 1-based index each async watcher carries. */
  datatype Watchers = Watchers(signals: seq<Item>, asyncs: seq<Item>, active: map<Item, nat>) {
    function Items(c: Chan): seq<Item> { if c.Sig? then signals else asyncs }
  }

  /**
   History, for the theorems only: sends not yet fed to their watcher, those the running
   callback must feed, and how often each item was sent and fed.
   */
  datatype Books = Books(owed: set<Key>, due: set<Key>, sends: multiset<Key>, feeds: multiset<Key>)

  /** `pipePending`, `pipeReadable`: whether `pipe_w` is pending, and with EV_READ among its events. */
  datatype State = State(
    senders: seq<Sender>,
    mem: Shared,
    sent: set<Key>,
    eventfd: bool,
    watch: Watchers,
    pipePending: bool,
    pipeReadable: bool,
    pc: LoopPc,
    books: Books
  )

  predicate Initial(s: State) {
    && s.senders == [] && s.mem == Shared({}, false, false, 0) && s.sent == {}
    && s.watch.asyncs == [] && s.watch.active == map[] && NoDuplicates(s.watch.signals)
    && !s.pipePending && s.pc == Running
    && s.books == Books({}, {}, multiset{}, multiset{})
  }

  // ---------- Senders ----------

  /** A thread enters `ev_async_send` or `ev_feed_signal`: the first statement marks the item. */
  function Send(s: State, c: Chan, i: Item): State {
    s.(senders := s.senders + [Sender(c, i, TestFlag)],
       sent := s.sent + {(c, i)},
       books := s.books.(owed := s.books.owed + {(c, i)}, sends := s.books.sends + multiset{(c, i)}))
  }

  /** `evpipe_write`, one shared access at a time. A full pipe drops the write but stays readable. */
  function WriteStep(c: Chan, pc: SendPc, m: Shared, full: bool): (SendPc, Shared) {
    match pc
    case TestFlag => (if c in m.flag then Done else SetFlag, m)
    case SetFlag => (SetSkipped, m.(flag := m.flag + {c}))
    case SetSkipped => (TestWanted, m.(skipped := true))
    case TestWanted => (if m.wanted then ClearSkipped else Done, m)
    case ClearSkipped => (Write, m.(skipped := false))
    case Write => (Done, m.(pipe := if full && m.pipe > 0 then m.pipe else m.pipe + 1))
    case Done => (Done, m)
  }

  function SenderStep(s: State, j: nat, full: bool): State
    requires j < |s.senders|
  {
    var (pc, m) := WriteStep(s.senders[j].chan, s.senders[j].pc, s.mem, full);
    s.(senders := s.senders[j := s.senders[j].(pc := pc)], mem := m)
  }

  // ---------- The loop ----------

  /** `choice` resolves what the kernel or the configuration decides. */
  function LoopStep(s: State, choice: bool): State {
    match s.pc
    case Running =>
      // ev_invoke_pending runs the pipe callback; the loop polls only with nothing pending
      if s.pipePending then
        s.(pc := ReadPipe, pipePending := false,
           books := s.books.(due := set k | k in s.books.owed && k.0 in s.mem.flag && k.1 in s.watch.Items(k.0)))
      else s.(pc := Announce)
    case Announce => s.(pc := CheckSkipped, mem := s.mem.(wanted := true))
    case CheckSkipped => s.(pc := Polling(!s.mem.skipped && choice))
    case Polling(_) =>
      // the kernel may report the pipe, or something else may end the wait
      if s.mem.pipe > 0 && choice then s.(pc := Unannounce, pipePending := true, pipeReadable := true)
      else s.(pc := Unannounce)
    case Unannounce => s.(pc := Recheck, mem := s.mem.(wanted := false))
    case Recheck =>
      if s.mem.skipped then
        s.(pc := Running, pipePending := true, pipeReadable := s.pipePending && s.pipeReadable)
      else s.(pc := Running)
    case ReadPipe =>
      if s.pipeReadable then
        s.(pc := PipeClearSkipped, mem := s.mem.(pipe := if s.eventfd || s.mem.pipe <= 4 then 0 else s.mem.pipe - 4))
      else s.(pc := PipeClearSkipped)
    case PipeClearSkipped => s.(pc := TestPending(Sig), mem := s.mem.(skipped := false))
    case TestPending(c) =>
      if c in s.mem.flag then s.(pc := ClearPending(c)) else s.(pc := AfterScan(c))
    case ClearPending(c) => s.(pc := Scan(c, |s.watch.Items(c)|), mem := s.mem.(flag := s.mem.flag - {c}))
    case Scan(c, n) =>
      if n == 0 || n > |s.watch.Items(c)| then s.(pc := AfterScan(c))
      else if (c, s.watch.Items(c)[n - 1]) in s.sent then s.(pc := ClearItem(c, n - 1))
      else s.(pc := Scan(c, n - 1))
    case ClearItem(c, n) =>
      if n < |s.watch.Items(c)| then s.(pc := Feed(c, n), sent := s.sent - {(c, s.watch.Items(c)[n])}) else s
    case Feed(c, n) =>
      if n < |s.watch.Items(c)| then
        var k := (c, s.watch.Items(c)[n]);
        s.(pc := Scan(c, n), books := s.books.(owed := s.books.owed - {k}, due := s.books.due - {k},
                                               feeds := s.books.feeds + multiset{k}))
      else s
  }

  function AfterScan(c: Chan): LoopPc {
    if c.Sig? then TestPending(Async) else Running
  }

  /** `ev_async_start`: forget earlier sends and append to the array. */
  function StartAsync(s: State, w: Item): State {
    if s.pc != Running || w in s.watch.asyncs then s else
    var n := |s.watch.asyncs|;
    s.(sent := s.sent - {(Async, w)}, books := s.books.(owed := s.books.owed - {(Async, w)}),
       watch := s.watch.(asyncs := s.watch.asyncs + [w], active := s.watch.active[w := n + 1]))
  }

  /** The last watcher takes over the freed slot. */
  function Remove(v: Watchers, w: Item): Watchers {
    if w !in v.active || !(1 <= v.active[w] <= |v.asyncs|) then v else
    var a, n := v.active[w], |v.asyncs| - 1;
    v.(asyncs := v.asyncs[a - 1 := v.asyncs[n]][..n], active := v.active[v.asyncs[n] := a] - {w})
  }

  /** `ev_async_stop`. */
  function StopAsync(s: State, w: Item): State {
    if s.pc != Running then s else s.(watch := Remove(s.watch, w))
  }

  datatype Action =
    | ASend(c: Chan, i: Item)
    | ASender(j: nat, full: bool)
    | ALoop(choice: bool)
    | AStart(w: Item)
    | AStop(w: Item)

  function Apply(s: State, a: Action): State {
    match a
    case ASend(c, i) => Send(s, c, i)
    case ASender(j, full) => if j < |s.senders| then SenderStep(s, j, full) else s
    case ALoop(choice) => LoopStep(s, choice)
    case AStart(w) => StartAsync(s, w)
    case AStop(w) => StopAsync(s, w)
  }

  function Run(s: State, actions: seq<Action>): State
    decreases |actions|
  {
    if actions == [] then s else Apply(Run(s, actions[..|actions| - 1]), actions[|actions| - 1])
  }

  // ---------- The invariant ----------

  /** The callback is running and has yet to look at channel `c`. */
  predicate Before(pc: LoopPc, c: Chan) {
    match pc
    case ReadPipe => true
    case PipeClearSkipped => true
    case TestPending(d) => d == c || (d.Sig? && c.Async?)
    case ClearPending(d) => d == c || (d.Sig? && c.Async?)
    case Scan(d, _) => d.Sig? && c.Async?
    case ClearItem(d, _) => d.Sig? && c.Async?
    case Feed(d, _) => d.Sig? && c.Async?
    case _ => false
  }

  /** The callback's scan of `c` still has item `i` ahead of it. */
  predicate Ahead(s: State, c: Chan, i: Item) {
    match s.pc
    case Scan(d, n) => d == c && n <= |s.watch.Items(c)| && i in s.watch.Items(c)[..n]
    case ClearItem(d, n) => d == c && n < |s.watch.Items(c)| && i in s.watch.Items(c)[..n + 1]
    case Feed(d, n) => d == c && n < |s.watch.Items(c)| && i in s.watch.Items(c)[..n]
    case _ => false
  }

  predicate FeedingNow(s: State, c: Chan, i: Item) {
    s.pc.Feed? && s.pc.c == c && s.pc.n < |s.watch.Items(c)| && s.watch.Items(c)[s.pc.n] == i
  }

  /** Some sender is about to set `pipe_write_skipped` or to write to the pipe. */
  predicate Pushing(q: seq<Sender>, j: int) {
    0 <= j < |q| && (q[j].pc.SetSkipped? || q[j].pc.Write?)
  }

  /** Some sender has set `pipe_write_skipped` and has yet to take it back. */
  predicate Revising(q: seq<Sender>, j: int) {
    0 <= j < |q| && (q[j].pc.TestWanted? || q[j].pc.ClearSkipped?)
  }

  /** Some sender has marked its item and has yet to raise the flag of `c`. */
  predicate Raising(q: seq<Sender>, j: int, c: Chan) {
    0 <= j < |q| && (q[j].pc.TestFlag? || q[j].pc.SetFlag?) && q[j].chan == c
  }

  /** A raised flag is backed by something that makes the loop run the callback again. */
  ghost predicate FlagBacked(s: State, c: Chan) {
    c in s.mem.flag ==>
      || s.mem.pipe > 0 || s.mem.skipped || s.pipePending || Before(s.pc, c)
      || exists j :: Pushing(s.senders, j)
  }

  /** While the loop sleeps, a skipped write is about to be made up for. */
  ghost predicate SleepGuarded(s: State) {
    s.pc.Polling? && s.pc.blocking && s.mem.skipped ==> exists j :: Revising(s.senders, j)
  }

  /** A marked item is covered by the flag, by a sender about to raise it, or by the scan. */
  ghost predicate ItemBacked(s: State, c: Chan, i: Item) {
    (c, i) in s.sent && i in s.watch.Items(c) ==>
      c in s.mem.flag || Ahead(s, c, i) || exists j :: Raising(s.senders, j, c)
  }

  predicate OwedMarked(s: State, c: Chan, i: Item) {
    (c, i) in s.books.owed && i in s.watch.Items(c) ==> (c, i) in s.sent || FeedingNow(s, c, i)
  }

  predicate DueTracked(s: State, c: Chan, i: Item) {
    (c, i) in s.books.due ==>
      && (c, i) in s.books.owed && i in s.watch.Items(c)
      && (if Before(s.pc, c) then c in s.mem.flag else Ahead(s, c, i) || FeedingNow(s, c, i))
  }

  predicate Conserved(s: State, k: Key) {
    s.books.feeds[k] + (if k in s.sent then 1 else 0) + (if FeedingNow(s, k.0, k.1) then 1 else 0) <= s.books.sends[k]
  }

  predicate Indexed(v: Watchers) {
    && NoDuplicates(v.signals)
    && (forall j :: 0 <= j < |v.asyncs| ==> v.asyncs[j] in v.active && v.active[v.asyncs[j]] == j + 1)
    && (forall w :: w in v.active ==> w in v.asyncs)
  }

  predicate LoopShape(s: State) {
    && (s.mem.wanted <==> s.pc.CheckSkipped? || s.pc.Polling? || s.pc.Unannounce?)
    && (s.pipePending ==> s.pc.Running? || s.pc.Unannounce? || s.pc.Recheck?)
    && (s.pc.Scan? ==> s.pc.n <= |s.watch.Items(s.pc.c)|)
    && (s.pc.ClearItem? ==> s.pc.n < |s.watch.Items(s.pc.c)| && (s.pc.c, s.watch.Items(s.pc.c)[s.pc.n]) in s.sent)
    && (s.pc.Feed? ==> s.pc.n < |s.watch.Items(s.pc.c)|)
    && (s.pc.ClearPending? ==> s.pc.c in s.mem.flag)
  }

  ghost predicate Inv(s: State) {
    && Indexed(s.watch) && LoopShape(s) && SleepGuarded(s)
    && (forall c :: FlagBacked(s, c))
    && (forall c, i :: ItemBacked(s, c, i))
    && (forall c, i :: OwedMarked(s, c, i))
    && (forall c, i :: DueTracked(s, c, i))
    && (forall k :: Conserved(s, k))
  }

  // ---------- Preservation ----------

  lemma InitialInv(s: State)
    requires Initial(s)
    ensures Inv(s)
  {
  }

  ghost predicate ItemInv(s: State, c: Chan, i: Item) {
    ItemBacked(s, c, i) && OwedMarked(s, c, i) && DueTracked(s, c, i) && Conserved(s, (c, i))
  }

  lemma InvFrom(s: State)
    requires Indexed(s.watch) && LoopShape(s) && SleepGuarded(s)
    requires forall c :: FlagBacked(s, c)
    requires forall c, i :: ItemInv(s, c, i)
    ensures Inv(s)
  {
    forall c, i ensures ItemBacked(s, c, i) && OwedMarked(s, c, i) && DueTracked(s, c, i) {
      assert ItemInv(s, c, i);
    }
    forall k ensures Conserved(s, k) {
      assert ItemInv(s, k.0, k.1);
    }
  }

  lemma SendKeeps(s: State, c: Chan, i: Item)
    requires Inv(s)
    ensures Inv(Send(s, c, i))
  {
    var t := Send(s, c, i);
    var n := |s.senders|;
    assert Raising(t.senders, n, c);
    assert forall j :: Pushing(s.senders, j) ==> Pushing(t.senders, j);
    assert forall j :: Revising(s.senders, j) ==> Revising(t.senders, j);
    assert forall j, d :: Raising(s.senders, j, d) ==> Raising(t.senders, j, d);
    forall d ensures FlagBacked(t, d) { assert FlagBacked(s, d); }
    forall d, e ensures ItemInv(t, d, e) {
      assert ItemBacked(s, d, e) && OwedMarked(s, d, e) && DueTracked(s, d, e) && Conserved(s, (d, e));
    }
    InvFrom(t);
  }

  lemma SenderFlag(s: State, j: nat, full: bool, c: Chan)
    requires FlagBacked(s, c) && j < |s.senders|
    ensures FlagBacked(SenderStep(s, j, full), c)
  {
    var t := SenderStep(s, j, full);
    match s.senders[j].pc
    case SetFlag => assert Pushing(t.senders, j);
    case SetSkipped =>
    case ClearSkipped => assert Pushing(t.senders, j);
    case Write =>
    case _ =>
      if w :| Pushing(s.senders, w) {
        assert Pushing(t.senders, w);
      }
  }

  /** Everything the item invariants speak of, except flags and senders. */
  predicate SameItems(s: State, t: State) {
    t.sent == s.sent && t.watch == s.watch && t.pc == s.pc && t.books == s.books
  }

  lemma SenderFrame(s: State, j: nat, full: bool)
    requires j < |s.senders|
    ensures var t := SenderStep(s, j, full);
            && SameItems(s, t) && s.mem.flag <= t.mem.flag && t.mem.wanted == s.mem.wanted && t.pipePending == s.pipePending
            && |t.senders| == |s.senders| && (forall w :: 0 <= w < |s.senders| && w != j ==> t.senders[w] == s.senders[w])
            && t.senders[j].chan == s.senders[j].chan
  {
  }

  lemma SenderRaising(s: State, j: nat, full: bool, c: Chan, w: int)
    requires j < |s.senders| && Raising(s.senders, w, c)
    ensures c in SenderStep(s, j, full).mem.flag || Raising(SenderStep(s, j, full).senders, w, c)
  {
  }

  lemma SenderItem(s: State, t: State, c: Chan, i: Item)
    requires ItemInv(s, c, i) && SameItems(s, t) && s.mem.flag <= t.mem.flag
    requires (exists w :: Raising(s.senders, w, c)) ==> c in t.mem.flag || exists w :: Raising(t.senders, w, c)
    ensures ItemInv(t, c, i)
  {
  }

  lemma SenderSleep(s: State, j: nat, full: bool)
    requires SleepGuarded(s) && LoopShape(s) && j < |s.senders|
    ensures SleepGuarded(SenderStep(s, j, full))
  {
    var t := SenderStep(s, j, full);
    if s.pc.Polling? && s.pc.blocking && t.mem.skipped {
      if s.senders[j].pc.SetSkipped? || s.senders[j].pc.TestWanted? {
        assert Revising(t.senders, j);
      } else {
        var w :| Revising(s.senders, w);
        assert Revising(t.senders, w);
      }
    }
  }

  lemma SenderKeeps(s: State, j: nat, full: bool)
    requires Inv(s) && j < |s.senders|
    ensures Inv(SenderStep(s, j, full))
  {
    var t := SenderStep(s, j, full);
    SenderFrame(s, j, full);
    forall c ensures FlagBacked(t, c) { SenderFlag(s, j, full, c); }
    forall c, i ensures ItemInv(t, c, i) {
      assert ItemBacked(s, c, i) && OwedMarked(s, c, i) && DueTracked(s, c, i) && Conserved(s, (c, i));
      if w :| Raising(s.senders, w, c) {
        SenderRaising(s, j, full, c, w);
      }
      SenderItem(s, t, c, i);
    }
    SenderSleep(s, j, full);
    InvFrom(t);
  }

  lemma LoopFlag(s: State, choice: bool, c: Chan)
    requires FlagBacked(s, c) && LoopShape(s)
    ensures FlagBacked(LoopStep(s, choice), c)
  {
  }

  lemma LoopControl(s: State, choice: bool)
    requires LoopShape(s) && SleepGuarded(s)
    ensures LoopShape(LoopStep(s, choice)) && SleepGuarded(LoopStep(s, choice))
    ensures LoopStep(s, choice).watch == s.watch
  {
  }

  predicate Resting(pc: LoopPc) {
    pc.Running? || pc.Announce? || pc.CheckSkipped? || pc.Polling? || pc.Unannounce? || pc.Recheck?
  }

  lemma RestingItem(s: State, choice: bool, c: Chan, i: Item)
    requires ItemInv(s, c, i) && Resting(s.pc)
    ensures ItemInv(LoopStep(s, choice), c, i)
  {
  }

  lemma EnteringItem(s: State, choice: bool, c: Chan, i: Item)
    requires ItemInv(s, c, i) && (s.pc.ReadPipe? || s.pc.PipeClearSkipped? || s.pc.TestPending?)
    ensures ItemInv(LoopStep(s, choice), c, i)
  {
    var t := LoopStep(s, choice);
    assert t.senders == s.senders && t.mem.flag == s.mem.flag && t.sent == s.sent && t.watch == s.watch;
    assert t.books == s.books && !FeedingNow(t, c, i) && !Ahead(t, c, i);
  }

  lemma ClearPendingItem(s: State, choice: bool, c: Chan, i: Item)
    requires ItemInv(s, c, i) && LoopShape(s) && s.pc.ClearPending?
    ensures ItemInv(LoopStep(s, choice), c, i)
  {
  }

  lemma ScanItem(s: State, choice: bool, c: Chan, i: Item)
    requires ItemInv(s, c, i) && LoopShape(s) && s.pc.Scan?
    ensures ItemInv(LoopStep(s, choice), c, i)
  {
    var t := LoopStep(s, choice);
    var q, n := s.watch.Items(c), s.pc.n;
    assert t.senders == s.senders && t.mem == s.mem && t.sent == s.sent && t.watch == s.watch && t.books == s.books;
    if s.pc.c == c && n > 0 {
      assert q[..n] == q[..n - 1] + [q[n - 1]];
      assert t.pc == if (c, q[n - 1]) in s.sent then ClearItem(c, n - 1) else Scan(c, n - 1);
    } else {
      assert !Ahead(s, c, i);
    }
  }

  lemma ClearItemItem(s: State, choice: bool, c: Chan, i: Item)
    requires ItemInv(s, c, i) && LoopShape(s) && s.pc.ClearItem?
    ensures ItemInv(LoopStep(s, choice), c, i)
  {
  }

  lemma FeedItem(s: State, choice: bool, c: Chan, i: Item)
    requires ItemInv(s, c, i) && LoopShape(s) && s.pc.Feed?
    ensures ItemInv(LoopStep(s, choice), c, i)
  {
  }

  lemma LoopKeeps(s: State, choice: bool)
    requires Inv(s)
    ensures Inv(LoopStep(s, choice))
  {
    var t := LoopStep(s, choice);
    forall c ensures FlagBacked(t, c) { LoopFlag(s, choice, c); }
    forall c, i ensures ItemInv(t, c, i) {
      assert ItemBacked(s, c, i) && OwedMarked(s, c, i) && DueTracked(s, c, i) && Conserved(s, (c, i));
      match s.pc
      case ClearPending(_) => ClearPendingItem(s, choice, c, i);
      case Scan(_, _) => ScanItem(s, choice, c, i);
      case ClearItem(_, _) => ClearItemItem(s, choice, c, i);
      case Feed(_, _) => FeedItem(s, choice, c, i);
      case _ => if Resting(s.pc) { RestingItem(s, choice, c, i); } else { EnteringItem(s, choice, c, i); }
    }
    LoopControl(s, choice);
    InvFrom(t);
  }

  lemma StartItem(s: State, w: Item, c: Chan, i: Item)
    requires ItemInv(s, c, i)
    ensures ItemInv(StartAsync(s, w), c, i)
  {
  }

  lemma StartKeeps(s: State, w: Item)
    requires Inv(s)
    ensures Inv(StartAsync(s, w))
  {
    var t := StartAsync(s, w);
    forall c ensures FlagBacked(t, c) { assert FlagBacked(s, c); }
    forall c, i ensures ItemInv(t, c, i) {
      assert ItemBacked(s, c, i) && OwedMarked(s, c, i) && DueTracked(s, c, i) && Conserved(s, (c, i));
      StartItem(s, w, c, i);
    }
    InvFrom(t);
  }

  lemma RemoveCorrect(v: Watchers, w: Item)
    requires Indexed(v)
    ensures var v' := Remove(v, w);
            && Indexed(v') && v'.signals == v.signals
            && forall i :: i in v'.asyncs <==> i in v.asyncs && i != w
  {
    var v' := Remove(v, w);
    if w in v.active {
      var a, n := v.active[w], |v.asyncs| - 1;
      assert v.asyncs[a - 1] == w;
      forall j | 0 <= j < n
        ensures v'.asyncs[j] == (if j == a - 1 then v.asyncs[n] else v.asyncs[j])
      {
      }
      forall i | i in v.asyncs && i != w
        ensures i in v'.asyncs
      {
        var j := v.active[i] - 1;
        assert v'.asyncs[if j == n then a - 1 else j] == i;
      }
    }
  }

  lemma StopKeeps(s: State, w: Item)
    requires Inv(s)
    ensures Inv(StopAsync(s, w))
  {
    var t := StopAsync(s, w);
    RemoveCorrect(s.watch, w);
    forall c ensures FlagBacked(t, c) { assert FlagBacked(s, c); }
    forall c, i ensures ItemInv(t, c, i) {
      assert ItemBacked(s, c, i) && OwedMarked(s, c, i) && DueTracked(s, c, i) && Conserved(s, (c, i));
    }
    InvFrom(t);
  }

  // ---------- Theorems over whole runs ----------

  lemma {:induction false} RunKeeps(s: State, actions: seq<Action>)
    requires Inv(s)
    ensures Inv(Run(s, actions))
    decreases |actions|
  {
    if actions != [] {
      var n := |actions| - 1;
      RunKeeps(s, actions[..n]);
      var r := Run(s, actions[..n]);
      match actions[n]
      case ASend(c, i) => SendKeeps(r, c, i);
      case ASender(j, full) => if j < |r.senders| { SenderKeeps(r, j, full); }
      case ALoop(choice) => LoopKeeps(r, choice);
      case AStart(w) => StartKeeps(r, w);
      case AStop(w) => StopKeeps(r, w);
    }
  }

  /** Sender `j` runs `n` steps with everyone else standing still. */
  function Solo(s: State, j: nat, n: nat): State
    requires j < |s.senders|
    ensures |Solo(s, j, n).senders| == |s.senders|
    decreases n
  {
    if n == 0 then s else Solo(SenderStep(s, j, false), j, n - 1)
  }

  predicate WritesSoon(s: State, j: int) {
    0 <= j < |s.senders| && !s.senders[j].pc.Done? && Solo(s, j, 6).mem.pipe > 0
  }

  /** A sender that will find a wake-up wanted, or has found so, writes to the pipe by itself. */
  lemma SoloWrites(s: State, j: nat)
    requires j < |s.senders|
    requires match s.senders[j].pc
             case TestFlag => s.mem.wanted && s.senders[j].chan !in s.mem.flag
             case SetFlag => s.mem.wanted
             case SetSkipped => s.mem.wanted
             case TestWanted => s.mem.wanted
             case ClearSkipped => true
             case Write => true
             case Done => false
    ensures WritesSoon(s, j)
  {
  }

  /**
   No lost wake-up. If the loop sleeps in the kernel while a send to an active watcher is
   undelivered, then the pipe is readable or some sender, left alone, makes it readable.
   */
  lemma NoLostWakeup(s0: State, actions: seq<Action>, c: Chan, i: Item)
    requires Initial(s0)
    requires var s := Run(s0, actions);
             s.pc == Polling(true) && (c, i) in s.books.owed && i in s.watch.Items(c)
    ensures var s := Run(s0, actions); s.mem.pipe > 0 || exists j :: WritesSoon(s, j)
  {
    InitialInv(s0);
    RunKeeps(s0, actions);
    var s := Run(s0, actions);
    assert OwedMarked(s, c, i) && ItemBacked(s, c, i) && FlagBacked(s, c);
    if c in s.mem.flag {
      if s.mem.pipe == 0 {
        if s.mem.skipped {
          var j :| Revising(s.senders, j);
          SoloWrites(s, j);
        } else {
          var j :| Pushing(s.senders, j);
          SoloWrites(s, j);
        }
      }
    } else {
      var j :| Raising(s.senders, j, c);
      SoloWrites(s, j);
    }
  }

  /** Once every sender has returned, a sleeping loop with undelivered sends has a readable pipe. */
  lemma QuietSendersLeavePipeReadable(s0: State, actions: seq<Action>, c: Chan, i: Item)
    requires Initial(s0)
    requires var s := Run(s0, actions);
             && s.pc == Polling(true) && (c, i) in s.books.owed && i in s.watch.Items(c)
             && forall j :: 0 <= j < |s.senders| ==> s.senders[j].pc.Done?
    ensures Run(s0, actions).mem.pipe > 0
  {
    NoLostWakeup(s0, actions, c, i);
  }

  /** No watcher is ever fed more often than it was sent to. */
  lemma NoSpuriousFeed(s0: State, actions: seq<Action>, k: Key)
    requires Initial(s0)
    ensures Run(s0, actions).books.feeds[k] <= Run(s0, actions).books.sends[k]
  {
    InitialInv(s0);
    RunKeeps(s0, actions);
    assert Conserved(Run(s0, actions), k);
  }

  predicate StillDue(s: State, t: State, k: Key) {
    t.books.feeds[k] >= s.books.feeds[k] + if k in t.books.due then 0 else 1
  }

  lemma DueStep(s: State, t: State, a: Action, k: Key)
    requires Inv(t) && StillDue(s, t, k)
    ensures StillDue(s, Apply(t, a), k)
  {
    assert k == (k.0, k.1);
    assert DueTracked(t, k.0, k.1);
  }

  /**
   A run of the pipe callback feeds every watcher whose send was complete, flag and all, when
   the callback was entered, whatever the senders do meanwhile.
   */
  lemma {:induction false} CallbackDelivers(s: State, actions: seq<Action>, k: Key)
    requires Inv(s) && s.pc == Running && s.pipePending
    requires k in s.books.owed && k.0 in s.mem.flag && k.1 in s.watch.Items(k.0)
    ensures StillDue(s, Run(LoopStep(s, true), actions), k)
    ensures Run(LoopStep(s, true), actions).pc == Running
        ==> Run(LoopStep(s, true), actions).books.feeds[k] > s.books.feeds[k]
    decreases |actions|
  {
    var e := LoopStep(s, true);
    LoopKeeps(s, true);
    RunKeeps(e, actions);
    if actions != [] {
      var n := |actions| - 1;
      CallbackDelivers(s, actions[..n], k);
      RunKeeps(e, actions[..n]);
      DueStep(s, Run(e, actions[..n]), actions[n], k);
    }
    assert DueTracked(Run(e, actions), k.0, k.1);
  }

  // ---------- Delivery, once the senders have returned ----------

  predicate Quiet(s: State) {
    forall j :: 0 <= j < |s.senders| ==> s.senders[j].pc.Done?
  }

  /** The loop alone, with what the kernel or the configuration decides at each step. */
  function Loops(s: State, choices: seq<bool>): State
    decreases |choices|
  {
    if choices == [] then s else Loops(LoopStep(s, choices[0]), choices[1..])
  }

  /** A poll reports a readable pipe. */
  predicate Honest(s: State, choices: seq<bool>)
    decreases |choices|
  {
    choices == [] ||
    ((s.pc.Polling? && s.mem.pipe > 0 ==> choices[0]) && Honest(LoopStep(s, choices[0]), choices[1..]))
  }

  /** The steps a scan can still take, and those of the whole callback from each point on. */
  function ScanRest(n: nat): nat { 3 * n + 1 }

  function AsyncRest(v: Watchers): nat { ScanRest(|v.asyncs|) + 2 }

  function SignalRest(v: Watchers): nat { ScanRest(|v.signals|) + 2 + AsyncRest(v) }

  function After(v: Watchers, c: Chan): nat { if c.Sig? then AsyncRest(v) else 0 }

  function CallbackRest(v: Watchers, pc: LoopPc): nat {
    match pc
    case ReadPipe => SignalRest(v) + 2
    case PipeClearSkipped => SignalRest(v) + 1
    case TestPending(c) => if c.Sig? then SignalRest(v) else AsyncRest(v)
    case ClearPending(c) => ScanRest(|v.Items(c)|) + 1 + After(v, c)
    case Scan(c, n) => ScanRest(n) + After(v, c)
    case ClearItem(c, n) => ScanRest(n) + 2 + After(v, c)
    case Feed(c, n) => ScanRest(n) + 1 + After(v, c)
    case _ => 0
  }

  function Whole(v: Watchers): nat { SignalRest(v) + 3 }

  /** The running callback has item `i` of channel `c` still to come. */
  predicate ThisTime(s: State, c: Chan, i: Item) {
    Before(s.pc, c) || Ahead(s, c, i) || FeedingNow(s, c, i)
  }

  /** An upper bound on the loop's steps until it feeds the item. */
  function Distance(s: State, c: Chan, i: Item): nat {
    var whole := Whole(s.watch);
    match s.pc
    case Running => if s.pipePending then whole else whole + 6
    case Announce => whole + 5
    case CheckSkipped => whole + 4
    case Polling(_) => whole + 3
    case Unannounce => if s.pipePending || s.mem.skipped then whole + 2 else whole + 8
    case Recheck => if s.pipePending || s.mem.skipped then whole + 1 else whole + 7
    case _ => CallbackRest(s.watch, s.pc) + if ThisTime(s, c, i) then 0 else whole + 6
  }

  /** What the invariant says of one undelivered item when no sender is under way. */
  predicate Outstanding(s: State, c: Chan, i: Item) {
    && LoopShape(s) && (c, i) in s.books.owed && i in s.watch.Items(c)
    && ((c, i) in s.sent || FeedingNow(s, c, i))
    && ((c, i) in s.sent ==> c in s.mem.flag || Ahead(s, c, i))
    && (c in s.mem.flag ==> s.mem.pipe > 0 || s.mem.skipped || s.pipePending || Before(s.pc, c))
  }

  lemma QuietOutstanding(s: State, c: Chan, i: Item)
    requires Inv(s) && Quiet(s) && (c, i) in s.books.owed && i in s.watch.Items(c)
    ensures Outstanding(s, c, i)
  {
    assert OwedMarked(s, c, i) && ItemBacked(s, c, i) && FlagBacked(s, c);
  }

  /** The loop gets closer: either it feeds the item, or fewer steps remain. */
  predicate Closer(s: State, t: State, c: Chan, i: Item) {
    if (c, i) in t.books.owed then Distance(t, c, i) < Distance(s, c, i)
    else t.books.feeds[(c, i)] > s.books.feeds[(c, i)]
  }

  /** Outside the callback. */
  lemma RoundCloser(s: State, choice: bool, c: Chan, i: Item)
    requires Outstanding(s, c, i) && CallbackRest(s.watch, s.pc) == 0
    requires s.pc.Polling? && s.mem.pipe > 0 ==> choice
    ensures Closer(s, LoopStep(s, choice), c, i)
  {
  }

  /** In the callback, between scans. */
  lemma EntryCloser(s: State, choice: bool, c: Chan, i: Item)
    requires Outstanding(s, c, i) && (s.pc.ReadPipe? || s.pc.PipeClearSkipped?)
    ensures Closer(s, LoopStep(s, choice), c, i)
  {
  }

  lemma TestCloser(s: State, choice: bool, c: Chan, i: Item)
    requires Outstanding(s, c, i) && s.pc.TestPending?
    ensures Closer(s, LoopStep(s, choice), c, i)
  {
  }

  lemma LowerCloser(s: State, choice: bool, c: Chan, i: Item)
    requires Outstanding(s, c, i) && s.pc.ClearPending?
    ensures Closer(s, LoopStep(s, choice), c, i)
  {
  }

  /** In a scan: the end, a marked watcher to be cleared and fed, or an unmarked one to be passed over. */
  lemma ScanEndCloser(s: State, choice: bool, c: Chan, i: Item)
    requires Outstanding(s, c, i) && s.pc.Scan? && s.pc.n == 0
    ensures Closer(s, LoopStep(s, choice), c, i)
  {
  }

  lemma ScanHitCloser(s: State, choice: bool, c: Chan, i: Item)
    requires Outstanding(s, c, i) && s.pc.Scan? && s.pc.n > 0 && (s.pc.c, s.watch.Items(s.pc.c)[s.pc.n - 1]) in s.sent
    ensures Closer(s, LoopStep(s, choice), c, i)
  {
    assert LoopStep(s, choice) == s.(pc := ClearItem(s.pc.c, s.pc.n - 1));
  }

  lemma ScanMissCloser(s: State, choice: bool, c: Chan, i: Item)
    requires Outstanding(s, c, i) && s.pc.Scan? && s.pc.n > 0 && (s.pc.c, s.watch.Items(s.pc.c)[s.pc.n - 1]) !in s.sent
    ensures Closer(s, LoopStep(s, choice), c, i)
  {
    var d, n, items := s.pc.c, s.pc.n, s.watch.Items(s.pc.c);
    assert LoopStep(s, choice) == s.(pc := Scan(d, n - 1));
    assert items[..n] == items[..n - 1] + [items[n - 1]];
  }

  lemma ClearCloser(s: State, choice: bool, c: Chan, i: Item)
    requires Outstanding(s, c, i) && s.pc.ClearItem?
    ensures Closer(s, LoopStep(s, choice), c, i)
  {
    var n, items := s.pc.n, s.watch.Items(s.pc.c);
    assert items[..n + 1] == items[..n] + [items[n]];
  }

  lemma FeedCloser(s: State, choice: bool, c: Chan, i: Item)
    requires Outstanding(s, c, i) && s.pc.Feed?
    ensures Closer(s, LoopStep(s, choice), c, i)
  {
  }

  lemma StepCloser(s: State, choice: bool, c: Chan, i: Item)
    requires Inv(s) && Quiet(s) && (c, i) in s.books.owed && i in s.watch.Items(c)
    requires s.pc.Polling? && s.mem.pipe > 0 ==> choice
    ensures Closer(s, LoopStep(s, choice), c, i)
  {
    QuietOutstanding(s, c, i);
    if s.pc.Scan? {
      if s.pc.n == 0 {
        ScanEndCloser(s, choice, c, i);
      } else if (s.pc.c, s.watch.Items(s.pc.c)[s.pc.n - 1]) in s.sent {
        ScanHitCloser(s, choice, c, i);
      } else {
        ScanMissCloser(s, choice, c, i);
      }
    } else if s.pc.ClearItem? {
      ClearCloser(s, choice, c, i);
    } else if s.pc.Feed? {
      FeedCloser(s, choice, c, i);
    } else if CallbackRest(s.watch, s.pc) == 0 {
      RoundCloser(s, choice, c, i);
    } else if s.pc.TestPending? {
      TestCloser(s, choice, c, i);
    } else if s.pc.ClearPending? {
      LowerCloser(s, choice, c, i);
    } else {
      EntryCloser(s, choice, c, i);
    }
  }

  lemma LoopFrame(s: State, choice: bool)
    ensures LoopStep(s, choice).watch == s.watch && LoopStep(s, choice).senders == s.senders
  {
  }

  lemma FeedsKept(s: State, choice: bool, k: Key)
    ensures s.books.feeds[k] <= LoopStep(s, choice).books.feeds[k]
  {
  }

  lemma {:induction false} FeedsGrow(s: State, choices: seq<bool>, k: Key)
    ensures Loops(s, choices).books.feeds[k] >= s.books.feeds[k]
    decreases |choices|
  {
    if choices != [] {
      FeedsKept(s, choices[0], k);
      FeedsGrow(LoopStep(s, choices[0]), choices[1..], k);
    }
  }

  /**
   Delivery. Once every sender has returned, the loop alone feeds every watcher with an undelivered
   send, within a number of steps that depends on the numbers of watchers only.
   */
  lemma {:induction false} Delivered(s: State, choices: seq<bool>, c: Chan, i: Item)
    requires Inv(s) && Quiet(s) && (c, i) in s.books.owed && i in s.watch.Items(c)
    requires Honest(s, choices) && |choices| >= Distance(s, c, i)
    ensures Loops(s, choices).books.feeds[(c, i)] > s.books.feeds[(c, i)]
    decreases |choices|
  {
    if choices != [] {
      var t := LoopStep(s, choices[0]);
      StepCloser(s, choices[0], c, i);
      LoopKeeps(s, choices[0]);
      LoopFrame(s, choices[0]);
      FeedsKept(s, choices[0], (c, i));
      if (c, i) in t.books.owed {
        Delivered(t, choices[1..], c, i);
      } else {
        FeedsGrow(t, choices[1..], (c, i));
      }
    }
  }

  lemma DistanceBound(s: State, c: Chan, i: Item)
    requires LoopShape(s)
    ensures Distance(s, c, i) <= 6 * (|s.watch.signals| + |s.watch.asyncs|) + 30
  {
  }

  /** From every reachable state. */
  lemma EventuallyDelivered(s0: State, actions: seq<Action>, choices: seq<bool>, c: Chan, i: Item)
    requires Initial(s0)
    requires var s := Run(s0, actions);
             && Quiet(s) && (c, i) in s.books.owed && i in s.watch.Items(c) && Honest(s, choices)
             && |choices| >= 6 * (|s.watch.signals| + |s.watch.asyncs|) + 30
    ensures Loops(Run(s0, actions), choices).books.feeds[(c, i)] > Run(s0, actions).books.feeds[(c, i)]
  {
    InitialInv(s0);
    RunKeeps(s0, actions);
    DistanceBound(Run(s0, actions), c, i);
    Delivered(Run(s0, actions), choices, c, i);
  }

  // ---------- Coming to rest, once the senders have returned ----------

  /** How many reads empty the pipe: one for an eventfd, one for every four bytes otherwise. */
  function Reads(s: State): nat {
    if s.mem.pipe == 0 then 0 else if s.eventfd then 1 else (s.mem.pipe + 3) / 4
  }

  /** Reads left once the callback has run, with or without EV_READ. */
  function ReadsAfter(s: State): nat {
    if s.pipeReadable && s.mem.pipe > 0 then Reads(s) - 1 else Reads(s)
  }

  /** Reads left, and at least one callback for a skipped write. */
  function RoundsAhead(s: State): nat {
    if Reads(s) == 0 && s.mem.skipped then 1 else Reads(s)
  }

  /** How often the callback is still to be entered. */
  function Rounds(s: State): nat {
    match s.pc
    case Running => if s.pipePending then 1 + ReadsAfter(s) else RoundsAhead(s)
    case Unannounce => if s.pipePending then 1 + ReadsAfter(s) else if s.mem.skipped then 1 + Reads(s) else Reads(s)
    case Recheck => if s.pipePending then 1 + ReadsAfter(s) else if s.mem.skipped then 1 + Reads(s) else Reads(s)
    case ReadPipe => 1 + ReadsAfter(s)
    case PipeClearSkipped => Reads(s)
    case _ => RoundsAhead(s)
  }

  /** Where in a round the loop stands; a round counted in `Rounds` begins with a poll that ends in a callback. */
  function Position(s: State): int {
    var coming := s.pipePending || s.mem.skipped;
    match s.pc
    case Running => if s.pipePending then -3 else 3
    case Announce => 2
    case CheckSkipped => 1
    case Polling(_) => 0
    case Unannounce => if coming then -1 else 5
    case Recheck => if coming then -2 else 4
    case ReadPipe => -4
    case _ => CallbackRest(s.watch, s.pc) + 3
  }

  function RoundLength(v: Watchers): nat { Whole(v) + 6 }

  /** An upper bound on the loop's steps until it has nothing left to do. */
  function Work(s: State): int {
    Rounds(s) * RoundLength(s.watch) + Position(s)
  }

  /** Nothing to read, nothing skipped, no callback running or due: the loop only waits. */
  predicate Idle(s: State) {
    && s.mem.pipe == 0 && !s.mem.skipped && !s.pipePending
    && CallbackRest(s.watch, s.pc) == 0
  }

  /** How often the callback was entered on the way. */
  function Callbacks(s: State, choices: seq<bool>): nat
    decreases |choices|
  {
    if choices == [] then 0
    else (if s.pc.ReadPipe? then 1 else 0) + Callbacks(LoopStep(s, choices[0]), choices[1..])
  }

  lemma RoundsOutside(s: State, choice: bool)
    requires LoopShape(s) && CallbackRest(s.watch, s.pc) == 0 && (s.pc.Polling? && s.mem.pipe > 0 ==> choice)
    ensures Rounds(s) == Rounds(LoopStep(s, choice))
  {
  }

  lemma RoundsStep(s: State, choice: bool)
    requires LoopShape(s) && (s.pc.Polling? && s.mem.pipe > 0 ==> choice)
    ensures Rounds(s) == Rounds(LoopStep(s, choice)) + if s.pc.ReadPipe? then 1 else 0
  {
    if CallbackRest(s.watch, s.pc) == 0 {
      RoundsOutside(s, choice);
    } else {
      assert s.mem.skipped == LoopStep(s, choice).mem.skipped || s.pc.PipeClearSkipped?;
      assert s.mem.pipe == LoopStep(s, choice).mem.pipe || s.pc.ReadPipe?;
    }
  }

  /** Outside the callback, and at its entry. */
  lemma PositionStep(s: State, choice: bool)
    requires LoopShape(s) && !Idle(s) && (s.pc.Polling? && s.mem.pipe > 0 ==> choice)
    requires CallbackRest(s.watch, s.pc) == 0 || s.pc.ReadPipe?
    ensures Position(LoopStep(s, choice)) < Position(s) + if s.pc.ReadPipe? then RoundLength(s.watch) else 0
  {
  }

  lemma ScanStep(s: State, choice: bool)
    requires LoopShape(s) && (s.pc.Scan? || s.pc.ClearItem? || s.pc.Feed?)
    ensures Position(LoopStep(s, choice)) < Position(s)
  {
  }

  lemma CallbackStep(s: State, choice: bool)
    requires LoopShape(s) && CallbackRest(s.watch, s.pc) > 0 && !s.pc.ReadPipe?
    ensures Position(LoopStep(s, choice)) < Position(s)
  {
    if s.pc.Scan? || s.pc.ClearItem? || s.pc.Feed? {
      ScanStep(s, choice);
    }
  }

  lemma WorkStep(s: State, choice: bool)
    requires LoopShape(s) && !Idle(s) && (s.pc.Polling? && s.mem.pipe > 0 ==> choice)
    ensures Work(LoopStep(s, choice)) < Work(s)
  {
    var t, n := LoopStep(s, choice), RoundLength(s.watch);
    LoopFrame(s, choice);
    RoundsStep(s, choice);
    if CallbackRest(s.watch, s.pc) > 0 && !s.pc.ReadPipe? {
      CallbackStep(s, choice);
    } else {
      PositionStep(s, choice);
    }
    assert s.pc.ReadPipe? ==> Rounds(s) * n == Rounds(t) * n + n;
  }

  lemma WorkLeft(s: State)
    requires LoopShape(s) && !Idle(s)
    ensures Work(s) > 0
  {
    assert Position(s) >= -4 && RoundLength(s.watch) > 4;
    if Rounds(s) > 0 {
      AtLeastOnce(Rounds(s), RoundLength(s.watch));
    }
  }

  lemma AtLeastOnce(rounds: nat, length: nat)
    requires rounds > 0
    ensures rounds * length >= length
  {
  }

  /** An idle loop stays idle: polls find the pipe unreadable, and the callback is not entered. */
  lemma {:induction false} IdleStays(s: State, choices: seq<bool>)
    requires Idle(s)
    ensures Idle(Loops(s, choices)) && Callbacks(s, choices) == 0 && Rounds(s) == 0
    decreases |choices|
  {
    if choices != [] {
      IdleStays(LoopStep(s, choices[0]), choices[1..]);
    }
  }

  /** An idle loop that is willing to block does. */
  lemma IdleSleeps(s: State)
    requires Idle(s) && s.pc == CheckSkipped
    ensures LoopStep(s, true).pc == Polling(true) && !LoopStep(LoopStep(s, true), true).pipePending
  {
  }

  /**
   Rest. The loop alone enters the callback exactly as often as there is to read, or once for a
   skipped write, and is idle after a bounded number of steps.
   */
  lemma {:induction false} Settles(s: State, choices: seq<bool>)
    requires LoopShape(s) && SleepGuarded(s) && Honest(s, choices) && |choices| >= Work(s)
    ensures Idle(Loops(s, choices)) && Callbacks(s, choices) == Rounds(s)
    decreases |choices|
  {
    if Idle(s) {
      IdleStays(s, choices);
    } else {
      WorkLeft(s);
      WorkStep(s, choices[0]);
      RoundsStep(s, choices[0]);
      LoopControl(s, choices[0]);
      Settles(LoopStep(s, choices[0]), choices[1..]);
    }
  }

  lemma WorkBound(s: State)
    requires LoopShape(s)
    ensures Work(s) <= (Rounds(s) + 1) * (3 * (|s.watch.signals| + |s.watch.asyncs|) + 20)
  {
    var n, m := RoundLength(s.watch), 3 * (|s.watch.signals| + |s.watch.asyncs|) + 20;
    assert n <= m && Position(s) <= m;
    ManyRounds(Rounds(s), n, m);
  }

  lemma ManyRounds(rounds: nat, n: nat, m: nat)
    requires n <= m
    ensures rounds * n + m <= (rounds + 1) * m
  {
    assert rounds * (m - n) >= 0;
  }

  /** From every reachable state: idle, with every flag down and every send to a present watcher delivered. */
  lemma EventuallyIdle(s0: State, actions: seq<Action>, choices: seq<bool>)
    requires Initial(s0)
    requires var s := Run(s0, actions);
             && Quiet(s) && Honest(s, choices)
             && |choices| >= (Rounds(s) + 1) * (3 * (|s.watch.signals| + |s.watch.asyncs|) + 20)
    ensures var s, t := Run(s0, actions), Loops(Run(s0, actions), choices);
            && Idle(t) && Callbacks(s, choices) == Rounds(s) && t.mem.flag == {}
            && forall k :: k in t.books.owed ==> k.1 !in t.watch.Items(k.0)
  {
    InitialInv(s0);
    RunKeeps(s0, actions);
    var s := Run(s0, actions);
    WorkBound(s);
    Settles(s, choices);
    LoopsKeep(s, choices);
    var t := Loops(s, choices);
    forall c ensures c !in t.mem.flag {
      assert FlagBacked(t, c);
    }
    forall k | k in t.books.owed ensures k.1 !in t.watch.Items(k.0) {
      assert k == (k.0, k.1);
      if k.1 in t.watch.Items(k.0) {
        QuietOutstanding(t, k.0, k.1);
      }
    }
  }

  lemma {:induction false} LoopsKeep(s: State, choices: seq<bool>)
    requires Inv(s) && Quiet(s)
    ensures Inv(Loops(s, choices)) && Quiet(Loops(s, choices))
    decreases |choices|
  {
    if choices != [] {
      LoopKeeps(s, choices[0]);
      LoopFrame(s, choices[0]);
      LoopsKeep(LoopStep(s, choices[0]), choices[1..]);
    }
  }
}
