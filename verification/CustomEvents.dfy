/**
 libhv's cross-thread events. A poster, holding the mutex, first bumps the eventfd and only then
 queues its event; the loop reads the eventfd without the mutex and takes as many events as it
 counted, locking once for each. Every step between two such effects may be another thread's.
 */
module CustomEventsSpec {
  type Event = nat

  /** Who holds the mutex: a poster is about to check the eventfd, to write it, or to queue. */
  datatype Holder = Free | Entering(ev: Event) | Ready(ev: Event) | Wrote(ev: Event)

  /**
   `counter` is the eventfd's value, `remaining` what the reader still expects of its batch;
   `posted` records the events whose write succeeded, `run` those the reader took, both in order.
   */
  datatype State = State(holder: Holder, open: bool, counter: nat, remaining: nat, queue: seq<Event>,
                         posted: seq<Event>, run: seq<Event>)

  datatype Step = Enter(ev: Event) | Open(ok: bool) | Write(ok: bool) | Push | Read(k: nat) | Pop

  const INITIAL: State := State(Free, false, 0, 0, [], [], [])

  predicate Enabled(s: State, step: Step) {
    match step
    case Enter(_) => s.holder.Free?
    case Open(_) => s.holder.Entering?
    case Write(_) => s.holder.Ready?
    case Push => s.holder.Wrote?
    // An eventfd yields its whole value; a pipe may yield part of its bytes.
    case Read(k) => s.remaining == 0 && 0 < k <= s.counter
    case Pop => s.holder.Free? && s.remaining > 0
  }

  function Next(s: State, step: Step): State
    requires Enabled(s, step)
  {
    match step
    case Enter(ev) => s.(holder := Entering(ev))
    case Open(ok) =>
      if s.open || ok then s.(open := true, holder := Ready(s.holder.ev)) else s.(holder := Free)
    case Write(ok) =>
      if ok then s.(counter := s.counter + 1, posted := s.posted + [s.holder.ev], holder := Wrote(s.holder.ev))
      else s.(holder := Free)
    case Push => s.(queue := s.queue + [s.holder.ev], holder := Free)
    case Read(k) => s.(counter := s.counter - k, remaining := k)
    case Pop =>
      // An empty queue would make the reader give up the rest of its batch.
      if s.queue == [] then s.(remaining := 0)
      else s.(remaining := s.remaining - 1, run := s.run + [s.queue[0]], queue := s.queue[1..])
  }

  function InFlight(h: Holder): seq<Event> {
    if h.Wrote? then [h.ev] else []
  }

  /** Announced events are the queued ones and the one in flight; none is lost, doubled or out of order. */
  ghost predicate Inv(s: State) {
    && s.counter + s.remaining == |s.queue| + |InFlight(s.holder)|
    && s.posted == s.run + s.queue + InFlight(s.holder)
    && ((s.holder.Ready? || s.holder.Wrote? || s.posted != []) ==> s.open)
  }

  ghost predicate Runs(s: State, steps: seq<Step>, s': State)
    decreases |steps|
  {
    if steps == [] then s' == s else Enabled(s, steps[0]) && Runs(Next(s, steps[0]), steps[1..], s')
  }

  lemma StepKeeps(s: State, step: Step)
    requires Inv(s) && Enabled(s, step)
    ensures Inv(Next(s, step))
  {
  }

  lemma {:induction false} RunKeeps(s: State, steps: seq<Step>, s': State)
    requires Inv(s) && Runs(s, steps, s')
    ensures Inv(s')
    decreases |steps|
  {
    if steps != [] {
      StepKeeps(s, steps[0]);
      RunKeeps(Next(s, steps[0]), steps[1..], s');
    }
  }

  /** In every run, what the reader took is what was posted, in posting order, each posting once. */
  lemma FifoOnce(steps: seq<Step>, s: State)
    requires Runs(INITIAL, steps, s)
    ensures |s.run| <= |s.posted| && s.run == s.posted[..|s.run|]
    ensures s.posted[|s.run|..] == s.queue + InFlight(s.holder)
  {
    RunKeeps(INITIAL, steps, s);
    assert s.posted == s.run + (s.queue + InFlight(s.holder));
  }

  /** The reader never finds the queue empty, so it never gives up a batch. */
  lemma NeverEmpty(steps: seq<Step>, s: State)
    requires Runs(INITIAL, steps, s) && Enabled(s, Pop)
    ensures s.queue != []
    ensures |s.run| < |s.posted| && Next(s, Pop).run == s.run + [s.posted[|s.run|]]
  {
    RunKeeps(INITIAL, steps, s);
    assert (s.run + s.queue)[|s.run|] == s.queue[0];
  }

  /** No event is stranded: with the mutex free and no batch under way, queued events leave the eventfd readable. */
  lemma NeverStranded(steps: seq<Step>, s: State)
    requires Runs(INITIAL, steps, s) && s.holder.Free? && s.remaining == 0
    ensures s.counter == |s.queue| && (s.counter == 0 <==> s.run == s.posted)
  {
    RunKeeps(INITIAL, steps, s);
    assert s.counter == 0 ==> s.run + s.queue == s.run;
  }

  // ---------- The reader's batch ----------

  datatype Posting = Posting(ev: Event, opens: bool, writes: bool)

  /** One whole `hloop_post_event`. */
  function Posted(s: State, p: Posting): State
    requires s.holder.Free?
  {
    var s1 := Next(Next(s, Enter(p.ev)), Open(p.opens));
    if s1.holder.Free? then s1
    else
      var s2 := Next(s1, Write(p.writes));
      if s2.holder.Free? then s2 else Next(s2, Push)
  }

  function PostedAll(s: State, ps: seq<Posting>): State
    requires s.holder.Free?
    ensures PostedAll(s, ps).holder.Free? && PostedAll(s, ps).remaining == s.remaining
    decreases |ps|
  {
    if ps == [] then s else PostedAll(Posted(s, ps[0]), ps[1..])
  }

  /** `eventfd_read_cb` from its loop on, with the postings that come before each lock, by a callback or another thread. */
  function Batch(s: State, script: seq<seq<Posting>>): State
    requires s.holder.Free?
    ensures Batch(s, script).holder.Free? && Batch(s, script).remaining == 0
    decreases s.remaining, |script|
  {
    if s.remaining == 0 then s else Batch(Round(s, script), Later(script))
  }

  /** One turn of its loop, after the postings that come first. */
  function Round(s: State, script: seq<seq<Posting>>): State
    requires s.holder.Free? && s.remaining > 0
    ensures Round(s, script).holder.Free? && Round(s, script).remaining < s.remaining
  {
    Next(PostedAll(s, if script == [] then [] else script[0]), Pop)
  }

  function Later<T>(script: seq<T>): seq<T> {
    if script == [] then [] else script[1..]
  }

  lemma FrontShift(run: seq<Event>, q: seq<Event>, q': seq<Event>, n: int)
    requires 0 < n <= |q| <= |q'| + 1 && q'[..|q| - 1] == q[1..]
    ensures run + [q[0]] + q'[..n - 1] == run + q[..n]
  {
  }

  lemma RoundRuns(s: State, script: seq<seq<Posting>>)
    requires Inv(s) && s.holder.Free? && s.remaining > 0
    ensures var t := Round(s, script);
            && Inv(t) && t.remaining == s.remaining - 1
            && s.queue != [] && t.run == s.run + [s.queue[0]]
            && |s.queue| <= |t.queue| + 1 && t.queue[..|s.queue| - 1] == s.queue[1..]
  {
    var ps := if script == [] then [] else script[0];
    var s1 := PostedAll(s, ps);
    PostedAllKeeps(s, ps);
    StepKeeps(s1, Pop);
    assert s1.queue[..|s.queue|][0] == s.queue[0];
    assert s1.queue[..|s.queue|][1..] == s1.queue[1..][..|s.queue| - 1];
  }

  lemma PostedKeeps(s: State, p: Posting)
    requires Inv(s) && s.holder.Free?
    ensures var t := Posted(s, p);
            && Inv(t) && t.holder.Free? && t.remaining == s.remaining && t.run == s.run
            && t.queue == if (s.open || p.opens) && p.writes then s.queue + [p.ev] else s.queue
  {
  }

  lemma {:induction false} PostedAllKeeps(s: State, ps: seq<Posting>)
    requires Inv(s) && s.holder.Free?
    ensures var t := PostedAll(s, ps);
            && Inv(t) && t.remaining == s.remaining && t.run == s.run
            && |s.queue| <= |t.queue| && t.queue[..|s.queue|] == s.queue
    decreases |ps|
  {
    if ps != [] {
      var s1 := Posted(s, ps[0]);
      PostedKeeps(s, ps[0]);
      PostedAllKeeps(s1, ps[1..]);
      var t := PostedAll(s, ps);
      assert t.queue[..|s.queue|] == t.queue[..|s1.queue|][..|s.queue|];
    }
  }

  /** Whatever is posted meanwhile, a batch runs exactly the events it counted, the oldest first. */
  lemma {:induction false} BatchRuns(s: State, script: seq<seq<Posting>>)
    requires Inv(s) && s.holder.Free?
    ensures s.remaining <= |s.queue| && Batch(s, script).run == s.run + s.queue[..s.remaining]
    ensures Inv(Batch(s, script))
    decreases s.remaining, |script|
  {
    if s.remaining > 0 {
      var t := Round(s, script);
      RoundRuns(s, script);
      BatchRuns(t, Later(script));
      FrontShift(s.run, s.queue, t.queue, s.remaining);
    }
  }

  /** Left alone with the mutex free, the reader needs two batches at most to run everything posted. */
  lemma Drains(s: State)
    requires Inv(s) && s.holder.Free?
    ensures var s1 := Batch(s, []);
            && (s1.counter == 0 ==> s1.run == s1.posted == s.posted)
            && (s1.counter > 0 ==> var s2 := Batch(Next(s1, Read(s1.counter)), []);
                                   s2.run == s2.posted == s.posted && s2.counter == 0)
  {
    var s1 := Batch(s, []);
    BatchRuns(s, []);
    AloneKeeps(s);
    if s1.counter > 0 {
      var r := Next(s1, Read(s1.counter));
      StepKeeps(s1, Read(s1.counter));
      BatchRuns(r, []);
      AloneKeeps(r);
      assert r.queue[..r.remaining] == r.queue;
    }
  }

  lemma {:induction false} AloneKeeps(s: State)
    requires Inv(s) && s.holder.Free?
    ensures Batch(s, []).posted == s.posted && Batch(s, []).counter == s.counter
    decreases s.remaining
  {
    if s.remaining > 0 {
      RoundRuns(s, []);
      AloneKeeps(Round(s, []));
    }
  }
}

module CustomEvents {
  import opened CustomEventsSpec
  import opened EventQueue

  class Loop {
    const events: Queue<Event>
    var open: bool
    var counter: nat
    ghost var remaining: nat
    ghost var posted: seq<Event>
    ghost var run: seq<Event>

    constructor ()
      ensures Ready() && Model() == INITIAL && fresh(events) && fresh(events.ptr)
    {
      events := new Queue();
      open, counter, remaining, posted, run := false, 0, 0, [], [];
    }

    ghost predicate Ready()
      reads this, events
    {
      events.Valid()
    }

    ghost function Model(): State
      reads this, events, events.ptr
      requires Ready()
    {
      State(Free, open, counter, remaining, events.Contents(), posted, run)
    }

    /** `hloop_post_event`; `opens` and `writes` say how the eventfd calls end. */
    method PostEvent(ev: Event, opens: bool, writes: bool)
      requires Ready()
      modifies this`open, this`counter, this`posted, events, events.ptr
      ensures Ready() && Model() == Posted(old(Model()), Posting(ev, opens, writes))
      ensures events.ptr == old(events.ptr) || fresh(events.ptr)
    {
      if !open {
        if !opens {
          return;
        }
        open := true;
      }
      if !writes {
        return;
      }
      counter := counter + 1;
      posted := posted + [ev];
      Enqueue(ev);
    }

    /** The queue gets its first block when its first event comes. */
    method Enqueue(ev: Event)
      requires Ready()
      modifies events, events.ptr
      ensures Ready() && events.Contents() == old(events.Contents()) + [ev]
      ensures events.ptr == old(events.ptr) || fresh(events.ptr)
    {
      if events.ptr.Length == 0 {
        events.Init(16);
      }
      events.PushBack(ev);
    }

    /** Postings between two rounds of the reader. */
    method PostAll(ps: seq<Posting>)
      requires Ready()
      modifies this`open, this`counter, this`posted, events, events.ptr
      ensures Ready() && Model() == PostedAll(old(Model()), ps)
      ensures events.ptr == old(events.ptr) || fresh(events.ptr)
    {
      ghost var s := Model();
      var i := 0;
      while i < |ps|
        invariant 0 <= i <= |ps| && Ready() && PostedAll(Model(), ps[i..]) == PostedAll(s, ps)
        invariant events.ptr == old(events.ptr) || fresh(events.ptr)
      {
        assert ps[i..][1..] == ps[i + 1..];
        PostEvent(ps[i].ev, ps[i].opens, ps[i].writes);
        i := i + 1;
      }
    }

    /** `eventfd_read_cb` on a batch of `count`. */
    method RunBatch(count: nat, script: seq<seq<Posting>>)
      requires Ready() && remaining == count
      modifies this, events, events.ptr
      ensures Ready() && Model() == Batch(old(Model()), script)
      ensures Inv(old(Model())) ==> run == old(run) + old(Model()).queue[..count]
    {
      ghost var s := Model();
      var rest := script;
      if Inv(s) {
        BatchRuns(s, script);
      }
      var i := 0;
      while i < count
        invariant 0 <= i <= count && Ready() && remaining == count - i
        invariant Batch(Model(), rest) == Batch(s, script)
        invariant events.ptr == old(events.ptr) || fresh(events.ptr)
      {
        var ok := RunRound(if rest == [] then [] else rest[0]);
        rest := Later(rest);
        if !ok {
          break;
        }
        i := i + 1;
      }
    }

    /** One round: false when the queue is empty. */
    method RunRound(ps: seq<Posting>) returns (ok: bool)
      requires Ready() && remaining > 0
      modifies this, events, events.ptr
      ensures Ready() && Model() == Next(PostedAll(old(Model()), ps), Pop)
      ensures remaining == if ok then old(remaining) - 1 else 0
      ensures events.ptr == old(events.ptr) || fresh(events.ptr)
    {
      PostAll(ps);
      ok := RunOne();
    }

    /** The reader's critical section, and the callback after it. */
    method RunOne() returns (ok: bool)
      requires Ready() && remaining > 0
      modifies this`remaining, this`run, events`size, events`offset
      ensures Ready() && Model() == Next(old(Model()), Pop)
      ensures remaining == if ok then old(remaining) - 1 else 0
    {
      ghost var q := events.Contents();
      if events.size == 0 {
        remaining := 0;
        return false;
      }
      var ev := events.Front();
      events.PopFront();
      assert events.Contents() == q[1..];
      run := run + [ev.value];
      remaining := remaining - 1;
      return true;
    }
  }
}
