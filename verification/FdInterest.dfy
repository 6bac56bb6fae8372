/**
 libev's lazy list of changed descriptors and the poll back end it feeds: starting and
 stopping I/O watchers only flags descriptors, and `fd_reify` brings the back end in step.
 */
module PollBackend {
  import opened Descriptors

  /** One `struct pollfd`. */
  datatype PollFd = PollFd(fd: Fd, events: Mask)

  /** The two arrays point at each other, and only wanted descriptors are listed. */
  ghost predicate Linked(polls: seq<PollFd>, idxs: seq<int>) {
    && (forall i :: 0 <= i < |polls| ==> polls[i].fd < |idxs| && idxs[polls[i].fd] == i && polls[i].events != {})
    && (forall fd :: 0 <= fd < |idxs| ==> idxs[fd] < |polls| && (idxs[fd] >= 0 ==> polls[idxs[fd]].fd == fd))
  }

  function MaskOf(polls: seq<PollFd>, idxs: seq<int>, fd: Fd): Mask {
    if fd < |idxs| && 0 <= idxs[fd] < |polls| then polls[idxs[fd]].events else {}
  }

  class Poll {
    var polls: seq<PollFd>
    var pollidxs: seq<int>

    constructor ()
      ensures Valid() && forall fd :: Interest(fd) == {}
    {
      polls, pollidxs := [], [];
    }

    ghost predicate Valid()
      reads this
    {
      Linked(polls, pollidxs)
    }

    /** The mask `poll` is called with for a descriptor. */
    ghost function Interest(fd: Fd): Mask
      reads this
    {
      MaskOf(polls, pollidxs, fd)
    }

    /** `poll_modify`. */
    method Modify(fd: Fd, oev: Mask, nev: Mask)
      requires Valid() && oev == Interest(fd)
      modifies this
      ensures Valid()
      ensures forall f :: Interest(f) == if f == fd then nev else old(Interest(f))
    {
      if oev == nev {
        return;
      }
      Grow(fd);
      var idx := pollidxs[fd];
      if idx < 0 {
        idx := |polls|;
        pollidxs := pollidxs[fd := idx];
        polls := polls + [PollFd(fd, {})];
      }
      assert polls[idx].fd == fd;
      if nev != {} {
        polls := polls[idx := PollFd(fd, nev)];
      } else {
        Remove(fd, idx);
      }
    }

    /** The dense array stays dense: its last entry moves into the freed slot. */
    method Remove(fd: Fd, idx: int)
      requires Valid() && fd < |pollidxs| && pollidxs[fd] == idx >= 0
      modifies this
      ensures Valid()
      ensures forall f :: Interest(f) == if f == fd then {} else old(Interest(f))
    {
      var last := |polls| - 1;
      pollidxs := pollidxs[fd := -1];
      if idx < last {
        polls := polls[idx := polls[last]];
        pollidxs := pollidxs[polls[idx].fd := idx];
      }
      polls := polls[..last];
    }

    /** `array_needsize_pollidx`: new indices are -1. */
    method Grow(fd: Fd)
      requires Valid()
      modifies this`pollidxs
      ensures Valid() && fd < |pollidxs|
      ensures forall f :: Interest(f) == old(Interest(f))
      ensures Interest(fd) != {} <==> pollidxs[fd] >= 0
    {
      if fd >= |pollidxs| {
        pollidxs := pollidxs + seq(fd + 1 - |pollidxs|, _ => -1);
      }
    }
  }
}

module FdInterest {
  import opened Common
  import opened Descriptors
  import opened PollBackend
  import PendingSpec

  type W = nat

  /** One `ANFD`: its watcher list, first to last, and what the back end was last told. */
  datatype Anfd = Anfd(head: seq<W>, events: Mask, reify: Reify)

  /** One `ev_io`. `fdset`: its descriptor was set since it was last started. */
  datatype Io = Io(fd: Fd, events: Mask, fdset: bool, active: bool)

  const ZERO := Anfd([], {}, Reify(false, false))

  /** The union of the masks of a watcher list. */
  function Wanted(ios: map<W, Io>, head: seq<W>): Mask {
    if head == [] then {} else (if head[0] in ios then ios[head[0]].events else {}) + Wanted(ios, head[1..])
  }

  /** An event is wanted if and only if some watcher on the list wants it. */
  lemma {:induction false} WantedExact(ios: map<W, Io>, head: seq<W>, ev: Ev)
    ensures ev in Wanted(ios, head) <==> exists w :: w in head && w in ios && ev in ios[w].events
  {
    if head != [] {
      WantedExact(ios, head[1..], ev);
      assert forall w :: w in head <==> w == head[0] || w in head[1..];
    }
  }

  /** `wlist_del`: the first occurrence goes. */
  function Removed(head: seq<W>, w: W): seq<W> {
    if head == [] then [] else if head[0] == w then head[1..] else [head[0]] + Removed(head[1..], w)
  }

  /** EV_READ, EV_WRITE and EV_ERROR, as bit numbers. */
  const FAILED: PendingSpec.Revents := {0, 1, 31}

  /** What `fd_kill` does to the pending queues: each watcher is stopped, which clears it, and then fed. */
  function KillOps(head: seq<W>): seq<PendingSpec.Op> {
    if head == [] then [] else [PendingSpec.Clear(head[0]), PendingSpec.Feed(head[0], FAILED)] + KillOps(head[1..])
  }

  /** Between two turns of `fd_kill`: those of the watchers `head` that are no longer in `rest` have been stopped and fed. */
  ghost predicate Killing(ios0: map<W, Io>, ios: map<W, Io>, head: seq<W>, rest: seq<W>,
                          ops0: seq<PendingSpec.Op>, ops: seq<PendingSpec.Op>)
  {
    && ios.Keys == ios0.Keys && (forall w :: w in rest ==> w in head)
    && (forall w :: w in ios ==> ios[w] == if w in head && w !in rest then ios0[w].(active := false) else ios0[w])
    && ops0 + KillOps(head) == ops + KillOps(rest)
  }

  lemma KillStep(ios0: map<W, Io>, ios: map<W, Io>, head: seq<W>, rest: seq<W>,
                 ops0: seq<PendingSpec.Op>, ops: seq<PendingSpec.Op>)
    requires Killing(ios0, ios, head, rest, ops0, ops) && rest != [] && rest[0] in ios && rest[0] !in rest[1..]
    ensures var w := rest[0];
            Killing(ios0, ios[w := ios[w].(active := false)], head, rest[1..],
                    ops0, ops + [PendingSpec.Clear(w), PendingSpec.Feed(w, FAILED)])
  {
    assert rest == [rest[0]] + rest[1..];
  }

  lemma {:induction false} RemovedCorrect(head: seq<W>, w: W)
    requires NoDuplicates(head)
    ensures NoDuplicates(Removed(head, w))
    ensures forall v :: v in Removed(head, w) <==> v in head && v != w
  {
    if head != [] {
      assert forall v :: v in head <==> v == head[0] || v in head[1..];
      if head[0] != w {
        RemovedCorrect(head[1..], w);
        assert head[0] !in head[1..];
      }
    }
  }

  lemma {:induction false} WantedFrame(ios: map<W, Io>, ios': map<W, Io>, head: seq<W>)
    requires forall v :: v in head ==> (v in ios <==> v in ios') && (v in ios ==> ios'[v].events == ios[v].events)
    ensures Wanted(ios, head) == Wanted(ios', head)
  {
    if head != [] {
      assert head[0] in head;
      WantedFrame(ios, ios', head[1..]);
    }
  }

  // ---------- What holds between calls, and inside fd_reify ----------

  /** The list of changes and the flags say the same: every flagged descriptor is listed once. */
  ghost predicate Tracked(changes: seq<Fd>, anfds: seq<Anfd>) {
    && NoDuplicates(changes)
    && (forall i :: 0 <= i < |changes| ==> changes[i] < |anfds|)
    && (forall fd :: 0 <= fd < |anfds| ==> (fd in changes <==> anfds[fd].reify.Set()))
  }

  /** A watcher list holds exactly the active watchers of its descriptor. */
  ghost predicate Listed(ios: map<W, Io>, anfds: seq<Anfd>) {
    && (forall fd :: 0 <= fd < |anfds| ==> NoDuplicates(anfds[fd].head))
    && (forall fd, w :: 0 <= fd < |anfds| && w in anfds[fd].head ==> w in ios && ios[w].active && ios[w].fd == fd)
    && (forall w :: w in ios && ios[w].active ==> ios[w].fd < |anfds| && w in anfds[ios[w].fd].head)
  }

  /** An unflagged descriptor's list wants exactly what the back end was told. */
  ghost predicate Synced(ios: map<W, Io>, anfds: seq<Anfd>) {
    forall fd :: 0 <= fd < |anfds| && !anfds[fd].reify.Set() ==> anfds[fd].events == Wanted(ios, anfds[fd].head)
  }

  ghost predicate Ok(changes: seq<Fd>, anfds: seq<Anfd>, ios: map<W, Io>) {
    Tracked(changes, anfds) && Listed(ios, anfds) && Synced(ios, anfds)
  }

  function Flagged(a: Anfd, flags: Reify): Anfd {
    a.(reify := Reify(a.reify.change || flags.change, a.reify.fdset || flags.fdset))
  }

  function NowListed(changes: seq<Fd>, anfds: seq<Anfd>, fd: Fd): seq<Fd>
    requires fd < |anfds|
  {
    if anfds[fd].reify.Set() then changes else changes + [fd]
  }

  lemma TrackedFlag(changes: seq<Fd>, anfds: seq<Anfd>, fd: Fd, a: Anfd)
    requires Tracked(changes, anfds) && fd < |anfds| && a.reify.Set()
    ensures Tracked(NowListed(changes, anfds, fd), anfds[fd := a])
  {
  }

  /** Once set, a flag stays set. */
  predicate FlagsKept(a: seq<Anfd>, b: seq<Anfd>) {
    |a| <= |b| && forall fd :: 0 <= fd < |a| ==>
      (a[fd].reify.change ==> b[fd].reify.change) && (a[fd].reify.fdset ==> b[fd].reify.fdset)
  }

  /** Prepending a watcher to its list and flagging the descriptor. */
  lemma StartOk(changes: seq<Fd>, anfds: seq<Anfd>, ios: map<W, Io>, w: W)
    requires Ok(changes, anfds, ios) && w in ios && !ios[w].active && ios[w].fd < |anfds|
    ensures var fd := ios[w].fd; var a := anfds[fd];
            Ok(NowListed(changes, anfds, fd),
               anfds[fd := Flagged(a.(head := [w] + a.head), Reify(true, ios[w].fdset))],
               ios[w := ios[w].(active := true, fdset := false)])
  {
    var fd := ios[w].fd;
    var a := Flagged(anfds[fd].(head := [w] + anfds[fd].head), Reify(true, ios[w].fdset));
    var anfds', ios' := anfds[fd := a], ios[w := ios[w].(active := true, fdset := false)];
    TrackedFlag(changes, anfds, fd, a);
    assert w !in anfds[fd].head;
    ListedPut(ios, anfds, ios', anfds', fd, w);
    SyncedFrame(ios, anfds, ios', anfds', fd);
  }

  lemma ListedPut(ios: map<W, Io>, anfds: seq<Anfd>, ios': map<W, Io>, anfds': seq<Anfd>, fd: Fd, w: W)
    requires Listed(ios, anfds) && w in ios && ios[w].fd == fd < |anfds| && w !in anfds[fd].head
    requires w in ios' && ios' == ios[w := ios'[w]] && ios'[w].fd == fd && ios'[w].active
    requires |anfds'| == |anfds| && anfds' == anfds[fd := anfds'[fd]] && anfds'[fd].head == [w] + anfds[fd].head
    ensures Listed(ios', anfds')
  {
  }

  lemma SyncedFrame(ios: map<W, Io>, anfds: seq<Anfd>, ios': map<W, Io>, anfds': seq<Anfd>, fd: Fd)
    requires Synced(ios, anfds) && fd < |anfds| == |anfds'|
    requires anfds' == anfds[fd := anfds'[fd]] && anfds'[fd].reify.Set()
    requires ios'.Keys == ios.Keys && forall v :: v in ios ==> ios'[v].events == ios[v].events
    ensures Synced(ios', anfds')
  {
    forall f | 0 <= f < |anfds'| && !anfds'[f].reify.Set() ensures anfds'[f].events == Wanted(ios', anfds'[f].head) {
      WantedFrame(ios, ios', anfds[f].head);
    }
  }

  /** Taking a watcher off its list and flagging the descriptor. */
  lemma StopOk(changes: seq<Fd>, anfds: seq<Anfd>, ios: map<W, Io>, w: W)
    requires Ok(changes, anfds, ios) && w in ios && ios[w].active
    ensures ios[w].fd < |anfds|
    ensures var fd := ios[w].fd; var a := anfds[fd];
            Ok(NowListed(changes, anfds, fd),
               anfds[fd := Flagged(a.(head := Removed(a.head, w)), Reify(true, false))],
               ios[w := ios[w].(active := false)])
  {
    var fd := ios[w].fd;
    var a := Flagged(anfds[fd].(head := Removed(anfds[fd].head, w)), Reify(true, false));
    var anfds', ios' := anfds[fd := a], ios[w := ios[w].(active := false)];
    TrackedFlag(changes, anfds, fd, a);
    RemovedCorrect(anfds[fd].head, w);
    assert Listed(ios', anfds');
    SyncedFrame(ios, anfds, ios', anfds', fd);
  }

  /** New, empty descriptors need nothing. */
  lemma GrowOk(changes: seq<Fd>, anfds: seq<Anfd>, ios: map<W, Io>, n: nat)
    requires Ok(changes, anfds, ios)
    ensures Ok(changes, anfds + seq(n, _ => ZERO), ios)
  {
  }

  /** Dealing with the first listed descriptor. */
  lemma ReifyOk(changes: seq<Fd>, anfds: seq<Anfd>, ios: map<W, Io>)
    requires Ok(changes, anfds, ios) && changes != []
    ensures changes[0] < |anfds|
    ensures var fd := changes[0]; var a := anfds[fd];
            Ok(changes[1..], anfds[fd := Anfd(a.head, Wanted(ios, a.head), Reify(false, false))], ios)
  {
  }

  /** Calls a back end may make into the loop from inside `backend_modify`, and applications outside. */
  datatype Call = Start(w: W) | Stop(w: W) | Kill(fd: Fd)

  class Interest {
    const backend: Poll
    var ios: map<W, Io>
    var anfds: seq<Anfd>
    var fdchanges: seq<Fd>
    /** The calls made to `clear_pending` and `ev_feed_event`, in order. */
    ghost var pended: seq<PendingSpec.Op>
    /** The calls made to `backend_modify`: descriptor, old and new mask. */
    ghost var told: seq<(Fd, Mask, Mask)>

    constructor (watchers: map<W, Io>)
      requires forall w :: w in watchers ==> !watchers[w].active
      ensures Valid(0) && ios == watchers && fdchanges == [] && pended == [] && told == [] && fresh(backend)
    {
      backend := new Poll();
      ios, anfds, fdchanges, pended, told := watchers, [], [], [], [];
    }

    /** With `done` == 0, between calls; otherwise inside `fd_reify`, which has dealt with that many changes. */
    ghost predicate Valid(done: nat)
      reads this, backend
    {
      && done <= |fdchanges| && Ok(fdchanges[done..], anfds, ios)
      && backend.Valid() && Told()
    }

    ghost predicate Told()
      reads this, backend
    {
      forall fd: Fd :: backend.Interest(fd) == if fd < |anfds| then anfds[fd].events else {}
    }

    /** `fd_change`. */
    method FdChange(fd: Fd, flags: Reify)
      requires fd < |anfds|
      modifies this`anfds, this`fdchanges
      ensures fdchanges == NowListed(old(fdchanges), old(anfds), fd)
      ensures anfds == old(anfds)[fd := Flagged(old(anfds)[fd], flags)]
      ensures FlagsKept(old(anfds), anfds) && (flags.change ==> anfds[fd].reify.change) && (flags.fdset ==> anfds[fd].reify.fdset)
    {
      var reify := anfds[fd].reify;
      anfds := anfds[fd := anfds[fd].(reify := Reify(reify.change || flags.change, reify.fdset || flags.fdset))];
      if !reify.Set() {
        fdchanges := fdchanges + [fd];
      }
    }

    /** Store a descriptor's new watcher list and flag the descriptor. */
    method Relist(fd: Fd, head: seq<W>, flags: Reify)
      requires fd < |anfds|
      modifies this`anfds, this`fdchanges
      ensures fdchanges == NowListed(old(fdchanges), old(anfds), fd)
      ensures anfds == old(anfds)[fd := Flagged(old(anfds)[fd].(head := head), flags)]
      ensures FlagsKept(old(anfds), anfds) && (flags.change ==> anfds[fd].reify.change) && (flags.fdset ==> anfds[fd].reify.fdset)
    {
      anfds := anfds[fd := anfds[fd].(head := head)];
      FdChange(fd, flags);
    }

    /** `ev_io_start`. */
    method IoStart(w: W, ghost done: nat)
      requires Valid(done) && w in ios
      modifies this`ios, this`anfds, this`fdchanges
      ensures Valid(done) && old(fdchanges) <= fdchanges
      ensures ios == old(ios)[w := old(ios)[w].(active := true, fdset := old(ios)[w].active && old(ios)[w].fdset)]
      ensures FlagsKept(old(anfds), anfds)
      ensures !old(ios)[w].active ==> var fd := ios[w].fd;
                && fd < |anfds| && anfds[fd].reify.change && (old(ios)[w].fdset ==> anfds[fd].reify.fdset)
                && anfds[fd].head == [w] + if fd < |old(anfds)| then old(anfds)[fd].head else []
    {
      if !ios[w].active {
        NeedFd(ios[w].fd, done);
        Link(w, done);
      }
    }

    /** `array_needsize` with zero fill. */
    method NeedFd(fd: Fd, ghost done: nat)
      requires Valid(done)
      modifies this`anfds
      ensures Valid(done) && fd < |anfds| && FlagsKept(old(anfds), anfds)
      ensures old(anfds) <= anfds && forall f :: |old(anfds)| <= f < |anfds| ==> anfds[f] == ZERO
    {
      if fd >= |anfds| {
        GrowOk(fdchanges[done..], anfds, ios, fd + 1 - |anfds|);
        anfds := anfds + seq(fd + 1 - |anfds|, _ => ZERO);
      }
    }

    method Link(w: W, ghost done: nat)
      requires Valid(done) && w in ios && !ios[w].active && ios[w].fd < |anfds|
      modifies this`ios, this`anfds, this`fdchanges
      ensures Valid(done) && old(fdchanges) <= fdchanges
      ensures ios == old(ios)[w := old(ios)[w].(active := true, fdset := false)]
      ensures FlagsKept(old(anfds), anfds)
      ensures var fd := ios[w].fd;
              && fd < |anfds| && anfds[fd].reify.change && (old(ios)[w].fdset ==> anfds[fd].reify.fdset)
              && anfds[fd].head == [w] + old(anfds)[fd].head
    {
      var fd := ios[w].fd;
      StartOk(fdchanges[done..], anfds, ios, w);
      TailListed(fdchanges, anfds, fd, done);
      Relist(fd, [w] + anfds[fd].head, Reify(true, ios[w].fdset));
      ios := ios[w := ios[w].(active := true, fdset := false)];
    }

    /** `ev_io_stop`. */
    method IoStop(w: W, ghost done: nat)
      requires Valid(done) && w in ios
      modifies this`ios, this`anfds, this`fdchanges, this`pended
      ensures Valid(done) && old(fdchanges) <= fdchanges && |anfds| == |old(anfds)|
      ensures ios == old(ios)[w := old(ios)[w].(active := false)]
      ensures pended == old(pended) + [PendingSpec.Clear(w)]
      ensures old(ios)[w].active ==> anfds[ios[w].fd].head == Removed(old(anfds)[ios[w].fd].head, w)
      ensures FlagsKept(old(anfds), anfds) && (old(ios)[w].active ==> anfds[ios[w].fd].reify.change)
    {
      pended := pended + [PendingSpec.Clear(w)];
      if !ios[w].active {
        return;
      }
      var fd := ios[w].fd;
      StopOk(fdchanges[done..], anfds, ios, w);
      TailListed(fdchanges, anfds, fd, done);
      Relist(fd, Removed(anfds[fd].head, w), Reify(true, false));
      ios := ios[w := ios[w].(active := false)];
    }

    /** `fd_kill`: stop every watcher of a descriptor and feed it all events. */
    method FdKill(fd: Fd, ghost done: nat)
      requires Valid(done) && fd < |anfds|
      modifies this`ios, this`anfds, this`fdchanges, this`pended
      ensures Valid(done) && old(fdchanges) <= fdchanges && |anfds| == |old(anfds)|
      ensures anfds[fd].head == [] && ios.Keys == old(ios).Keys
      ensures forall w :: w in ios ==> ios[w] == if w in old(anfds)[fd].head then old(ios)[w].(active := false) else old(ios)[w]
      ensures pended == old(pended) + KillOps(old(anfds)[fd].head) && FlagsKept(old(anfds), anfds)
    {
      ghost var head := anfds[fd].head;
      while anfds[fd].head != []
        invariant Valid(done) && old(fdchanges) <= fdchanges && |anfds| == |old(anfds)|
        invariant FlagsKept(old(anfds), anfds)
        invariant Killing(old(ios), ios, head, anfds[fd].head, old(pended), pended)
        decreases |anfds[fd].head|
      {
        ghost var ios1, rest, ops := ios, anfds[fd].head, pended;
        KillFirst(fd, done);
        KillStep(old(ios), ios1, head, rest, old(pended), ops);
      }
    }

    /** One turn of its loop. */
    method KillFirst(fd: Fd, ghost done: nat)
      requires Valid(done) && fd < |anfds| && anfds[fd].head != []
      modifies this`ios, this`anfds, this`fdchanges, this`pended
      ensures Valid(done) && old(fdchanges) <= fdchanges && |anfds| == |old(anfds)|
      ensures var w := old(anfds)[fd].head[0];
              && w in old(ios) && ios == old(ios)[w := old(ios)[w].(active := false)]
              && anfds[fd].head == old(anfds)[fd].head[1..] && w !in anfds[fd].head
              && pended == old(pended) + [PendingSpec.Clear(w), PendingSpec.Feed(w, FAILED)]
      ensures FlagsKept(old(anfds), anfds)
    {
      var w := anfds[fd].head[0];
      assert w in anfds[fd].head;
      IoStop(w, done);
      pended := pended + [PendingSpec.Feed(w, FAILED)];
    }

    /** What a callback, or a back end inside `backend_modify`, does to the watchers. */
    method Perform(calls: seq<Call>, ghost done: nat)
      requires Valid(done) && forall i :: 0 <= i < |calls| && !calls[i].Kill? ==> calls[i].w in ios
      modifies this`ios, this`anfds, this`fdchanges, this`pended
      ensures Valid(done) && old(fdchanges) <= fdchanges && ios.Keys == old(ios).Keys && FlagsKept(old(anfds), anfds)
      ensures calls == [] ==> fdchanges == old(fdchanges) && ios == old(ios)
    {
      for i := 0 to |calls|
        invariant Valid(done) && old(fdchanges) <= fdchanges && ios.Keys == old(ios).Keys && FlagsKept(old(anfds), anfds)
        invariant i == 0 ==> fdchanges == old(fdchanges) && ios == old(ios)
      {
        PerformOne(calls[i], done);
      }
    }

    method PerformOne(call: Call, ghost done: nat)
      requires Valid(done) && (!call.Kill? ==> call.w in ios)
      modifies this`ios, this`anfds, this`fdchanges, this`pended
      ensures Valid(done) && old(fdchanges) <= fdchanges && ios.Keys == old(ios).Keys && FlagsKept(old(anfds), anfds)
    {
      match call
      case Start(w) => IoStart(w, done);
      case Stop(w) => IoStop(w, done);
      case Kill(fd) => if fd < |anfds| { FdKill(fd, done); }
    }

    /**
     `fd_reify`. `script[i]` is what the back end does to the watchers during its i-th call;
     descriptors it flags meanwhile stay on the list for the next round.
     */
    method FdReify(script: seq<seq<Call>>)
      requires Valid(0) && |script| >= |fdchanges|
      requires forall i, j :: 0 <= i < |script| && 0 <= j < |script[i]| && !script[i][j].Kill? ==> script[i][j].w in ios
      modifies this, backend
      ensures Valid(0) && ios.Keys == old(ios).Keys
      ensures (forall i :: 0 <= i < |script| ==> script[i] == []) ==> fdchanges == [] && ios == old(ios)
    {
      var changecnt := |fdchanges|;
      for i := 0 to changecnt
        invariant Valid(i) && |fdchanges| >= changecnt && ios.Keys == old(ios).Keys
        invariant (forall j :: 0 <= j < |script| ==> script[j] == []) ==> |fdchanges| == changecnt && ios == old(ios)
      {
        ReifyOne(i);
        Perform(script[i], i + 1);
      }
      fdchanges := fdchanges[changecnt..];
      assert fdchanges[0..] == fdchanges;
    }

    /** One turn of the loop of `fd_reify`: the back end is called if the mask or the descriptor's file changed. */
    method ReifyOne(i: nat)
      requires Valid(i) && i < |fdchanges|
      modifies this`anfds, this`told, backend
      ensures Valid(i + 1) && |anfds| == |old(anfds)| && fdchanges[i] < |anfds|
      ensures var fd := fdchanges[i]; var was, a := old(anfds)[fd], anfds[fd];
              && anfds == old(anfds)[fd := a] && !a.reify.Set() && a.head == was.head
              && (forall ev :: ev in a.events <==> exists w :: w in a.head && w in ios && ev in ios[w].events)
              && told == old(told) + if was.events != a.events || was.reify.fdset then [(fd, was.events, a.events)] else []
    {
      var fd := fdchanges[i];
      ReifyOk(fdchanges[i..], anfds, ios);
      assert fdchanges[i..][1..] == fdchanges[i + 1..];
      var a := anfds[fd];
      var oreify := a.reify;
      var events := Wanted(ios, a.head);
      anfds := anfds[fd := Anfd(a.head, events, Reify(false, false))];
      if a.events != events || oreify.fdset {
        backend.Modify(fd, a.events, events);
        told := told + [(fd, a.events, events)];
      }
      forall ev ensures ev in events <==> exists w :: w in a.head && w in ios && ev in ios[w].events {
        WantedExact(ios, a.head, ev);
      }
    }

    /** The back end watches an unlisted descriptor for exactly what its active watchers want. */
    lemma InStep(fd: Fd, ev: Ev)
      requires Valid(0) && fd !in fdchanges
      ensures ev in backend.Interest(fd) <==> exists w :: w in ios && ios[w].active && ios[w].fd == fd && ev in ios[w].events
    {
      assert fdchanges[0..] == fdchanges;
      if fd < |anfds| {
        WantedExact(ios, anfds[fd].head, ev);
        assert forall w :: w in ios ==> (w in anfds[fd].head <==> ios[w].active && ios[w].fd == fd);
      }
    }

    /** A watcher's own mask is part of what its descriptor's list wants. */
    lemma WatcherServed(w: W)
      requires Valid(0) && w in ios && ios[w].active && ios[w].fd !in fdchanges
      ensures ios[w].events <= backend.Interest(ios[w].fd)
    {
      forall ev | ev in ios[w].events ensures ev in backend.Interest(ios[w].fd) {
        InStep(ios[w].fd, ev);
      }
    }
  }

  lemma TailListed(changes: seq<Fd>, anfds: seq<Anfd>, fd: Fd, done: nat)
    requires fd < |anfds| && done <= |changes|
    ensures NowListed(changes, anfds, fd)[done..] == NowListed(changes[done..], anfds, fd)
    ensures done <= |NowListed(changes, anfds, fd)| && changes <= NowListed(changes, anfds, fd)
  {
  }
}
