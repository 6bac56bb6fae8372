/**
 libev's epoll back end against an abstract kernel table.

 The kernel keys a registration by descriptor and open file, so a registration can outlive
 the descriptor it was made for. libev stores a generation number with every registration
 and drops events whose number is not the current one of their descriptor.
 */
module Epoll {
  import opened Common
  import opened Descriptors

  type File = nat

  /** `emask`: the kernel mask libev remembers, or the mark that epoll refuses the file. */
  datatype EMask = Mask(m: Mask) | Eperm

  /** `want` is the union of the masks of the watchers on the descriptor's list. */
  datatype Anfd = Anfd(want: Mask, events: Mask, reify: Reify, emask: EMask, egen: nat)

  datatype Reg = Reg(mask: Mask, gen: nat)

  /** `files`: what each descriptor of this process refers to; file numbers are never reused. */
  datatype Kernel = Kernel(files: map<Fd, File>, refused: set<File>, regs: map<(Fd, File), Reg>, next: File) {
    predicate Current(fd: Fd) { fd in files && (fd, files[fd]) in regs }
    function CurrentReg(fd: Fd): Reg
      requires Current(fd)
    {
      regs[(fd, files[fd])]
    }
    predicate Refuses(fd: Fd) { fd in files && files[fd] in refused }
  }

  // ---------- The kernel's side ----------

  datatype Op = Add | Mod | Del
  datatype Errno = OK | EBADF | EPERM | EEXIST | ENOENT | ENOMEM

  /** `epoll_ctl`; `nomem` tells whether a new registration can be allocated. */
  function Ctl(k: Kernel, op: Op, fd: Fd, mask: Mask, gen: nat, nomem: bool): (Errno, Kernel) {
    if fd !in k.files then (EBADF, k)
    else if k.Refuses(fd) then (EPERM, k)
    else
      var key := (fd, k.files[fd]);
      match op
      case Add =>
        if key in k.regs then (EEXIST, k)
        else if nomem then (ENOMEM, k)
        else (OK, k.(regs := k.regs[key := Reg(mask, gen)]))
      case Mod =>
        if key !in k.regs then (ENOENT, k) else (OK, k.(regs := k.regs[key := Reg(mask, gen)]))
      case Del =>
        if key !in k.regs then (ENOENT, k) else (OK, k.(regs := k.regs - {key}))
  }

  // ---------- The whole system ----------

  /**
   `eperms` is the set of descriptors on the list of refused files. `unsynced` is history: the
   descriptors that were closed, reopened or killed since the back end last handled them.
   */
  datatype Sys = Sys(anfds: seq<Anfd>, eperms: set<Fd>, postfork: bool, kernel: Kernel, unsynced: set<Fd>)

  /** Every watcher on the descriptor is stopped; `fd_change` flags it. */
  function Killed(a: Anfd): Anfd {
    a.(want := {}, reify := a.reify.(change := true))
  }

  /** What `epoll_modify` does, whatever chain of system calls it takes. */
  function Modified(s: Sys, fd: Fd, nev: Mask, nomem: bool): Sys
    requires fd < |s.anfds|
  {
    var a, k := s.anfds[fd], s.kernel;
    if nev == {} then s
    else if k.Refuses(fd) then
      s.(anfds := s.anfds[fd := a.(emask := Eperm, egen := a.egen + 1)],
         eperms := s.eperms + (if a.emask.Eperm? then {} else {fd}), unsynced := s.unsynced - {fd})
    else if fd !in k.files || (!k.Current(fd) && nomem) then
      s.(anfds := s.anfds[fd := Killed(a.(emask := Mask(nev)))], unsynced := s.unsynced + {fd})
    else if k.Current(fd) && a.emask == Mask(nev) then
      s.(unsynced := s.unsynced - {fd})
    else
      s.(anfds := s.anfds[fd := a.(emask := Mask(nev), egen := a.egen + 1)],
         kernel := k.(regs := k.regs[(fd, k.files[fd]) := Reg(nev, a.egen + 1)]),
         unsynced := s.unsynced - {fd})
  }

  /** One turn of `fd_reify`. */
  function Reified(s: Sys, fd: Fd, nomem: bool): Sys
    requires fd < |s.anfds|
  {
    var a := s.anfds[fd];
    var s1 := s.(anfds := s.anfds[fd := a.(events := a.want, reify := Reify(false, false))]);
    if a.events != a.want || a.reify.fdset then Modified(s1, fd, a.want, nomem) else s1
  }

  /** An event as `epoll_wait` reports it; `file` is which registration raised it. */
  datatype Event = Event(fd: Fd, file: File, gen: nat, got: Mask)

  datatype Outcome = Dropped | Passed(fd: Fd, got: Mask)

  /** What the event loop of `epoll_poll` makes of one event. */
  function Handled(s: Sys, e: Event): (Sys, Outcome)
    requires e.fd < |s.anfds|
  {
    var a, k := s.anfds[e.fd], s.kernel;
    if a.egen != e.gen then (s.(postfork := true), Dropped)
    else if e.got <= a.events then (s, Passed(e.fd, e.got))
    else
      var s1 := s.(anfds := s.anfds[e.fd := a.(emask := Mask(a.events))]);
      if !k.Current(e.fd) || k.Refuses(e.fd) then (s1.(postfork := true), Dropped)
      else
        var key := (e.fd, k.files[e.fd]);
        (s1.(kernel := if a.events == {} then k.(regs := k.regs - {key})
                       else k.(regs := k.regs[key := Reg(a.events, e.gen)])),
         Passed(e.fd, e.got))
  }

  /** `fd_event` hands an event to watchers, if there are any and the descriptor is not flagged. */
  predicate Delivered(s: Sys, o: Outcome) {
    o.Passed? && o.fd < |s.anfds| && !s.anfds[o.fd].reify.Set() && s.anfds[o.fd].want != {}
  }

  predicate Sticky(a: Anfd) { a.emask.Eperm? && a.events != {} }

  /** The closing loop of `epoll_poll`: forget list members that are no longer refused or wanted. */
  function Swept(s: Sys): Sys {
    s.(eperms := (set fd | fd in s.eperms && fd < |s.anfds| && Sticky(s.anfds[fd])),
       anfds := seq(|s.anfds|, i requires 0 <= i < |s.anfds| =>
         if i in s.eperms && !Sticky(s.anfds[i]) then s.anfds[i].(emask := Mask({})) else s.anfds[i]))
  }

  /** `epoll_fork`: a new kernel table, and every watched descriptor to be armed again. */
  function Rearmed(s: Sys): Sys {
    s.(postfork := false, kernel := s.kernel.(regs := map[]),
       anfds := seq(|s.anfds|, i requires 0 <= i < |s.anfds| =>
         var a := s.anfds[i];
         if a.events == {} then a else a.(events := {}, emask := Mask({}), reify := Reify(true, true))))
  }

  /** The application starts or stops watchers, with or without a fresh `ev_io_set`. */
  function Watched(s: Sys, fd: Fd, want: Mask, fdset: bool): Sys
    requires fd < |s.anfds|
  {
    var a := s.anfds[fd];
    s.(anfds := s.anfds[fd := a.(want := want, reify := Reify(true, a.reify.fdset || fdset))])
  }

  /** Closing a descriptor drops its registration, unless the file is still open elsewhere. */
  function Closed(s: Sys, fd: Fd, lingers: bool): Sys {
    if fd !in s.kernel.files then s else
    var k := s.kernel;
    var k1 := k.(files := k.files - {fd});
    s.(kernel := if lingers then k1 else k1.(regs := k.regs - {(fd, k.files[fd])}), unsynced := s.unsynced + {fd})
  }

  /** The last other holder of a lingering file closes it. */
  function Expired(s: Sys, fd: Fd, file: File): Sys {
    if fd in s.kernel.files && s.kernel.files[fd] == file then s else
    s.(kernel := s.kernel.(regs := s.kernel.regs - {(fd, file)}))
  }

  /** A descriptor is opened on a file never seen before. */
  function Opened(s: Sys, fd: Fd, refused: bool): Sys {
    if fd in s.kernel.files then s else
    var k := s.kernel;
    s.(kernel := k.(files := k.files[fd := k.next], next := k.next + 1,
                    refused := if refused then k.refused + {k.next} else k.refused),
       unsynced := s.unsynced + {fd})
  }

  datatype Action =
    | AReify(fd: Fd, nomem: bool)
    | AEvent(e: Event)
    | ASweep
    | ARearm
    | AWatch(fd: Fd, want: Mask, fdset: bool)
    | AClose(fd: Fd, lingers: bool)
    | AExpire(fd: Fd, file: File)
    | AOpen(fd: Fd, refused: bool)

  /** The event names a registration the kernel holds. */
  predicate Live(s: Sys, e: Event) {
    e.fd < |s.anfds| && (e.fd, e.file) in s.kernel.regs && s.kernel.regs[(e.fd, e.file)].gen == e.gen
  }

  predicate Enabled(s: Sys, a: Action) {
    match a
    case AReify(fd, _) => fd < |s.anfds|
    case AEvent(e) => Live(s, e)
    case AWatch(fd, _, _) => fd < |s.anfds|
    case AClose(fd, _) => fd < |s.anfds|
    case AOpen(fd, _) => fd < |s.anfds|
    case _ => true
  }

  function Apply(s: Sys, a: Action): Sys {
    if !Enabled(s, a) then s else
    match a
    case AReify(fd, nomem) => Reified(s, fd, nomem)
    case AEvent(e) => Handled(s, e).0
    case ASweep => Swept(s)
    case ARearm => Rearmed(s)
    case AWatch(fd, want, fdset) => Watched(s, fd, want, fdset)
    case AClose(fd, lingers) => Closed(s, fd, lingers)
    case AExpire(fd, file) => Expired(s, fd, file)
    case AOpen(fd, refused) => Opened(s, fd, refused)
  }

  function Run(s: Sys, actions: seq<Action>): Sys
    decreases |actions|
  {
    if actions == [] then s else Apply(Run(s, actions[..|actions| - 1]), actions[|actions| - 1])
  }

  const ZERO := Anfd({}, {}, Reify(false, false), Mask({}), 0)

  predicate Initial(s: Sys) {
    && (forall i :: 0 <= i < |s.anfds| ==> s.anfds[i] == ZERO)
    && s.eperms == {} && !s.postfork && s.unsynced == {}
    && s.kernel.files == map[] && s.kernel.regs == map[] && s.kernel.refused == {}
  }

  // ---------- Generations ----------

  /** What holds of one registration. */
  predicate RegOk(s: Sys, fd: Fd, file: File) {
    (fd, file) in s.kernel.regs ==>
      && fd < |s.anfds| && file < s.kernel.next && file !in s.kernel.refused
      && s.kernel.regs[(fd, file)].gen <= s.anfds[fd].egen
      && (fd in s.kernel.files && s.kernel.files[fd] == file ==>
            && s.kernel.regs[(fd, file)].gen == s.anfds[fd].egen
            && s.anfds[fd].emask in {Mask({}), Mask(s.kernel.regs[(fd, file)].mask)})
  }

  predicate DistinctGens(s: Sys, fd: Fd, f: File, g: File) {
    (fd, f) in s.kernel.regs && (fd, g) in s.kernel.regs && f != g ==>
      s.kernel.regs[(fd, f)].gen != s.kernel.regs[(fd, g)].gen
  }

  ghost predicate Generations(s: Sys) {
    && (forall fd, f :: RegOk(s, fd, f))
    && (forall fd, f, g :: DistinctGens(s, fd, f, g))
    && (forall fd :: fd in s.kernel.files ==> s.kernel.files[fd] < s.kernel.next)
    && (forall f :: f in s.kernel.refused ==> f < s.kernel.next)
  }

  // ---------- Interest ----------

  /** The kernel watches the descriptor's file for exactly `events`, or refuses it and libev knows. */
  predicate Synced(s: Sys, fd: Fd)
    requires fd < |s.anfds|
  {
    var a, k := s.anfds[fd], s.kernel;
    || (k.Current(fd) && k.CurrentReg(fd).mask == a.events)
    || (k.Refuses(fd) && a.emask.Eperm? && fd in s.eperms)
  }

  predicate NoneCurrent(s: Sys, fd: Fd, f: File)
    requires fd < |s.anfds|
  {
    (fd, f) in s.kernel.regs ==> s.kernel.regs[(fd, f)].gen < s.anfds[fd].egen
  }

  ghost predicate FdOk(s: Sys, fd: Fd)
    requires fd < |s.anfds|
  {
    var a := s.anfds[fd];
    && (!a.reify.Set() ==> a.events == a.want)
    && (a.emask.Eperm? ==> fd in s.eperms)
    && (a.events != {} && fd !in s.unsynced ==>
          Synced(s, fd) && (s.kernel.Refuses(fd) ==> forall f :: NoneCurrent(s, fd, f)))
    && (a.events != {} && fd in s.unsynced ==> a.reify.Set() && (a.want == a.events ==> a.reify.fdset))
  }

  ghost predicate Interests(s: Sys) {
    forall fd :: 0 <= fd < |s.anfds| ==> FdOk(s, fd)
  }

  /**
   What libev's manual asks of the application: stop the watchers before closing a descriptor,
   and call `ev_io_set` before watching a reopened one with the mask it had.
   */
  predicate Disciplined(s: Sys, a: Action) {
    match a
    case AWatch(fd, want, fdset) =>
      fd < |s.anfds| && fd in s.unsynced && want != {} && want == s.anfds[fd].events ==>
        fdset || s.anfds[fd].reify.fdset
    case AClose(fd, _) => fd < |s.anfds| ==> s.anfds[fd].want == {}
    case _ => true
  }

  predicate DisciplinedRun(s: Sys, actions: seq<Action>)
    decreases |actions|
  {
    actions == [] ||
    (DisciplinedRun(s, actions[..|actions| - 1])
     && Disciplined(Run(s, actions[..|actions| - 1]), actions[|actions| - 1]))
  }

  // ---------- Generations are kept by every step ----------

  lemma ModifiedGenerations(s: Sys, fd: Fd, nev: Mask, nomem: bool)
    requires Generations(s) && fd < |s.anfds|
    ensures Generations(Modified(s, fd, nev, nomem))
  {
    var t := Modified(s, fd, nev, nomem);
    forall d, f ensures RegOk(t, d, f) { assert RegOk(s, d, f); }
    forall d, f, g ensures DistinctGens(t, d, f, g) {
      assert DistinctGens(s, d, f, g) && RegOk(s, d, f) && RegOk(s, d, g);
    }
  }

  lemma ReifiedGenerations(s: Sys, fd: Fd, nomem: bool)
    requires Generations(s) && fd < |s.anfds|
    ensures Generations(Reified(s, fd, nomem))
  {
    var a := s.anfds[fd];
    var s1 := s.(anfds := s.anfds[fd := a.(events := a.want, reify := Reify(false, false))]);
    forall d, f ensures RegOk(s1, d, f) { assert RegOk(s, d, f); }
    forall d, f, g ensures DistinctGens(s1, d, f, g) { assert DistinctGens(s, d, f, g); }
    ModifiedGenerations(s1, fd, a.want, nomem);
  }

  lemma HandledGenerations(s: Sys, e: Event)
    requires Generations(s) && e.fd < |s.anfds|
    ensures Generations(Handled(s, e).0)
  {
    var t := Handled(s, e).0;
    forall d, f ensures RegOk(t, d, f) { assert RegOk(s, d, f); }
    forall d, f, g ensures DistinctGens(t, d, f, g) {
      assert DistinctGens(s, d, f, g) && RegOk(s, d, f) && RegOk(s, d, g);
    }
  }

  lemma OtherGenerations(s: Sys, a: Action)
    requires Generations(s) && !a.AReify? && !a.AEvent?
    ensures Generations(Apply(s, a))
  {
    var t := Apply(s, a);
    forall d, f ensures RegOk(t, d, f) { assert RegOk(s, d, f); }
    forall d, f, g ensures DistinctGens(t, d, f, g) { assert DistinctGens(s, d, f, g); }
  }

  /** In every run, disciplined or not. */
  lemma {:induction false} RunGenerations(s: Sys, actions: seq<Action>)
    requires Initial(s)
    ensures Generations(Run(s, actions))
    decreases |actions|
  {
    if actions != [] {
      var n := |actions| - 1;
      RunGenerations(s, actions[..n]);
      var r, a := Run(s, actions[..n]), actions[n];
      if Enabled(r, a) {
        match a
        case AReify(fd, nomem) => ReifiedGenerations(r, fd, nomem);
        case AEvent(e) => HandledGenerations(r, e);
        case _ => OtherGenerations(r, a);
      }
    }
  }

  /**
   In every run: once the descriptor's present file is registered, the generation test accepts
   an event exactly when that file's registration raised it.
   */
  lemma GenerationTestExact(s0: Sys, actions: seq<Action>, e: Event)
    requires Initial(s0)
    requires Live(Run(s0, actions), e) && Run(s0, actions).kernel.Current(e.fd)
    ensures var s := Run(s0, actions); e.gen == s.anfds[e.fd].egen <==> e.file == s.kernel.files[e.fd]
  {
    RunGenerations(s0, actions);
    var s := Run(s0, actions);
    var f := s.kernel.files[e.fd];
    assert RegOk(s, e.fd, f) && RegOk(s, e.fd, e.file) && DistinctGens(s, e.fd, e.file, f);
  }

  // ---------- Interest is kept by every disciplined step ----------

  lemma ModifiedInterest(s: Sys, fd: Fd, nomem: bool)
    requires Generations(s) && fd < |s.anfds|
    requires s.anfds[fd].want == s.anfds[fd].events
    requires s.anfds[fd].emask.Eperm? ==> fd in s.eperms
    requires forall d :: 0 <= d < |s.anfds| && d != fd ==> FdOk(s, d)
    ensures Interests(Modified(s, fd, s.anfds[fd].events, nomem))
    ensures var t := Modified(s, fd, s.anfds[fd].events, nomem);
            t.anfds[fd].events == {} || fd in t.unsynced || Synced(t, fd)
  {
    var t := Modified(s, fd, s.anfds[fd].events, nomem);
    if s.kernel.Current(fd) {
      assert RegOk(s, fd, s.kernel.files[fd]);
    }
    forall d | 0 <= d < |t.anfds| ensures FdOk(t, d) {
      if d != fd {
        assert FdOk(s, d);
        assert t.anfds[d] == s.anfds[d];
        assert forall f :: (d, f) in t.kernel.regs <==> (d, f) in s.kernel.regs;
        assert forall f :: NoneCurrent(s, d, f) ==> NoneCurrent(t, d, f);
      } else {
        forall f ensures t.kernel.Refuses(fd) && t.anfds[fd].events != {} ==> NoneCurrent(t, fd, f) {
          assert RegOk(s, fd, f);
        }
      }
    }
  }

  lemma ReifiedInterest(s: Sys, fd: Fd, nomem: bool)
    requires Generations(s) && Interests(s) && fd < |s.anfds|
    ensures Interests(Reified(s, fd, nomem))
  {
    var a := s.anfds[fd];
    var s1 := s.(anfds := s.anfds[fd := a.(events := a.want, reify := Reify(false, false))]);
    assert FdOk(s, fd);
    forall d, f ensures RegOk(s1, d, f) { assert RegOk(s, d, f); }
    forall d, f, g ensures DistinctGens(s1, d, f, g) { assert DistinctGens(s, d, f, g); }
    forall d | 0 <= d < |s.anfds| && d != fd ensures FdOk(s1, d) {
      assert FdOk(s, d);
      assert forall f :: NoneCurrent(s, d, f) ==> NoneCurrent(s1, d, f);
    }
    if a.events != a.want || a.reify.fdset {
      ModifiedInterest(s1, fd, nomem);
    } else {
      assert forall f :: NoneCurrent(s, fd, f) ==> NoneCurrent(s1, fd, f);
      assert FdOk(s1, fd);
    }
  }

  lemma HandledInterest(s: Sys, e: Event)
    requires Generations(s) && Interests(s) && Live(s, e)
    ensures Interests(Handled(s, e).0)
  {
    var t := Handled(s, e).0;
    assert RegOk(s, e.fd, e.file) && NoneCurrent(s, e.fd, e.file) == (e.gen < s.anfds[e.fd].egen);
    forall d | 0 <= d < |t.anfds| ensures FdOk(t, d) {
      assert FdOk(s, d);
      if s.kernel.Current(d) {
        assert RegOk(s, d, s.kernel.files[d]);
      }
      assert forall f :: NoneCurrent(s, d, f) && (d != e.fd || !s.kernel.Current(d)) ==> NoneCurrent(t, d, f);
    }
  }

  lemma OtherInterest(s: Sys, a: Action)
    requires Generations(s) && Interests(s) && !a.AReify? && !a.AEvent? && Disciplined(s, a)
    ensures Interests(Apply(s, a))
  {
    var t := Apply(s, a);
    forall d | 0 <= d < |t.anfds| ensures FdOk(t, d) {
      assert FdOk(s, d);
      assert forall f :: NoneCurrent(s, d, f) ==> NoneCurrent(t, d, f);
    }
  }

  lemma {:induction false} RunInterest(s: Sys, actions: seq<Action>)
    requires Initial(s) && DisciplinedRun(s, actions)
    ensures Generations(Run(s, actions)) && Interests(Run(s, actions))
    decreases |actions|
  {
    RunGenerations(s, actions);
    if actions != [] {
      var n := |actions| - 1;
      RunInterest(s, actions[..n]);
      var r, a := Run(s, actions[..n]), actions[n];
      if Enabled(r, a) {
        match a
        case AReify(fd, nomem) => ReifiedInterest(r, fd, nomem);
        case AEvent(e) => HandledInterest(r, e);
        case _ => OtherInterest(r, a);
      }
    }
  }

  /**
   In every disciplined run, whatever watchers are handed comes from the file their descriptor
   refers to now, and the kernel watches that file for exactly what they want.
   */
  lemma NoStaleDelivery(s0: Sys, actions: seq<Action>, e: Event)
    requires Initial(s0) && DisciplinedRun(s0, actions)
    requires Live(Run(s0, actions), e) && Delivered(Run(s0, actions), Handled(Run(s0, actions), e).1)
    ensures var s := Run(s0, actions);
            s.kernel.Current(e.fd) && s.kernel.files[e.fd] == e.file
            && s.kernel.CurrentReg(e.fd) == Reg(s.anfds[e.fd].want, s.anfds[e.fd].egen)
  {
    RunInterest(s0, actions);
    var s := Run(s0, actions);
    assert FdOk(s, e.fd) && NoneCurrent(s, e.fd, e.file) == (e.gen < s.anfds[e.fd].egen);
    assert RegOk(s, e.fd, s.kernel.files[e.fd]);
    GenerationTestExact(s0, actions, e);
  }

  /** In every disciplined run, an unflagged watched descriptor is served by epoll or by the list of refused files. */
  lemma NoLostInterest(s0: Sys, actions: seq<Action>, fd: Fd)
    requires Initial(s0) && DisciplinedRun(s0, actions)
    requires fd < |Run(s0, actions).anfds|
    requires !Run(s0, actions).anfds[fd].reify.Set() && Run(s0, actions).anfds[fd].want != {}
    ensures Run(s0, actions).anfds[fd].events == Run(s0, actions).anfds[fd].want && Synced(Run(s0, actions), fd)
  {
    RunInterest(s0, actions);
    assert FdOk(Run(s0, actions), fd);
  }

  /** The mark of refusal is only put on descriptors on the list. */
  ghost predicate Marked(s: Sys) {
    forall fd :: 0 <= fd < |s.anfds| && s.anfds[fd].emask.Eperm? ==> fd in s.eperms
  }

  lemma ReifiedMarked(s: Sys, fd: Fd, nomem: bool)
    requires Marked(s) && fd < |s.anfds|
    ensures Marked(Reified(s, fd, nomem))
  {
  }

  /** In every run, disciplined or not. */
  lemma {:induction false} RunMarked(s: Sys, actions: seq<Action>)
    requires Initial(s)
    ensures Marked(Run(s, actions))
    decreases |actions|
  {
    if actions != [] {
      var n := |actions| - 1;
      RunMarked(s, actions[..n]);
      var r := Run(s, actions[..n]);
      if actions[n].AReify? && Enabled(r, actions[n]) {
        ReifiedMarked(r, actions[n].fd, actions[n].nomem);
      }
    }
  }

  // ---------- The list of refused files ----------

  /** The list after `epoll_modify` on a descriptor whose file is refused. */
  function Listed(eperms: seq<Fd>, fd: Fd, oldmask: EMask): seq<Fd> {
    if oldmask.Eperm? then eperms else eperms + [fd]
  }

  /** A refusal lists a descriptor twice if and only if it was listed with its mark cleared. */
  lemma ListedTwice(eperms: seq<Fd>, fd: Fd, oldmask: EMask)
    requires NoDuplicates(eperms)
    ensures NoDuplicates(Listed(eperms, fd, oldmask)) <==> !(fd in eperms && !oldmask.Eperm?)
  {
    var q := Listed(eperms, fd, oldmask);
    if fd in eperms && !oldmask.Eperm? {
      var i :| 0 <= i < |eperms| && eperms[i] == fd;
      assert q[i] == q[|eperms|];
    }
  }

  /** Rearming clears the mark and not the list, so after it that does happen. */
  lemma ListedAndUnmarked(s0: Sys) returns (s: Sys)
    requires Initial(s0) && |s0.anfds| == 1 && s0.kernel.next == 0
    ensures |s.anfds| == 1 && s.kernel.Refuses(0) && 0 in s.eperms && s.anfds[0].emask == Mask({}) && s.anfds[0].reify.fdset
    ensures Reified(s, 0, false).anfds[0].emask.Eperm?
  {
    s := Apply(s0, AOpen(0, true));
    s := Apply(s, AWatch(0, {Read}, true));
    s := Apply(s, AReify(0, false));
    s := Apply(s, ARearm);
  }

  // ---------- Why the discipline is what it is ----------

  /**
   Arming a freshly opened descriptor works if and only if its file is one that epoll refuses and
   libev knows or finds out, or the mask changed or `ev_io_set` was called and the kernel has memory.
   */
  lemma ReopenNeedsSet(s: Sys, fd: Fd, nomem: bool)
    requires Marked(s) && fd < |s.anfds| && fd in s.kernel.files && !s.kernel.Current(fd) && s.anfds[fd].want != {}
    ensures var a, refused := s.anfds[fd], s.kernel.Refuses(fd);
            Synced(Reified(s, fd, nomem), fd) <==>
              if a.events != a.want || a.reify.fdset then refused || !nomem else refused && a.emask.Eperm?
  {
  }

  /** An event of some other file, raised by a registration that is still in the table. */
  predicate Foreign(s: Sys, e: Event) {
    Live(s, e) && e.got != {} && e.fd in s.kernel.files && e.file != s.kernel.files[e.fd]
  }

  /** Some older registration of the descriptor has the generation the next event is compared with. */
  ghost predicate Leftover(s: Sys, fd: Fd)
    requires fd < |s.anfds|
  {
    exists f :: (fd, f) in s.kernel.regs && s.kernel.regs[(fd, f)].gen == s.anfds[fd].egen
  }

  /**
   Arming a descriptor on a freshly opened file lets another file's event through if and only if
   the mask is the old one, `ev_io_set` was not called, and the last registration made for the
   descriptor is still in the kernel's table.
   */
  lemma StaleExactly(s: Sys, fd: Fd)
    requires Generations(s) && fd < |s.anfds| && fd in s.kernel.files && !s.kernel.Refuses(fd) && !s.kernel.Current(fd)
    requires s.anfds[fd].want != {}
    ensures var a, t := s.anfds[fd], Reified(s, fd, false);
            (exists e: Event :: e.fd == fd && Foreign(t, e) && Delivered(t, Handled(t, e).1))
              <==> a.events == a.want && !a.reify.fdset && Leftover(s, fd)
  {
    var a, t := s.anfds[fd], Reified(s, fd, false);
    ReifiedGenerations(s, fd, false);
    if a.events == a.want && !a.reify.fdset {
      if Leftover(s, fd) {
        var f :| (fd, f) in s.kernel.regs && s.kernel.regs[(fd, f)].gen == a.egen;
        var e := Event(fd, f, a.egen, a.want);
        assert Foreign(t, e) && Delivered(t, Handled(t, e).1);
      }
    } else {
      var f := s.kernel.files[fd];
      forall e: Event | e.fd == fd && Foreign(t, e) ensures !Delivered(t, Handled(t, e).1) {
        assert RegOk(t, fd, f) && DistinctGens(t, fd, e.file, f);
      }
    }
  }

  /** Without the discipline a stale event does get through: the descriptor was reopened with its old mask. */
  lemma UndisciplinedStaleEvent(s0: Sys) returns (s: Sys, e: Event)
    requires Initial(s0) && |s0.anfds| == 1 && s0.kernel.next == 0
    ensures Live(s, e) && Delivered(s, Handled(s, e).1) && s.kernel.files == map[0 := 1] && e.file == 0
  {
    s := Apply(s0, AOpen(0, false));
    s := Apply(s, AWatch(0, {Read}, true));
    s := Apply(s, AReify(0, false));
    assert s.kernel.files == map[0 := 0] && s.kernel.regs == map[(0, 0) := Reg({Read}, 1)];
    s := Apply(s, AWatch(0, {}, false));
    s := Apply(s, AClose(0, true));
    s := Apply(s, AOpen(0, false));
    s := Apply(s, AWatch(0, {Read}, false));
    assert s.kernel.files == map[0 := 1];
    s := Apply(s, AReify(0, false));
    e := Event(0, 0, 1, {Read});
  }

  // ---------- One call of epoll_poll ----------

  /** A batch of events handled in order; the second part lists those watchers are handed. */
  function HandledAll(s: Sys, es: seq<Event>): (Sys, seq<Event>)
    requires forall e :: e in es ==> e.fd < |s.anfds|
    ensures |HandledAll(s, es).0.anfds| == |s.anfds|
    decreases |es|
  {
    if es == [] then (s, []) else
    var n := |es| - 1;
    var (r, log) := HandledAll(s, es[..n]);
    var (t, o) := Handled(r, es[n]);
    (t, if Delivered(t, o) then log + [es[n]] else log)
  }

  predicate FromPresentFile(s: Sys, e: Event) {
    e.fd in s.kernel.files && s.kernel.files[e.fd] == e.file
  }

  /** Nothing the event test looks at changes while a batch is handled. */
  lemma {:induction false} HandledAllStable(s: Sys, es: seq<Event>, fd: Fd)
    requires fd < |s.anfds| && forall e :: e in es ==> e.fd < |s.anfds|
    ensures var t := HandledAll(s, es).0;
            t.kernel.files == s.kernel.files && t.anfds[fd].egen == s.anfds[fd].egen && t.anfds[fd].want == s.anfds[fd].want
            && t.anfds[fd].events == s.anfds[fd].events && t.anfds[fd].reify == s.anfds[fd].reify
    decreases |es|
  {
    if es != [] {
      HandledAllStable(s, es[..|es| - 1], fd);
    }
  }

  lemma AcceptedIsPresent(s: Sys, e: Event)
    requires Generations(s) && Interests(s) && Live(s, e)
    requires e.gen == s.anfds[e.fd].egen && !s.anfds[e.fd].reify.Set() && s.anfds[e.fd].want != {}
    ensures FromPresentFile(s, e)
  {
    assert FdOk(s, e.fd) && NoneCurrent(s, e.fd, e.file) == (e.gen < s.anfds[e.fd].egen);
    var f := s.kernel.files[e.fd];
    assert RegOk(s, e.fd, f) && DistinctGens(s, e.fd, e.file, f);
  }

  /** Events the kernel collected together are all judged soundly, though each may change the table for the next. */
  lemma {:induction false} BatchNoStaleDelivery(s: Sys, es: seq<Event>)
    requires Generations(s) && Interests(s)
    requires forall e :: e in es ==> e.fd < |s.anfds| && Live(s, e)
    ensures forall e :: e in HandledAll(s, es).1 ==> e in es && FromPresentFile(s, e)
    decreases |es|
  {
    if es != [] {
      var n := |es| - 1;
      BatchNoStaleDelivery(s, es[..n]);
      HandledAllStable(s, es[..n], es[n].fd);
      var r := HandledAll(s, es[..n]).0;
      var (t, o) := Handled(r, es[n]);
      if Delivered(t, o) {
        assert t.anfds[es[n].fd].reify == r.anfds[es[n].fd].reify && t.anfds[es[n].fd].want == r.anfds[es[n].fd].want;
        AcceptedIsPresent(s, es[n]);
      }
    }
  }

  // ---------- What is passed on ----------

  /** A live event of the descriptor's present file is passed on, whatever else it reports. */
  lemma GenuinePassed(s: Sys, e: Event)
    requires Generations(s) && Live(s, e) && FromPresentFile(s, e)
    ensures Handled(s, e).1 == Passed(e.fd, e.got)
  {
    assert RegOk(s, e.fd, e.file);
  }

  /** A dropped event asks for the kernel table to be made anew; one passed on does not. */
  lemma DroppedRearms(s: Sys, e: Event)
    requires e.fd < |s.anfds|
    ensures var (t, o) := Handled(s, e); t.postfork <==> s.postfork || o.Dropped?
  {
  }

  /**
   An event nobody asked for is not reported again: afterwards the kernel watches the file for what
   is wanted and nothing else, or not at all, under the generation libev expects.
   */
  lemma UnwantedStopped(s: Sys, e: Event)
    requires Generations(s) && Live(s, e) && FromPresentFile(s, e) && !(e.got <= s.anfds[e.fd].events)
    ensures var t, events := Handled(s, e).0, s.anfds[e.fd].events;
            && (t.kernel.Current(e.fd) <==> events != {})
            && (events != {} ==> t.kernel.CurrentReg(e.fd) == Reg(events, t.anfds[e.fd].egen))
            && t.anfds[e.fd].emask == Mask(events)
  {
    assert RegOk(s, e.fd, e.file);
  }

  /** A descriptor without the flag was last reified with the mask it wants now. */
  ghost predicate Unflagged(s: Sys) {
    forall fd :: 0 <= fd < |s.anfds| && !s.anfds[fd].reify.Set() ==> s.anfds[fd].events == s.anfds[fd].want
  }

  lemma ReifiedUnflagged(s: Sys, fd: Fd, nomem: bool)
    requires Unflagged(s) && fd < |s.anfds|
    ensures Unflagged(Reified(s, fd, nomem))
  {
  }

  /** In every run, disciplined or not. */
  lemma {:induction false} RunUnflagged(s: Sys, actions: seq<Action>)
    requires Initial(s)
    ensures Unflagged(Run(s, actions))
    decreases |actions|
  {
    if actions != [] {
      var n := |actions| - 1;
      RunUnflagged(s, actions[..n]);
      var r := Run(s, actions[..n]);
      if actions[n].AReify? && Enabled(r, actions[n]) {
        ReifiedUnflagged(r, actions[n].fd, actions[n].nomem);
      }
    }
  }

  /** The present file is registered under the current generation, and something is wanted of it. */
  predicate Served(s: Sys, fd: Fd) {
    && fd < |s.anfds| && s.anfds[fd].events != {}
    && s.kernel.Current(fd) && s.kernel.CurrentReg(fd).gen == s.anfds[fd].egen
  }

  lemma {:induction false} BatchKeeps(s: Sys, es: seq<Event>, fd: Fd)
    requires Generations(s) && forall e :: e in es ==> e.fd < |s.anfds|
    ensures Generations(HandledAll(s, es).0)
    ensures Served(s, fd) ==> Served(HandledAll(s, es).0, fd)
    decreases |es|
  {
    if es != [] {
      var n := |es| - 1;
      BatchKeeps(s, es[..n], fd);
      HandledGenerations(HandledAll(s, es[..n]).0, es[n]);
    }
  }

  /** What a batch ought to pass on: events of present files, on unflagged descriptors with watchers. */
  predicate Genuine(s: Sys, e: Event) {
    e.fd < |s.anfds| && FromPresentFile(s, e) && !s.anfds[e.fd].reify.Set() && s.anfds[e.fd].want != {}
  }

  function GenuineOnes(s: Sys, es: seq<Event>): seq<Event> {
    if es == [] then []
    else
      var n := |es| - 1;
      GenuineOnes(s, es[..n]) + if Genuine(s, es[n]) then [es[n]] else []
  }

  lemma BatchStep(s: Sys, es: seq<Event>, e: Event)
    requires Generations(s) && Unflagged(s) && Interests(s) && Live(s, e) && forall d :: d in es ==> d.fd < |s.anfds|
    ensures var r := HandledAll(s, es).0;
            var (t, o) := Handled(r, e);
            Delivered(t, o) <==> Genuine(s, e)
  {
    var r := HandledAll(s, es).0;
    HandledAllStable(s, es, e.fd);
    BatchKeeps(s, es, e.fd);
    if Genuine(s, e) {
      assert RegOk(s, e.fd, e.file) && Served(s, e.fd) && RegOk(r, e.fd, e.file);
      GenuinePassed(r, e);
    } else if e.gen == s.anfds[e.fd].egen && !s.anfds[e.fd].reify.Set() && s.anfds[e.fd].want != {} {
      AcceptedIsPresent(s, e);
    }
  }

  /** One batch: watchers are handed exactly the genuine events, each once and in order. */
  lemma {:induction false} BatchExact(s: Sys, es: seq<Event>)
    requires Generations(s) && Unflagged(s) && Interests(s)
    requires forall e :: e in es ==> e.fd < |s.anfds| && Live(s, e)
    ensures HandledAll(s, es).1 == GenuineOnes(s, es)
    decreases |es|
  {
    if es != [] {
      var n := |es| - 1;
      BatchExact(s, es[..n]);
      BatchStep(s, es[..n], es[n]);
    }
  }

  /** Every batch in a disciplined run. */
  lemma PollExact(s0: Sys, actions: seq<Action>, es: seq<Event>)
    requires Initial(s0) && DisciplinedRun(s0, actions)
    requires forall e :: e in es ==> e.fd < |Run(s0, actions).anfds| && Live(Run(s0, actions), e)
    ensures HandledAll(Run(s0, actions), es).1 == GenuineOnes(Run(s0, actions), es)
  {
    RunInterest(s0, actions);
    RunUnflagged(s0, actions);
    BatchExact(Run(s0, actions), es);
  }

  /** Without the discipline genuine events are still all passed on. */
  lemma GenuineDelivered(s: Sys, es: seq<Event>, i: nat)
    requires Generations(s) && Unflagged(s) && forall e :: e in es ==> e.fd < |s.anfds|
    requires i < |es| && Live(s, es[i]) && Genuine(s, es[i])
    ensures es[i] in HandledAll(s, es).1
    decreases |es|
  {
    var n, e := |es| - 1, es[i];
    if i < n {
      GenuineDelivered(s, es[..n], i);
    } else {
      var r := HandledAll(s, es[..n]).0;
      HandledAllStable(s, es[..n], e.fd);
      BatchKeeps(s, es[..n], e.fd);
      assert RegOk(s, e.fd, e.file) && Served(s, e.fd);
      GenuinePassed(r, e);
    }
  }

  // ---------- Errors ----------

  /** After an error that is not recovered from nothing is wanted of the descriptor, and its flag is set. */
  lemma UnrecoveredKills(s: Sys, fd: Fd, nev: Mask, nomem: bool)
    requires fd < |s.anfds| && nev != {} && !s.kernel.Refuses(fd)
    requires fd !in s.kernel.files || (!s.kernel.Current(fd) && nomem)
    ensures var a := Modified(s, fd, nev, nomem).anfds[fd];
            a.want == {} && a.reify.change && a.egen == s.anfds[fd].egen
    ensures Modified(s, fd, nev, nomem).kernel == s.kernel
  {
  }

  /**
   Calling `epoll_modify` with something wanted stops the watchers if and only if the descriptor is
   closed, or has to be registered anew and the kernel has no memory. Otherwise the kernel watches
   its file for just what was asked, or the file is refused and the descriptor marked and listed.
   */
  lemma ModifyExact(s: Sys, fd: Fd, nev: Mask, nomem: bool)
    requires Generations(s) && Marked(s) && fd < |s.anfds| && nev != {} && s.anfds[fd].want != {}
    ensures var k, t := s.kernel, Modified(s, fd, nev, nomem);
            var a := t.anfds[fd];
            && (a.want == {} <==> fd !in k.files || (!k.Refuses(fd) && !k.Current(fd) && nomem))
            && (a.want != {} ==> a.want == s.anfds[fd].want && a.reify == s.anfds[fd].reify)
            && (a.want != {} && !k.Refuses(fd) ==>
                  t.kernel.Current(fd) && t.kernel.CurrentReg(fd) == Reg(nev, a.egen) && a.emask == Mask(nev))
            && (a.want != {} && k.Refuses(fd) ==> t.kernel == k && a.emask.Eperm? && fd in t.eperms)
  {
    if s.kernel.Current(fd) {
      assert RegOk(s, fd, s.kernel.files[fd]);
    }
  }

  /** After a fork every watched descriptor that is open gets back into step at its next reification. */
  lemma RearmRecovers(s: Sys, fd: Fd)
    requires Generations(s) && Marked(s) && fd < |s.anfds| && s.anfds[fd].events != {} && s.anfds[fd].want != {}
    requires fd in s.kernel.files
    ensures var r := Rearmed(s);
            !r.postfork && r.kernel.regs == map[] && r.anfds[fd].reify.Set()
            && var t := Reified(r, fd, false); Synced(t, fd) && t.anfds[fd].events == s.anfds[fd].want
  {
  }

  // ---------- The back end itself ----------

  class EpollBackend {
    var anfds: seq<Anfd>
    var eperms: seq<Fd>
    var postfork: bool
    var kernel: Kernel
    ghost var unsynced: set<Fd>

    ghost function State(): Sys
      reads this
    {
      Sys(anfds, (set fd | fd in eperms), postfork, kernel, unsynced)
    }

    method EpollCtl(op: Op, fd: Fd, mask: Mask, gen: nat, nomem: bool) returns (err: Errno)
      modifies this`kernel
      ensures (err, kernel) == Ctl(old(kernel), op, fd, mask, gen, nomem)
    {
      var (e, k) := Ctl(kernel, op, fd, mask, gen, nomem);
      err, kernel := e, k;
    }

    /** `epoll_modify`. */
    method Modify(fd: Fd, oev: Mask, nev: Mask, nomem: bool)
      requires fd < |anfds|
      modifies this
      ensures State() == Modified(old(State()), fd, nev, nomem)
      ensures eperms == if nev != {} && kernel.Refuses(fd) then Listed(old(eperms), fd, old(anfds)[fd].emask) else old(eperms)
    {
      if nev == {} {
        return;
      }
      var oldmask := anfds[fd].emask;
      anfds := anfds[fd := anfds[fd].(emask := Mask(nev), egen := anfds[fd].egen + 1)];
      unsynced := unsynced - {fd};
      var err := EpollCtl(if oev != {} && oldmask != Mask(nev) then Mod else Add, fd, nev, anfds[fd].egen, nomem);
      if err == OK {
        return;
      }
      if err == EPERM {
        Refused(fd, oldmask);
        return;
      }
      var done := Recover(fd, err, oldmask, nev, nomem);
      if !done {
        anfds := anfds[fd := anfds[fd].(egen := anfds[fd].egen - 1)];
      }
    }

    /** EPERM: the file is always ready, and goes on the list unless it is there already. */
    method Refused(fd: Fd, oldmask: EMask)
      requires fd < |anfds|
      modifies this`anfds, this`eperms
      ensures anfds == old(anfds)[fd := old(anfds)[fd].(emask := Eperm)]
      ensures eperms == Listed(old(eperms), fd, oldmask)
    {
      anfds := anfds[fd := anfds[fd].(emask := Eperm)];
      if !oldmask.Eperm? {
        eperms := eperms + [fd];
      }
    }

    /** ENOENT: the file went away, so add it. EEXIST: an earlier removal was skipped. Otherwise give up. */
    method Recover(fd: Fd, err: Errno, oldmask: EMask, nev: Mask, nomem: bool) returns (done: bool)
      requires fd < |anfds| && err != OK && err != EPERM
      requires err == ENOENT ==> fd in kernel.files && !kernel.Refuses(fd) && !kernel.Current(fd)
      requires err == EEXIST ==> !kernel.Refuses(fd) && kernel.Current(fd)
      modifies this`anfds, this`kernel, this`unsynced
      ensures done <==> (err == ENOENT && !nomem) || (err == EEXIST && oldmask != Mask(nev))
      ensures kernel == if done then old(kernel).(regs := old(kernel).regs[(fd, old(kernel).files[fd]) := Reg(nev, old(anfds)[fd].egen)]) else old(kernel)
      ensures if done || err == EEXIST then anfds == old(anfds) && unsynced == old(unsynced)
              else anfds == old(anfds)[fd := Killed(old(anfds)[fd])] && unsynced == old(unsynced) + {fd}
    {
      if err == ENOENT {
        var err2 := EpollCtl(Add, fd, nev, anfds[fd].egen, nomem);
        if err2 == OK {
          return true;
        }
      } else if err == EEXIST {
        if oldmask == Mask(nev) {
          return false;
        }
        var err2 := EpollCtl(Mod, fd, nev, anfds[fd].egen, nomem);
        if err2 == OK {
          return true;
        }
      }
      FdKill(fd);
      return false;
    }

    method FdKill(fd: Fd)
      requires fd < |anfds|
      modifies this`anfds, this`unsynced
      ensures anfds == old(anfds)[fd := Killed(old(anfds)[fd])]
      ensures unsynced == old(unsynced) + {fd}
    {
      anfds := anfds[fd := Killed(anfds[fd])];
      unsynced := unsynced + {fd};
    }

    /** The event loop of `epoll_poll`; `log` is what `fd_event` hands to watchers. */
    method PollEvents(es: seq<Event>) returns (log: seq<Event>)
      requires forall e :: e in es ==> e.fd < |anfds|
      modifies this
      ensures (State(), log) == HandledAll(old(State()), es)
    {
      log := [];
      ghost var s := State();
      for i := 0 to |es|
        invariant |anfds| == |old(anfds)|
        invariant (State(), log) == HandledAll(s, es[..i])
      {
        assert es[..i + 1][..i] == es[..i];
        var passed := PollEvent(es[i]);
        if passed && !anfds[es[i].fd].reify.Set() && anfds[es[i].fd].want != {} {
          log := log + [es[i]];
        }
      }
      assert es[..|es|] == es;
    }

    /** One turn of the event loop: spurious, unwanted or genuine. */
    method PollEvent(e: Event) returns (passed: bool)
      requires e.fd < |anfds|
      modifies this
      ensures (State(), if passed then Passed(e.fd, e.got) else Dropped) == Handled(old(State()), e)
    {
      var want := anfds[e.fd].events;
      if anfds[e.fd].egen != e.gen {
        postfork := true;
        return false;
      }
      if !(e.got <= want) {
        anfds := anfds[e.fd := anfds[e.fd].(emask := Mask(want))];
        var err := EpollCtl(if want != {} then Mod else Del, e.fd, want, e.gen, false);
        if err != OK {
          postfork := true;
          return false;
        }
      }
      return true;
    }

    /** The last entry of the list takes over slot `i`. */
    method Unlist(i: nat)
      requires i < |eperms| && eperms[i] < |anfds|
      modifies this`eperms, this`anfds
      ensures |eperms| == |old(eperms)| - 1 && forall j :: 0 <= j < |eperms| && j != i ==> eperms[j] == old(eperms)[j]
      ensures i < |eperms| ==> eperms[i] == old(eperms)[|eperms|]
      ensures forall fd :: fd in old(eperms) <==> fd in eperms || fd == old(eperms)[i]
      ensures anfds == old(anfds)[old(eperms)[i] := old(anfds)[old(eperms)[i]].(emask := Mask({}))]
    {
      var fd, last := eperms[i], |eperms| - 1;
      SwapOut(eperms, i);
      eperms := eperms[i := eperms[last]][..last];
      anfds := anfds[fd := anfds[fd].(emask := Mask({}))];
    }

    /** The closing loop of `epoll_poll`, backwards over the list of refused files. */
    method PollEperms() returns (log: seq<(Fd, Mask)>)
      requires forall fd :: fd in eperms ==> fd < |anfds|
      modifies this`eperms, this`anfds
      ensures State() == Swept(old(State()))
      ensures forall fd :: fd in eperms <==> fd in old(eperms) && Sticky(old(anfds)[fd])
      ensures |anfds| == |old(anfds)| && forall fd :: 0 <= fd < |anfds| ==>
                anfds[fd] == if fd in old(eperms) && fd !in eperms then old(anfds)[fd].(emask := Mask({})) else old(anfds)[fd]
      ensures forall d :: d in log ==> d.0 in old(eperms) && Sticky(old(anfds)[d.0]) && d.1 == old(anfds)[d.0].events
      ensures forall fd :: fd in old(eperms) && Sticky(old(anfds)[fd]) && !old(anfds)[fd].reify.Set()
                ==> (fd, old(anfds)[fd].events) in log
    {
      log := [];
      ghost var removed: set<Fd> := {};
      var i := |eperms|;
      assert forall j :: 0 <= j < |eperms| ==> eperms[j] in eperms;
      while i > 0
        invariant 0 <= i <= |eperms| && |anfds| == |old(anfds)|
        invariant forall j :: 0 <= j < |eperms| ==> eperms[j] < |anfds|
        invariant forall fd :: fd in old(eperms) <==> fd in eperms || fd in removed
        invariant forall fd :: fd in removed ==> fd < |anfds| && !Sticky(old(anfds)[fd])
        invariant forall d :: 0 <= d < |anfds| ==>
                    anfds[d] == if d in removed then old(anfds)[d].(emask := Mask({})) else old(anfds)[d]
        invariant forall j :: i <= j < |eperms| ==> Sticky(old(anfds)[eperms[j]])
        invariant forall d :: d in log ==> d.0 in old(eperms) && Sticky(old(anfds)[d.0]) && d.1 == old(anfds)[d.0].events
        invariant forall j :: i <= j < |eperms| && !old(anfds)[eperms[j]].reify.Set()
                    ==> (eperms[j], old(anfds)[eperms[j]].events) in log
      {
        i := i - 1;
        var fd := eperms[i];
        if Sticky(anfds[fd]) {
          if !anfds[fd].reify.Set() {
            log := log + [(fd, anfds[fd].events)];
          }
        } else {
          Unlist(i);
          removed := removed + {fd};
        }
      }
      assert (set fd | fd in eperms) == (set fd | fd in old(State()).eperms && fd < |old(anfds)| && Sticky(old(anfds)[fd]));
      assert anfds == Swept(old(State())).anfds;
    }
  }

  /** Filling a slot with the last element and shortening removes just that slot's element. */
  lemma SwapOut(q: seq<Fd>, i: nat)
    requires i < |q|
    ensures var r := q[i := q[|q| - 1]][..|q| - 1];
            forall x :: x in q <==> x in r || x == q[i]
  {
    var r := q[i := q[|q| - 1]][..|q| - 1];
    forall x | x in q ensures x in r || x == q[i] {
      var j :| 0 <= j < |q| && q[j] == x;
      if j != i {
        assert r[if j == |q| - 1 then i else j] == x;
      }
    }
  }
}
