/** What several of the models share. */
module Common {
  datatype Option<T> = None | Some(value: T)

  predicate NoDuplicates<T(==)>(s: seq<T>) {
    forall i, j :: 0 <= i < j < |s| ==> s[i] != s[j]
  }
}

/** libev's file descriptors, as its loop and its back ends see them. */
module Descriptors {
  type Fd = nat
  datatype Ev = Read | Write
  type Mask = set<Ev>

  /** What is to be looked at again: `change` is EV_ANFD_REIFY, `fdset` is EV__IOFDSET. */
  datatype Reify = Reify(change: bool, fdset: bool) {
    predicate Set() { change || fdset }
  }
}
