/**
 libev's 4-ary heap: `downheap`, `upheap`, `adjustheap` and `reheap`, moving a hole through
 the array while every watcher keeps the index of its own slot in `active`.
 */
module TimerHeap {
  type W = nat

  /** One `ANHE`: a watcher and the cached copy of its deadline. */
  datatype Anhe = Anhe(w: W, at: real)

  const DHEAP := 4
  const HEAP0 := DHEAP - 1

  /** C division truncates toward zero. */
  function Quotient(a: int, b: int): int
    requires b > 0
  {
    if a >= 0 then a / b else -((-a) / b)
  }

  /** `HPARENT`: the root is its own parent. */
  function Parent(k: int): (p: int)
    ensures k == HEAP0 ==> p == HEAP0
    ensures k > HEAP0 ==> HEAP0 <= p < k && DHEAP * (p - HEAP0) + HEAP0 + 1 <= k <= DHEAP * (p - HEAP0) + HEAP0 + DHEAP
  {
    Quotient(k - HEAP0 - 1, DHEAP) + HEAP0
  }

  predicate InHeap(n: nat, j: int) { HEAP0 <= j < n + HEAP0 }

  /** Slot `j` is not earlier than its parent. */
  predicate After(h: seq<Anhe>, n: nat, j: int)
    requires n + HEAP0 <= |h|
  {
    InHeap(n, j) ==> h[Parent(j)].at <= h[j].at
  }

  ghost predicate Ordered(h: seq<Anhe>, n: nat)
    requires n + HEAP0 <= |h|
  {
    forall j {:trigger After(h, n, j)} :: After(h, n, j)
  }

  /** Order with a hole at `k` that may be too early for its parent. */
  ghost predicate OrderedUp(h: seq<Anhe>, n: nat, k: int)
    requires n + HEAP0 <= |h| && InHeap(n, k)
  {
    && (forall j {:trigger After(h, n, j)} :: j != k ==> After(h, n, j))
    && (forall j {:trigger After(h, n, j)} :: InHeap(n, j) && Parent(j) == k && j != k && k != HEAP0 ==> h[Parent(k)].at <= h[j].at)
  }

  /** Order with a hole at `k` that may be too late for its children. */
  ghost predicate OrderedDown(h: seq<Anhe>, n: nat, k: int)
    requires n + HEAP0 <= |h| && InHeap(n, k)
  {
    && (forall j {:trigger After(h, n, j)} :: Parent(j) != k || j == k ==> After(h, n, j))
    && (forall j {:trigger After(h, n, j)} :: InHeap(n, j) && Parent(j) == k && j != k && k != HEAP0 ==> h[Parent(k)].at <= h[j].at)
  }

  predicate Distinct(h: seq<Anhe>, n: nat)
    requires n + HEAP0 <= |h|
  {
    forall i, j :: HEAP0 <= i < j < n + HEAP0 ==> h[i].w != h[j].w
  }

  /** Every watcher but the one at `k` knows its slot. */
  predicate IndexedBut(h: seq<Anhe>, n: nat, active: map<W, int>, k: int)
    requires n + HEAP0 <= |h|
  {
    forall j :: HEAP0 <= j < n + HEAP0 && j != k ==> h[j].w in active && active[h[j].w] == j
  }

  predicate Indexed(h: seq<Anhe>, n: nat, active: map<W, int>)
    requires n + HEAP0 <= |h|
  {
    forall j :: HEAP0 <= j < n + HEAP0 ==> h[j].w in active && active[h[j].w] == j
  }

  function Entries(h: seq<Anhe>, n: nat): multiset<Anhe>
    requires n + HEAP0 <= |h|
  {
    multiset(h[HEAP0..n + HEAP0])
  }

  /** The watchers on the heap. */
  function Members(h: seq<Anhe>, n: nat): set<W>
    requires n + HEAP0 <= |h|
  {
    set j | HEAP0 <= j < n + HEAP0 :: h[j].w
  }

  /** Only members were given new indices. */
  ghost predicate SameOutside(a: map<W, int>, a': map<W, int>, ws: set<W>) {
    forall w :: w !in ws ==> (w in a <==> w in a') && (w in a ==> a'[w] == a[w])
  }

  function Swapped(h: seq<Anhe>, i: nat, j: nat): seq<Anhe>
    requires i < |h| && j < |h|
  {
    h[i := h[j]][j := h[i]]
  }

  lemma SwapMultiset(s: seq<Anhe>, i: nat, j: nat)
    requires i < |s| && j < |s|
    ensures multiset(Swapped(s, i, j)) == multiset(s)
  {
  }

  lemma SwapSlice(h: seq<Anhe>, n: nat, i: nat, j: nat)
    requires n + HEAP0 <= |h| && InHeap(n, i) && InHeap(n, j)
    ensures Swapped(h, i, j)[HEAP0..n + HEAP0] == Swapped(h[HEAP0..n + HEAP0], i - HEAP0, j - HEAP0)
  {
  }

  lemma SwappedEntries(h: seq<Anhe>, n: nat, i: nat, j: nat)
    requires n + HEAP0 <= |h| && InHeap(n, i) && InHeap(n, j)
    ensures Entries(Swapped(h, i, j), n) == Entries(h, n)
  {
    SwapSlice(h, n, i, j);
    SwapMultiset(h[HEAP0..n + HEAP0], i - HEAP0, j - HEAP0);
  }

  lemma SwappedMembers(h: seq<Anhe>, n: nat, i: nat, j: nat)
    requires n + HEAP0 <= |h| && InHeap(n, i) && InHeap(n, j)
    ensures Members(Swapped(h, i, j), n) == Members(h, n)
  {
    var v := Swapped(h, i, j);
    forall w | w in Members(h, n) ensures w in Members(v, n) {
      var k :| HEAP0 <= k < n + HEAP0 && h[k].w == w;
      assert v[if k == i then j else if k == j then i else k].w == w;
    }
  }

  lemma SwappedDistinct(h: seq<Anhe>, n: nat, i: nat, j: nat)
    requires n + HEAP0 <= |h| && InHeap(n, i) && InHeap(n, j) && Distinct(h, n)
    ensures Distinct(Swapped(h, i, j), n)
  {
  }

  lemma UpStep(h: seq<Anhe>, n: nat, k: int)
    requires n + HEAP0 <= |h| && InHeap(n, k) && k != HEAP0
    requires OrderedUp(h, n, k) && h[k].at < h[Parent(k)].at
    ensures OrderedUp(Swapped(h, k, Parent(k)), n, Parent(k))
  {
    var p := Parent(k);
    var v := Swapped(h, k, p);
    assert p != HEAP0 ==> After(h, n, p);
    forall j | j != p ensures After(v, n, j) {
      assert After(h, n, j) || j == k;
    }
    forall j | InHeap(n, j) && Parent(j) == p && j != p ensures v[Parent(p)].at <= v[j].at {
      assert After(h, n, j) || j == k;
    }
  }

  lemma UpDone(h: seq<Anhe>, n: nat, k: int)
    requires n + HEAP0 <= |h| && InHeap(n, k) && OrderedUp(h, n, k)
    requires k == HEAP0 || h[Parent(k)].at <= h[k].at
    ensures Ordered(h, n)
  {
  }

  lemma DownStep(h: seq<Anhe>, n: nat, k: int, c: int)
    requires n + HEAP0 <= |h| && InHeap(n, k) && InHeap(n, c) && Parent(c) == k && c != k
    requires OrderedDown(h, n, k) && h[c].at < h[k].at
    requires forall j :: InHeap(n, j) && Parent(j) == k && j != k ==> h[c].at <= h[j].at
    ensures OrderedDown(Swapped(h, k, c), n, c)
  {
    var v := Swapped(h, k, c);
    forall j | Parent(j) != c || j == c ensures After(v, n, j) {
      assert Parent(j) != k ==> After(h, n, j);
      assert After(h, n, k);
      assert After(h, n, c) || k == HEAP0 || h[Parent(k)].at <= h[c].at;
      if InHeap(n, j) && Parent(j) == k && j != k {
        assert h[c].at <= h[j].at;
      }
    }
    forall j | InHeap(n, j) && Parent(j) == c && j != c ensures v[Parent(c)].at <= v[j].at {
      assert After(h, n, j);
    }
  }

  lemma DownDone(h: seq<Anhe>, n: nat, k: int)
    requires n + HEAP0 <= |h| && InHeap(n, k) && OrderedDown(h, n, k)
    requires forall j :: InHeap(n, j) && Parent(j) == k && j != k ==> h[k].at <= h[j].at
    ensures Ordered(h, n)
  {
  }

  /** The state inside `upheap` and `downheap`: `v` is the heap with `he` put back into the hole. */
  ghost predicate Hole(h: seq<Anhe>, n: nat, k: int, he: Anhe, active: map<W, int>, v: seq<Anhe>) {
    && n + HEAP0 <= |h| && InHeap(n, k) && v == h[k := he]
    && Distinct(v, n) && IndexedBut(v, n, active, k)
  }

  /** Within `total` slots nothing but the order of the first `n` has changed since `h0`. */
  ghost predicate Permuted(h0: seq<Anhe>, v: seq<Anhe>, n: nat, total: nat) {
    && n <= total && total + HEAP0 <= |h0| == |v|
    && Entries(v, total) == Entries(h0, total) && Members(v, n) == Members(h0, n) && Distinct(v, total)
    && v[n + HEAP0..] == h0[n + HEAP0..]
  }

  lemma HoleMove(h: seq<Anhe>, n: nat, k: int, he: Anhe, active: map<W, int>, v: seq<Anhe>, p: int,
                 h0: seq<Anhe>, a0: map<W, int>, total: nat)
    requires Hole(h, n, k, he, active, v) && InHeap(n, p) && p != k
    requires Permuted(h0, v, n, total) && SameOutside(a0, active, Members(h0, n))
    ensures Hole(h[k := h[p]], n, p, he, active[h[p].w := k], Swapped(v, k, p))
    ensures Permuted(h0, Swapped(v, k, p), n, total)
    ensures SameOutside(a0, active[h[p].w := k], Members(h0, n))
  {
    SwappedDistinct(v, total, k, p);
    SwappedEntries(v, total, k, p);
    SwappedMembers(v, n, k, p);
    assert v[p].w in Members(v, n);
  }

  lemma HoleFill(h: seq<Anhe>, n: nat, k: int, he: Anhe, active: map<W, int>, v: seq<Anhe>)
    requires Hole(h, n, k, he, active, v)
    ensures Indexed(v, n, active[he.w := k])
  {
    forall j | InHeap(n, j) && j != k ensures v[j].w != he.w {
      assert v[k] == he;
    }
  }

  class Heap4 {
    var heap: seq<Anhe>
    var active: map<W, int>

    constructor ()
      ensures |heap| == HEAP0 && active == map[]
    {
      heap := seq(HEAP0, _ => Anhe(0, 0.0));
      active := map[];
    }

    /** Towards the root, in the heap of the first `n` of `total` entries. */
    method Upheap(k0: int, ghost n: nat, ghost total: nat)
      requires n <= total && total + HEAP0 <= |heap| && InHeap(n, k0)
      requires OrderedUp(heap, n, k0) && Distinct(heap, total) && IndexedBut(heap, n, active, k0)
      modifies this
      ensures Permuted(old(heap), heap, n, total) && SameOutside(old(active), active, Members(old(heap), n))
      ensures Ordered(heap, n) && Indexed(heap, n, active)
    {
      var k := k0;
      var he := heap[k];
      ghost var v := heap;
      while true
        invariant Hole(heap, n, k, he, active, v) && OrderedUp(v, n, k)
        invariant Permuted(old(heap), v, n, total) && SameOutside(old(active), active, Members(old(heap), n))
        decreases k
      {
        var p := Parent(k);
        if p == k || heap[p].at <= he.at {
          break;
        }
        UpStep(v, n, k);
        HoleMove(heap, n, k, he, active, v, p, old(heap), old(active), total);
        v := Swapped(v, k, p);
        heap := heap[k := heap[p]];
        active := active[heap[k].w := k];
        k := p;
      }
      UpDone(v, n, k);
      HoleFill(heap, n, k, he, active, v);
      assert v[k].w in Members(v, n);
      heap := heap[k := he];
      active := active[he.w := k];
    }

    /** The earliest of the children at `pos..pos + DHEAP`, as far as they exist. */
    method MinChild(pos: int, e: int) returns (minpos: int)
      requires HEAP0 <= pos < e <= |heap|
      ensures pos <= minpos < e && minpos < pos + DHEAP
      ensures forall j :: pos <= j < e && j < pos + DHEAP ==> heap[minpos].at <= heap[j].at
    {
      minpos := pos;
      var minat := heap[minpos].at;
      if pos + DHEAP - 1 < e {
        if minat > heap[pos + 1].at { minpos := pos + 1; minat := heap[minpos].at; }
        if minat > heap[pos + 2].at { minpos := pos + 2; minat := heap[minpos].at; }
        if minat > heap[pos + 3].at { minpos := pos + 3; minat := heap[minpos].at; }
      } else {
        if pos + 1 < e && minat > heap[pos + 1].at { minpos := pos + 1; minat := heap[minpos].at; }
        if pos + 2 < e && minat > heap[pos + 2].at { minpos := pos + 2; minat := heap[minpos].at; }
        // the source also tests a fourth child here, which never exists on this path
        assert pos + 3 >= e;
      }
    }

    /** Away from the root. */
    method Downheap(n: nat, k0: int)
      requires n + HEAP0 <= |heap| && InHeap(n, k0)
      requires OrderedDown(heap, n, k0) && Distinct(heap, n) && IndexedBut(heap, n, active, k0)
      modifies this
      ensures Permuted(old(heap), heap, n, n) && SameOutside(old(active), active, Members(old(heap), n))
      ensures Ordered(heap, n) && Indexed(heap, n, active)
    {
      var k := k0;
      var he := heap[k];
      var e := n + HEAP0;
      ghost var v := heap;
      while true
        invariant Hole(heap, n, k, he, active, v) && OrderedDown(v, n, k)
        invariant Permuted(old(heap), v, n, n) && SameOutside(old(active), active, Members(old(heap), n))
        decreases e - k
      {
        var pos := DHEAP * (k - HEAP0) + HEAP0 + 1;
        if pos >= e {
          break;
        }
        var c := MinChild(pos, e);
        assert forall j :: InHeap(n, j) && Parent(j) == k && j != k ==> v[c].at <= v[j].at;
        if he.at <= heap[c].at {
          break;
        }
        DownStep(v, n, k, c);
        HoleMove(heap, n, k, he, active, v, c, old(heap), old(active), n);
        v := Swapped(v, k, c);
        heap := heap[k := heap[c]];
        active := active[heap[k].w := k];
        k := c;
      }
      DownDone(v, n, k);
      HoleFill(heap, n, k, he, active, v);
      assert v[k].w in Members(v, n);
      heap := heap[k := he];
      active := active[he.w := k];
    }

    /** Settle an entry whose deadline may have moved either way. */
    method Adjustheap(n: nat, k: int)
      requires n + HEAP0 <= |heap| && InHeap(n, k)
      requires OrderedBut(heap, n, k) && Distinct(heap, n) && IndexedBut(heap, n, active, k)
      modifies this
      ensures Permuted(old(heap), heap, n, n) && SameOutside(old(active), active, Members(old(heap), n))
      ensures Ordered(heap, n) && Indexed(heap, n, active)
    {
      AdjustReady(heap, n, k);
      if k > HEAP0 && heap[k].at <= heap[Parent(k)].at {
        Upheap(k, n, n);
      } else {
        Downheap(n, k);
      }
    }

    /** Rebuild the heap from entries in any order. */
    method Reheap(n: nat)
      requires n + HEAP0 <= |heap| && Distinct(heap, n)
      modifies this
      ensures Permuted(old(heap), heap, n, n) && SameOutside(old(active), active, Members(old(heap), n))
      ensures Ordered(heap, n) && Indexed(heap, n, active)
    {
      ghost var h0, a0 := heap, active;
      for i := 0 to n
        invariant Permuted(h0, heap, n, n) && SameOutside(a0, active, Members(h0, n))
        invariant Ordered(heap, i) && Indexed(heap, i, active)
      {
        ReheapStep(i, n, h0, a0);
      }
    }

    method ReheapStep(i: nat, n: nat, ghost h0: seq<Anhe>, ghost a0: map<W, int>)
      requires i < n && n + HEAP0 <= |heap|
      requires Permuted(h0, heap, n, n) && SameOutside(a0, active, Members(h0, n))
      requires Ordered(heap, i) && Indexed(heap, i, active)
      modifies this
      ensures Permuted(h0, heap, n, n) && SameOutside(a0, active, Members(h0, n))
      ensures Ordered(heap, i + 1) && Indexed(heap, i + 1, active)
    {
      ghost var h1, a1 := heap, active;
      ExtendHeap(h1, i);
      Upheap(i + HEAP0, i + 1, n);
      PermutedTrans(h0, h1, heap, i + 1, n, a0, a1, active);
    }
  }

  /** Order but for one entry, whose neighbours are still in order with each other. */
  ghost predicate OrderedBut(h: seq<Anhe>, n: nat, k: int)
    requires n + HEAP0 <= |h| && InHeap(n, k)
  {
    && (forall j {:trigger After(h, n, j)} :: j != k && Parent(j) != k ==> After(h, n, j))
    && (forall j {:trigger After(h, n, j)} :: InHeap(n, j) && Parent(j) == k && j != k && k != HEAP0 ==> h[Parent(k)].at <= h[j].at)
  }

  lemma AdjustReady(h: seq<Anhe>, n: nat, k: int)
    requires n + HEAP0 <= |h| && InHeap(n, k) && OrderedBut(h, n, k)
    ensures if k > HEAP0 && h[k].at <= h[Parent(k)].at then OrderedUp(h, n, k) else OrderedDown(h, n, k)
  {
    if k > HEAP0 && h[k].at <= h[Parent(k)].at {
      forall j | j != k ensures After(h, n, j) {
        assert j != k && Parent(j) != k ==> After(h, n, j);
        var _ := After(h, n, j);
      }
      forall j | InHeap(n, j) && Parent(j) == k && j != k ensures h[Parent(k)].at <= h[j].at {
        var _ := After(h, n, j);
      }
    } else {
      forall j | Parent(j) != k || j == k ensures After(h, n, j) {
        assert j != k && Parent(j) != k ==> After(h, n, j);
      }
      forall j | InHeap(n, j) && Parent(j) == k && j != k && k != HEAP0 ensures h[Parent(k)].at <= h[j].at {
        var _ := After(h, n, j);
      }
    }
  }

  lemma ExtendHeap(h: seq<Anhe>, i: nat)
    requires i + 1 + HEAP0 <= |h| && Ordered(h, i)
    ensures OrderedUp(h, i + 1, i + HEAP0)
  {
    var n, k := i + 1, i + HEAP0;
    forall j | j != k ensures After(h, n, j) {
      assert After(h, i, j);
    }
    assert forall j :: InHeap(n, j) && j != k ==> Parent(j) != k;
  }

  lemma PermutedTrans(h0: seq<Anhe>, h1: seq<Anhe>, h2: seq<Anhe>, m: nat, n: nat,
                      a0: map<W, int>, a1: map<W, int>, a2: map<W, int>)
    requires Permuted(h0, h1, n, n) && SameOutside(a0, a1, Members(h0, n))
    requires Permuted(h1, h2, m, n) && SameOutside(a1, a2, Members(h1, m))
    ensures Permuted(h0, h2, n, n) && SameOutside(a0, a2, Members(h0, n))
  {
    forall w ensures w in Members(h2, n) <==> w in Members(h1, n) {
      MemberSplit(h1, m, n, w);
      MemberSplit(h2, m, n, w);
      TailEqual(h1, h2, m);
    }
    assert Members(h2, n) == Members(h1, n);
    assert Members(h1, m) <= Members(h1, n);
    forall j | n + HEAP0 <= j < |h0| ensures h2[j] == h0[j] {
      TailEqual(h1, h2, m);
      TailEqual(h0, h1, n);
    }
  }

  lemma TailEqual(h1: seq<Anhe>, h2: seq<Anhe>, m: nat)
    requires m + HEAP0 <= |h1| == |h2| && h1[m + HEAP0..] == h2[m + HEAP0..]
    ensures forall j :: m + HEAP0 <= j < |h1| ==> h1[j] == h2[j]
  {
  }

  lemma MemberSplit(h: seq<Anhe>, m: nat, n: nat, w: W)
    requires m <= n && n + HEAP0 <= |h|
    ensures w in Members(h, n) <==> w in Members(h, m) || exists j :: m + HEAP0 <= j < n + HEAP0 && h[j].w == w
  {
  }
}
