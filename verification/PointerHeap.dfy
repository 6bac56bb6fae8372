/**
 libhv's binary heap of linked nodes. The node count alone locates the last slot: its bits,
 read from the second highest down, are the turns to take from the root.

 The ghost sequence `slots` lists the nodes level by level; position `i` counts from 1,
 so its children stand at `2 * i` and `2 * i + 1`.
 */
module HeapShape {
  import opened Common

  type Ptr = nat
  const NULL: Ptr := 0

  /** One `struct heap_node`, with the key that `compare` looks at in the enclosing timer. */
  datatype Cell = Cell(parent: Ptr, left: Ptr, right: Ptr, key: int)
  type Mem = map<Ptr, Cell>

  /** The node at a position, null beyond the last. */
  function At(slots: seq<Ptr>, i: int): Ptr {
    if 1 <= i <= |slots| then slots[i - 1] else NULL
  }

  predicate LinkedAt(m: Mem, slots: seq<Ptr>, i: int) {
    1 <= i <= |slots| ==>
      var p := slots[i - 1];
      && p != NULL && p in m
      && m[p].parent == At(slots, i / 2) && m[p].left == At(slots, 2 * i) && m[p].right == At(slots, 2 * i + 1)
  }

  /** Memory holds the complete binary tree whose levels read `slots`. */
  ghost predicate Rep(m: Mem, root: Ptr, slots: seq<Ptr>) {
    && root == At(slots, 1) && NoDuplicates(slots) && NULL !in m
    && forall i {:trigger LinkedAt(m, slots, i)} :: LinkedAt(m, slots, i)
  }

  function Swapped(slots: seq<Ptr>, i: int, j: int): seq<Ptr>
    requires 1 <= i <= |slots| && 1 <= j <= |slots|
  {
    slots[i - 1 := slots[j - 1]][j - 1 := slots[i - 1]]
  }

  lemma SwappedKeeps(slots: seq<Ptr>, i: int, j: int)
    requires 1 <= i <= |slots| && 1 <= j <= |slots|
    ensures multiset(Swapped(slots, i, j)) == multiset(slots)
    ensures NoDuplicates(slots) ==> NoDuplicates(Swapped(slots, i, j))
  {
  }

  // ---------- Swapping a node with its parent ----------

  /** Where the sibling of position `c` stands. */
  function Other(c: int): int { if c % 2 == 0 then c + 1 else c - 1 }

  /**
   The nodes a swap touches: `x` and its parent `y`, the grandparent, the children of `x` and its
   sibling. `xl`: `x` is a left child; `yl`: so is `y`.
   */
  datatype Family = Family(x: Ptr, y: Ptr, pp: Ptr, l: Ptr, r: Ptr, s: Ptr, xl: bool, yl: bool) {
    predicate Apart() {
      && x != NULL && y != NULL && x != y
      && pp !in {x, y, l, r, s} - {NULL} && s !in {x, y, l, r} - {NULL} && l !in {x, y, r} - {NULL} && r !in {x, y} - {NULL}
    }
  }

  function FamilyAt(slots: seq<Ptr>, c: int): Family
    requires 2 <= c <= |slots|
  {
    var p := c / 2;
    Family(At(slots, c), At(slots, p), At(slots, p / 2), At(slots, 2 * c), At(slots, 2 * c + 1), At(slots, Other(c)),
           c % 2 == 0, p % 2 == 0)
  }

  lemma FamilyApart(slots: seq<Ptr>, c: int)
    requires NoDuplicates(slots) && NULL !in slots && 2 <= c <= |slots|
    ensures FamilyAt(slots, c).Apart()
  {
  }

  /** Every cell once `x` and `y` have traded places. */
  function Traded(m: Mem, f: Family, q: Ptr): Cell
    requires q in m
  {
    var e := m[q];
    if q == f.x then Cell(f.pp, if f.xl then f.y else f.s, if f.xl then f.s else f.y, e.key)
    else if q == f.y then Cell(f.x, f.l, f.r, e.key)
    else Cell(if q == f.s then f.x else if q == f.l || q == f.r then f.y else e.parent,
              if q == f.pp && f.yl then f.x else e.left,
              if q == f.pp && !f.yl then f.x else e.right, e.key)
  }

  ghost predicate SwapWritten(m: Mem, m': Mem, f: Family) {
    m'.Keys == m.Keys && f.x in m && f.y in m && forall q :: q in m && q != NULL ==> m'[q] == Traded(m, f, q)
  }

  lemma AtUnique(slots: seq<Ptr>, i: int, j: int)
    requires NoDuplicates(slots) && 1 <= i <= |slots|
    ensures 1 <= j <= |slots| ==> (At(slots, i) == At(slots, j) <==> i == j)
  {
  }

  ghost predicate SwapReady(m: Mem, m': Mem, slots: seq<Ptr>, c: int, j: int) {
    && NoDuplicates(slots) && NULL !in slots && 2 <= c <= |slots| && 1 <= j <= |slots|
    && SwapWritten(m, m', FamilyAt(slots, c)) && LinkedAt(m, slots, j)
  }

  /** The node that stands at position `j` after the swap. */
  function Moved(slots: seq<Ptr>, c: int, j: int): Ptr
    requires 2 <= c <= |slots| && 1 <= j <= |slots|
  {
    At(slots, if j == c then c / 2 else if j == c / 2 then c else j)
  }

  lemma SwapParent(m: Mem, m': Mem, slots: seq<Ptr>, c: int, j: int)
    requires SwapReady(m, m', slots, c, j)
    ensures Moved(slots, c, j) in m' && m'[Moved(slots, c, j)].parent == At(Swapped(slots, c / 2, c), j / 2)
  {
    AtUnique(slots, j, c);
    AtUnique(slots, j, c / 2);
    AtUnique(slots, j, Other(c));
  }

  lemma SwapLeft(m: Mem, m': Mem, slots: seq<Ptr>, c: int, j: int)
    requires SwapReady(m, m', slots, c, j)
    ensures Moved(slots, c, j) in m' && m'[Moved(slots, c, j)].left == At(Swapped(slots, c / 2, c), 2 * j)
  {
    AtUnique(slots, j, c);
    AtUnique(slots, j, c / 2);
  }

  lemma SwapRight(m: Mem, m': Mem, slots: seq<Ptr>, c: int, j: int)
    requires SwapReady(m, m', slots, c, j)
    ensures Moved(slots, c, j) in m' && m'[Moved(slots, c, j)].right == At(Swapped(slots, c / 2, c), 2 * j + 1)
  {
    AtUnique(slots, j, c);
    AtUnique(slots, j, c / 2);
  }

  lemma SwapRep(m: Mem, m': Mem, root: Ptr, root': Ptr, slots: seq<Ptr>, c: int)
    requires Rep(m, root, slots) && 2 <= c <= |slots| && SwapWritten(m, m', FamilyAt(slots, c))
    requires root' == if c / 2 == 1 then At(slots, c) else root
    ensures Rep(m', root', Swapped(slots, c / 2, c))
  {
    var v := Swapped(slots, c / 2, c);
    RepReal(m, root, slots);
    SwappedKeeps(slots, c / 2, c);
    forall j ensures LinkedAt(m', v, j) {
      if 1 <= j <= |slots| {
        assert LinkedAt(m, slots, j);
        SwapParent(m, m', slots, c, j);
        SwapLeft(m, m', slots, c, j);
        SwapRight(m, m', slots, c, j);
        assert Moved(slots, c, j) == v[j - 1];
      }
    }
  }

  lemma RepReal(m: Mem, root: Ptr, slots: seq<Ptr>)
    requires Rep(m, root, slots)
    ensures NULL !in slots && forall q :: q in slots ==> q in m
  {
    forall q | q in slots ensures q != NULL && q in m {
      var i :| 0 <= i < |slots| && slots[i] == q;
      assert LinkedAt(m, slots, i + 1);
    }
  }

  // ---------- Heap order ----------

  function KeyAt(m: Mem, slots: seq<Ptr>, i: int): int
    requires 1 <= i <= |slots| && slots[i - 1] in m
  {
    m[slots[i - 1]].key
  }

  ghost predicate Held(m: Mem, slots: seq<Ptr>) {
    forall q :: q in slots ==> q in m
  }

  predicate NotBefore(m: Mem, slots: seq<Ptr>, i: int) {
    2 <= i <= |slots| ==> slots[i - 1] in m && slots[i / 2 - 1] in m && KeyAt(m, slots, i / 2) <= KeyAt(m, slots, i)
  }

  ghost predicate Ordered(m: Mem, slots: seq<Ptr>) {
    forall i {:trigger NotBefore(m, slots, i)} :: NotBefore(m, slots, i)
  }

  predicate Grandparent(m: Mem, slots: seq<Ptr>, k: int, i: int) {
    2 <= i <= |slots| && i / 2 == k && k >= 2 ==>
      slots[i - 1] in m && slots[k / 2 - 1] in m && KeyAt(m, slots, k / 2) <= KeyAt(m, slots, i)
  }

  /** Order, except that position `k` may be too small for its parent. */
  ghost predicate OrderedUp(m: Mem, slots: seq<Ptr>, k: int) {
    && (forall i {:trigger NotBefore(m, slots, i)} :: i != k ==> NotBefore(m, slots, i))
    && (forall i {:trigger Grandparent(m, slots, k, i)} :: Grandparent(m, slots, k, i))
  }

  /** Order, except around position `k`. */
  ghost predicate OrderedBut(m: Mem, slots: seq<Ptr>, k: int) {
    && (forall i {:trigger NotBefore(m, slots, i)} :: i != k && i / 2 != k ==> NotBefore(m, slots, i))
    && (forall i {:trigger Grandparent(m, slots, k, i)} :: Grandparent(m, slots, k, i))
  }

  /** Keys do not move. */
  ghost predicate SameKeys(m: Mem, m': Mem) {
    m'.Keys == m.Keys && forall q :: q in m ==> m'[q].key == m[q].key
  }

  /** Nodes outside the tree keep their cells. */
  ghost predicate Spared(m: Mem, m': Mem, out: set<Ptr>) {
    forall q :: q in out && q in m ==> q in m' && m'[q] == m[q]
  }

  ghost predicate Off(out: set<Ptr>, slots: seq<Ptr>) {
    forall q :: q in out ==> q !in slots
  }

  ghost function Outside(m: Mem, slots: seq<Ptr>): set<Ptr> {
    set q | q in m && q !in slots
  }

  lemma SwapSpares(m: Mem, m': Mem, slots: seq<Ptr>, c: int, out: set<Ptr>)
    requires 2 <= c <= |slots| && SwapWritten(m, m', FamilyAt(slots, c)) && NULL !in m && Off(out, slots)
    ensures Spared(m, m', out) && Off(out, Swapped(slots, c / 2, c))
  {
  }

  lemma UpStep(m: Mem, m': Mem, slots: seq<Ptr>, k: int)
    requires 2 <= k <= |slots| && Held(m, slots) && SameKeys(m, m')
    requires OrderedUp(m, slots, k) && KeyAt(m, slots, k) < KeyAt(m, slots, k / 2)
    ensures OrderedUp(m', Swapped(slots, k / 2, k), k / 2)
  {
    var p, v := k / 2, Swapped(slots, k / 2, k);
    assert NotBefore(m, slots, p);
    forall i | i != p ensures NotBefore(m', v, i) {
      assert i != k ==> NotBefore(m, slots, i);
      assert Grandparent(m, slots, k, i);
    }
    forall i ensures Grandparent(m', v, p, i) {
      assert i != k ==> NotBefore(m, slots, i);
    }
  }

  lemma DownStep(m: Mem, m': Mem, slots: seq<Ptr>, k: int, c: int)
    requires 1 <= k && 2 <= c <= |slots| && c / 2 == k && Held(m, slots) && SameKeys(m, m')
    requires OrderedBut(m, slots, k) && KeyAt(m, slots, c) <= KeyAt(m, slots, k)
    requires 1 <= Other(c) <= |slots| && Other(c) > 1 ==> KeyAt(m, slots, c) <= KeyAt(m, slots, Other(c))
    ensures OrderedBut(m', Swapped(slots, k, c), c) && NotBefore(m', Swapped(slots, k, c), c)
  {
    var v := Swapped(slots, k, c);
    assert Grandparent(m, slots, k, c);
    forall i | i != c && i / 2 != c ensures NotBefore(m', v, i) {
      assert i != k && i / 2 != k ==> NotBefore(m, slots, i);
    }
    forall i ensures Grandparent(m', v, c, i) {
      assert i / 2 == c ==> NotBefore(m, slots, i);
    }
  }

  lemma {:induction false} RootLeast(m: Mem, slots: seq<Ptr>, i: int)
    requires Ordered(m, slots) && Held(m, slots) && 1 <= i <= |slots|
    ensures KeyAt(m, slots, 1) <= KeyAt(m, slots, i)
    decreases i
  {
    if i > 1 {
      assert NotBefore(m, slots, i);
      RootLeast(m, slots, i / 2);
    }
  }

  lemma RootFirst(m: Mem, root: Ptr, slots: seq<Ptr>)
    requires Rep(m, root, slots) && Ordered(m, slots)
    ensures Held(m, slots) && (slots == [] <==> root == NULL) && (slots != [] ==> root in slots)
    ensures forall q :: q in slots ==> m[root].key <= m[q].key
  {
    RepReal(m, root, slots);
    forall q | q in slots ensures m[root].key <= m[q].key {
      RootLeast(m, slots, PositionOf(slots, q));
    }
  }

  ghost function PositionOf(slots: seq<Ptr>, q: Ptr): (i: int)
    requires q in slots
    ensures 1 <= i <= |slots| && slots[i - 1] == q
  {
    var j :| 0 <= j < |slots| && slots[j] == q;
    j + 1
  }

  lemma ReplaceDone(m: Mem, m': Mem, slots: seq<Ptr>, k: int, y: Ptr)
    requires Ordered(m, slots) && Held(m, slots) && SameKeys(m, m') && 1 <= k <= |slots| && y in m
    ensures OrderedBut(m', slots[k - 1 := y], k) && At(slots[k - 1 := y], k) == y
    ensures multiset(slots[k - 1 := y]) == multiset(slots + [y]) - multiset{slots[k - 1]}
  {
    ReplaceOrder(m, m', slots, k, y);
    ReplaceBag(slots, k, y);
  }

  lemma ReplaceBag(slots: seq<Ptr>, k: int, y: Ptr)
    requires 1 <= k <= |slots|
    ensures multiset(slots[k - 1 := y]) == multiset(slots + [y]) - multiset{slots[k - 1]}
  {
  }

  // ---------- The last slot ----------

  lemma AppendRep(m: Mem, m': Mem, root: Ptr, root': Ptr, slots: seq<Ptr>, node: Ptr)
    requires Rep(m, root, slots) && node != NULL && node in m && node !in slots
    requires m[node].left == NULL && m[node].right == NULL
    requires m'.Keys == m.Keys && m'[node] == m[node].(parent := At(slots, (|slots| + 1) / 2))
    requires forall q :: q in m && q != node ==>
               m'[q] == if q != At(slots, (|slots| + 1) / 2) then m[q]
                        else if (|slots| + 1) % 2 == 1 then m[q].(right := node) else m[q].(left := node)
    requires root' == if slots == [] then node else root
    ensures Rep(m', root', slots + [node])
  {
    var n, v := |slots| + 1, slots + [node];
    RepReal(m, root, slots);
    forall j ensures LinkedAt(m', v, j) {
      assert LinkedAt(m, slots, j);
      if n >= 2 {
        AtUnique(slots, n / 2, j);
      }
      if 1 <= j < n {
        assert v[j - 1] == slots[j - 1] && slots[j - 1] in slots;
      }
    }
  }

  lemma DetachRep(m: Mem, m': Mem, root: Ptr, slots: seq<Ptr>)
    requires Rep(m, root, slots) && |slots| >= 2
    requires m'.Keys == m.Keys
    requires forall q :: q in m ==>
               m'[q] == if q != At(slots, |slots| / 2) then m[q]
                        else if |slots| % 2 == 1 then m[q].(right := NULL) else m[q].(left := NULL)
    ensures Rep(m', root, slots[..|slots| - 1])
  {
    var n, v := |slots|, slots[..|slots| - 1];
    RepReal(m, root, slots);
    forall j ensures LinkedAt(m', v, j) {
      assert LinkedAt(m, slots, j);
      AtUnique(slots, n / 2, j);
    }
  }

  /** Cells of nodes outside the tree do not matter. */
  lemma RepFrame(m: Mem, m': Mem, root: Ptr, slots: seq<Ptr>)
    requires Rep(m, root, slots) && NULL !in m' && forall q :: q in slots && q in m ==> q in m' && m'[q] == m[q]
    ensures Rep(m', root, slots)
  {
    RepReal(m, root, slots);
    forall j ensures LinkedAt(m', slots, j) {
      assert LinkedAt(m, slots, j);
      assert 1 <= j <= |slots| ==> slots[j - 1] in slots;
    }
  }

  /** The node `x` at position `k` and its neighbours, once `y` has taken its place. */
  function Replaced(m: Mem, slots: seq<Ptr>, k: int, y: Ptr, q: Ptr): Cell
    requires q in m
  {
    var e := m[q];
    if q == y then Cell(At(slots, k / 2), At(slots, 2 * k), At(slots, 2 * k + 1), e.key)
    else Cell(if q == At(slots, 2 * k) || q == At(slots, 2 * k + 1) then y else e.parent,
              if q == At(slots, k / 2) && k % 2 == 0 then y else e.left,
              if q == At(slots, k / 2) && k % 2 == 1 then y else e.right, e.key)
  }

  lemma ReplaceRep(m: Mem, m': Mem, root: Ptr, root': Ptr, slots: seq<Ptr>, k: int, y: Ptr)
    requires Rep(m, root, slots) && 1 <= k <= |slots| && y != NULL && y in m && y !in slots
    requires m'.Keys == m.Keys && forall q :: q in m && q != slots[k - 1] ==> m'[q] == Replaced(m, slots, k, y, q)
    requires root' == if k == 1 then y else root
    ensures Rep(m', root', slots[k - 1 := y])
  {
    var v := slots[k - 1 := y];
    RepReal(m, root, slots);
    assert forall j :: 1 <= j <= |slots| ==> At(slots, j) != y;
    forall j ensures LinkedAt(m', v, j) {
      assert LinkedAt(m, slots, j);
      if 1 <= j <= |slots| {
        ReplaceAt(m, m', root, slots, k, y, j);
      }
    }
  }

  lemma ReplaceAt(m: Mem, m': Mem, root: Ptr, slots: seq<Ptr>, k: int, y: Ptr, j: int)
    requires NULL !in slots && NoDuplicates(slots) && LinkedAt(m, slots, j) && 1 <= j <= |slots|
    requires 1 <= k <= |slots| && y != NULL && y in m && y !in slots && NULL !in m
    requires m'.Keys == m.Keys && forall q :: q in m && q != slots[k - 1] ==> m'[q] == Replaced(m, slots, k, y, q)
    ensures LinkedAt(m', slots[k - 1 := y], j)
  {
  }

  lemma ReplaceOrder(m: Mem, m': Mem, slots: seq<Ptr>, k: int, y: Ptr)
    requires Ordered(m, slots) && Held(m, slots) && SameKeys(m, m') && 1 <= k <= |slots| && y in m
    ensures OrderedBut(m', slots[k - 1 := y], k)
  {
    var v := slots[k - 1 := y];
    forall i | i != k && i / 2 != k ensures NotBefore(m', v, i) {
      assert NotBefore(m, slots, i);
    }
    forall i ensures Grandparent(m', v, k, i) {
      assert NotBefore(m, slots, i) && NotBefore(m, slots, k);
    }
  }

  lemma OrderKept(m: Mem, m': Mem, slots: seq<Ptr>)
    requires Ordered(m, slots) && Held(m, slots) && forall q :: q in slots ==> q in m' && m'[q] == m[q]
    ensures Ordered(m', slots)
  {
    forall i ensures NotBefore(m', slots, i) {
      assert NotBefore(m, slots, i);
      assert 2 <= i <= |slots| ==> slots[i - 1] in slots && slots[i / 2 - 1] in slots;
    }
  }

  lemma OrderedFrame(m: Mem, m': Mem, slots: seq<Ptr>, n: nat)
    requires Ordered(m, slots) && Held(m, slots) && SameKeys(m, m') && n <= |slots|
    ensures Ordered(m', slots[..n])
  {
    forall i ensures NotBefore(m', slots[..n], i) {
      assert NotBefore(m, slots, i);
    }
  }

  /** A node smaller than both children leaves only its parent to compare with. */
  lemma DownDone(m: Mem, slots: seq<Ptr>, k: int)
    requires 1 <= k <= |slots| && Held(m, slots) && OrderedBut(m, slots, k)
    requires 2 * k <= |slots| ==> KeyAt(m, slots, k) <= KeyAt(m, slots, 2 * k)
    requires 2 * k + 1 <= |slots| ==> KeyAt(m, slots, k) <= KeyAt(m, slots, 2 * k + 1)
    ensures OrderedUp(m, slots, k)
  {
  }

  lemma UpDone(m: Mem, slots: seq<Ptr>, k: int)
    requires 1 <= k <= |slots| && Held(m, slots) && OrderedUp(m, slots, k)
    requires k == 1 || KeyAt(m, slots, k / 2) <= KeyAt(m, slots, k)
    ensures Ordered(m, slots)
  {
  }

  lemma AppendOrder(m: Mem, m': Mem, slots: seq<Ptr>, node: Ptr)
    requires Ordered(m, slots) && Held(m, slots) && SameKeys(m, m') && node in m
    ensures OrderedUp(m', slots + [node], |slots| + 1)
  {
    var v := slots + [node];
    forall i | i != |v| ensures NotBefore(m', v, i) {
      assert NotBefore(m, slots, i);
    }
  }
}

module PointerHeap {
  import opened Common
  import opened HeapShape

  /** Where `n` turns lead from position `q`, taking the low bits of `path` first. */
  function Descend(q: int, path: int, n: nat): int
    requires 0 <= path
    decreases n
  {
    if n == 0 then q else Descend(2 * q + path % 2, path / 2, n - 1)
  }

  lemma {:induction false} DescendGrows(q: int, path: int, n: nat)
    requires 0 <= path && 1 <= q
    ensures Descend(q, path, n) >= q && (n >= 1 ==> Descend(q, path, n) >= 2 * q)
    decreases n
  {
    if n > 0 {
      DescendGrows(2 * q + path % 2, path / 2, n - 1);
    }
  }

  class Heap {
    var root: Ptr
    var nelts: nat
    var mem: Mem
    ghost var slots: seq<Ptr>

    constructor ()
      ensures Valid() && slots == []
    {
      root, nelts, mem, slots := NULL, 0, map[], [];
    }

    /** A new key for a node outside the heap; a node just allocated has its links zeroed. */
    method Embed(node: Ptr, key: int, zeroed: bool)
      requires Valid() && node != NULL && node !in slots && (zeroed || node in mem)
      modifies this`mem
      ensures Valid() && mem == old(mem)[node := if zeroed then Cell(NULL, NULL, NULL, key) else old(mem)[node].(key := key)]
    {
      ghost var m := mem;
      mem := mem[node := if zeroed then Cell(NULL, NULL, NULL, key) else mem[node].(key := key)];
      RepReal(m, root, slots);
      RepFrame(m, mem, root, slots);
      OrderKept(m, mem, slots);
    }

    ghost predicate Shaped()
      reads this
    {
      nelts == |slots| && Rep(mem, root, slots)
    }

    ghost predicate Valid()
      reads this
    {
      Shaped() && Ordered(mem, slots)
    }

    /** The path to slot `n`: its bits below the highest, in the order they are taken. */
    method PathTo(n: nat) returns (path: int, d: nat)
      requires n >= 1
      ensures 0 <= path && Descend(1, path, d) == n && (d == 0 <==> n == 1) && (d == 0 ==> path == 0)
    {
      path, d := 0, 0;
      var m := n;
      while m >= 2
        invariant 0 <= path && 1 <= m <= n && Descend(m, path, d) == n
        invariant (d == 0 <==> m == n) && (d == 0 ==> path == 0)
        decreases m
      {
        path := 2 * path + m % 2;
        d := d + 1;
        m := m / 2;
      }
    }

    /** Follow the path to the parent of slot `n`; the last turn is left over. */
    method ParentOf(n: nat) returns (parent: Ptr, right: bool)
      requires n >= 1 && n <= |slots| + 1 && Rep(mem, root, slots)
      ensures n >= 2 ==> parent == At(slots, n / 2) && (right <==> n % 2 == 1)
      ensures n == 1 ==> parent == root && !right
    {
      var path, d := PathTo(n);
      parent := root;
      ghost var q := 1;
      while d > 1
        invariant 0 <= path && 1 <= q && Descend(q, path, d) == n && parent == At(slots, q)
        invariant (d == 0 <==> n == 1) && (d == 0 ==> path == 0 && q == 1)
        decreases d
      {
        DescendGrows(2 * q + path % 2, path / 2, d - 1);
        assert LinkedAt(mem, slots, q);
        parent := if path % 2 == 1 then mem[parent].right else mem[parent].left;
        q := 2 * q + path % 2;
        d := d - 1;
        path := path / 2;
      }
      right := path % 2 == 1;
      assert d == 1 ==> Descend(q, path, 1) == 2 * q + path % 2;
    }

    /** Rise while smaller than the parent. */
    method SiftUp(node: Ptr, ghost k0: int, ghost out: set<Ptr>)
      requires Off(out, slots) && Shaped() && 1 <= k0 <= |slots| && node == At(slots, k0) && OrderedUp(mem, slots, k0)
      modifies this`root, this`mem, this`slots
      ensures Valid() && multiset(slots) == multiset(old(slots)) && SameKeys(old(mem), mem) && Spared(old(mem), mem, out)
    {
      ghost var k := k0;
      RepReal(mem, root, slots);
      assert LinkedAt(mem, slots, k);
      while mem[node].parent != NULL && mem[node].key < mem[mem[node].parent].key
        invariant Shaped() && 1 <= k <= |slots| && node == At(slots, k) && OrderedUp(mem, slots, k)
        invariant Held(mem, slots) && LinkedAt(mem, slots, k) && (k == 1 <==> mem[node].parent == NULL)
        invariant multiset(slots) == multiset(old(slots)) && SameKeys(old(mem), mem)
        invariant Off(out, slots) && Spared(old(mem), mem, out)
        decreases k
      {
        ghost var m, v := mem, slots;
        SwappedKeeps(v, k / 2, k);
        Swap(mem[node].parent, node, k, out);
        UpStep(m, mem, v, k);
        k := k / 2;
        RepReal(mem, root, slots);
        assert LinkedAt(mem, slots, k);
      }
      UpDone(mem, slots, k);
    }

    /** `heap_insert`: the new node takes the next slot and rises. */
    method Insert(node: Ptr)
      requires Valid() && node in mem && node !in slots && mem[node].left == NULL && mem[node].right == NULL
      modifies this
      ensures Valid() && multiset(slots) == multiset(old(slots)) + multiset{node} && SameKeys(old(mem), mem)
      ensures Spared(old(mem), mem, Outside(old(mem), old(slots)) - {node})
    {
      ghost var m, v := mem, slots;
      nelts := nelts + 1;
      var parent, right := ParentOf(nelts);
      RepReal(m, root, slots);
      assert LinkedAt(m, slots, nelts / 2);
      Hook(node, parent, right);
      AppendRep(m, mem, old(root), root, v, node);
      AppendOrder(m, mem, v, node);
      slots := slots + [node];
      SiftUp(node, |slots|, Outside(m, slots));
    }

    /** Hang the node below its parent, or make it the root. */
    method Hook(node: Ptr, parent: Ptr, right: bool)
      requires node in mem && NULL !in mem && node != parent && (parent != NULL ==> parent in mem)
      modifies this`root, this`mem
      ensures SameKeys(old(mem), mem) && mem[node] == old(mem)[node].(parent := parent)
      ensures forall q :: q in mem && q != node ==>
                mem[q] == if q != parent then old(mem)[q] else if right then old(mem)[q].(right := node) else old(mem)[q].(left := node)
      ensures root == if parent == NULL then node else old(root)
    {
      mem := mem[node := mem[node].(parent := parent)];
      if parent == NULL {
        root := node;
      } else if right {
        mem := mem[parent := mem[parent].(right := node)];
      } else {
        mem := mem[parent := mem[parent].(left := node)];
      }
    }

    /** `heap_remove`: the last node takes the place of `node`, then sinks or rises. */
    method Remove(node: Ptr)
      requires Valid() && (slots == [] || node in slots)
      modifies this
      ensures Valid() && multiset(slots) == multiset(old(slots)) - multiset{node} && SameKeys(old(mem), mem)
      ensures Spared(old(mem), mem, Outside(old(mem), old(slots)))
      ensures node in old(slots) ==> node in mem && mem[node].parent == NULL && mem[node].left == NULL && mem[node].right == NULL
    {
      if nelts == 0 {
        return;
      }
      ghost var m, v := mem, slots;
      RepReal(m, root, v);
      var last := DetachLast();
      if last == NULL {
        assert LinkedAt(m, v, 1);
        if root == node {
          root := NULL;
        }
        slots := [];
        return;
      }
      TakeOver(node, last, m, v, Outside(m, v));
    }

    /** Unhook the last slot's node from its parent, null when the root is the only node. */
    method DetachLast() returns (last: Ptr)
      requires Shaped() && nelts > 0
      modifies this`nelts, this`mem, this`slots
      ensures nelts == old(nelts) - 1 && SameKeys(old(mem), mem) && Rep(mem, root, slots)
      ensures nelts == 0 ==> last == NULL && mem == old(mem) && slots == old(slots)
      ensures nelts > 0 ==> last != NULL && last == old(slots)[nelts] && slots == old(slots)[..nelts]
      ensures nelts > 0 ==> last in old(mem) && last in mem && mem[last] == old(mem)[last]
      ensures nelts > 0 ==> mem[last].left == NULL && mem[last].right == NULL && mem[last].parent == At(slots, old(nelts) / 2)
      ensures nelts > 0 ==> last !in slots && mem[last].parent in mem && mem[last].parent in slots
                            && mem[mem[last].parent].left != last && mem[mem[last].parent].right != last
      ensures Spared(old(mem), mem, Outside(old(mem), old(slots)))
    {
      ghost var m, v := mem, slots;
      RepReal(m, root, v);
      var parent, right := ParentOf(nelts);
      assert LinkedAt(m, v, nelts / 2) && LinkedAt(m, v, nelts) && LinkedAt(m, v, 1);
      nelts := nelts - 1;
      if right {
        last := mem[parent].right;
        mem := mem[parent := mem[parent].(right := NULL)];
      } else {
        last := mem[parent].left;
        mem := mem[parent := mem[parent].(left := NULL)];
      }
      if nelts > 0 {
        DetachRep(m, mem, root, v);
        slots := v[..nelts];
      } else {
        assert mem == m;
      }
    }

    /** The rest of `heap_remove`, once `last` is unhooked. */
    method TakeOver(node: Ptr, last: Ptr, ghost m: Mem, ghost v: seq<Ptr>, ghost out: set<Ptr>)
      requires Off(out, v)
      requires |v| >= 2 && node in v && last == v[|v| - 1] && slots == v[..|v| - 1] && Ordered(m, v) && Held(m, v)
      requires Shaped() && SameKeys(m, mem) && last in mem && last != NULL && last !in slots
      requires mem[last].left == NULL && mem[last].right == NULL && mem[last].parent in slots && mem[last].parent in mem
               && mem[mem[last].parent].left != last && mem[mem[last].parent].right != last
      modifies this
      ensures Valid() && multiset(slots) == multiset(v) - multiset{node} && SameKeys(m, mem)
      ensures Spared(old(mem), mem, out)
      ensures node in mem && mem[node].parent == NULL && mem[node].left == NULL && mem[node].right == NULL
    {
      ghost var m1, low := mem, slots;
      OrderedFrame(m, m1, v, |v| - 1);
      assert v == low + [last];
      RepReal(m1, root, low);
      ghost var k := if node == last then 0 else PositionOf(low, node);
      Supplant(node, last, k, out);
      if node == last {
        // Both sifts stop before their first step: the node compares with nothing.
        assert mem[last].left == NULL && mem[last].right == NULL && mem[last].parent == NULL;
        OrderedFrame(m1, mem, low, |low|);
        assert slots == low[..|low|];
        return;
      }
      ReplaceDone(m1, mem, low, k, last);
      SiftDown(last, k, out + {node});
    }

    /** Put `r` in the place of `s` and clear the links of `s`. */
    method Supplant(s: Ptr, r: Ptr, ghost k: int, ghost out: set<Ptr>)
      requires Off(out, slots) && s !in out && r !in out
      requires Shaped() && s in mem && r in mem && r != NULL && r !in slots
      requires if s == r then
                 mem[r].left == NULL && mem[r].right == NULL && mem[r].parent in mem && mem[r].parent in slots
                 && mem[mem[r].parent].left != r && mem[mem[r].parent].right != r
               else 1 <= k <= |slots| && s == slots[k - 1]
      modifies this`root, this`mem, this`slots
      ensures Shaped() && SameKeys(old(mem), mem)
      ensures slots == if s == r then old(slots) else old(slots)[k - 1 := r]
      ensures Off(out + {s}, slots) && Spared(old(mem), mem, out)
      ensures s in mem && mem[s].parent == NULL && mem[s].left == NULL && mem[s].right == NULL
    {
      Replace(s, r, k, out);
      ClearLinks(s);
    }

    method ClearLinks(node: Ptr)
      requires Shaped() && node in mem && node !in slots
      modifies this`mem
      ensures Shaped() && SameKeys(old(mem), mem) && forall q :: q in old(mem) && q != node ==> mem[q] == old(mem)[q]
      ensures node in mem && mem[node].parent == NULL && mem[node].left == NULL && mem[node].right == NULL
    {
      ghost var m := mem;
      mem := mem[node := mem[node].(parent := NULL, left := NULL, right := NULL)];
      RepFrame(m, mem, root, slots);
    }

    /** `heap_replace`: `r` takes the place of `s`, which may be `r` itself, already unhooked. */
    method Replace(s: Ptr, r: Ptr, ghost k: int, ghost out: set<Ptr>)
      requires Off(out, slots) && s !in out && r !in out
      requires Shaped() && r in mem && r != NULL && r !in slots
      requires if s == r then
                 mem[r].left == NULL && mem[r].right == NULL && mem[r].parent in mem && mem[r].parent in slots
                 && mem[mem[r].parent].left != r && mem[mem[r].parent].right != r
               else 1 <= k <= |slots| && s == slots[k - 1]
      modifies this`root, this`mem, this`slots
      ensures Shaped() && SameKeys(old(mem), mem)
      ensures slots == if s == r then old(slots) else old(slots)[k - 1 := r]
      ensures s !in slots && Off(out, slots) && Spared(old(mem), mem, out)
    {
      ghost var m, v := mem, slots;
      ReplaceReady(m, root, v, s, r, k);
      ReplaceLinks(s, r);
      if s == r {
        assert mem == m;
      } else {
        forall q | q in m && q != s ensures mem[q] == Replaced(m, v, k, r, q) {
          HookedReplaced(m, v, k, r, q);
        }
        ReplaceRep(m, mem, old(root), root, v, k, r);
        slots := v[k - 1 := r];
      }
    }

    method ReplaceLinks(s: Ptr, r: Ptr)
      requires HookReady(mem, s, r)
      modifies this`root, this`mem
      ensures SameKeys(old(mem), mem) && forall q :: q in mem ==> mem[q] == Hooked(old(mem), s, r, q)
      ensures root == if old(mem)[s].parent == NULL then r else old(root)
    {
      ghost var m := mem;
      ReplaceAbove(s, r);
      ghost var m1 := mem;
      ReplaceBelow(s, r);
      forall q | q in m ensures mem[q] == Hooked(m, s, r, q) && mem[q].key == m[q].key {
        HookedCompose(m, m1, mem, s, r, q);
      }
    }

    /** The children follow, and `r` copies the links of `s`. */
    method ReplaceBelow(s: Ptr, r: Ptr)
      requires HookReady(mem, s, r)
      modifies this`mem
      ensures mem.Keys == old(mem).Keys && forall q :: q in mem ==> mem[q] == HookedBelow(old(mem), s, r, q)
    {
      if mem[s].left != NULL {
        mem := mem[mem[s].left := mem[mem[s].left].(parent := r)];
      }
      if mem[s].right != NULL {
        mem := mem[mem[s].right := mem[mem[s].right].(parent := r)];
      }
      mem := mem[r := mem[r].(parent := mem[s].parent, left := mem[s].left, right := mem[s].right)];
    }

    /** The link from above now leads to `r`. */
    method ReplaceAbove(s: Ptr, r: Ptr)
      requires HookReady(mem, s, r)
      modifies this`root, this`mem
      ensures mem.Keys == old(mem).Keys && mem[s] == old(mem)[s] && HookReady(mem, s, r)
      ensures forall q :: q in mem ==> mem[q] == HookedAbove(old(mem), s, r, q)
      ensures root == if old(mem)[s].parent == NULL then r else old(root)
    {
      if mem[s].parent == NULL {
        root := r;
      } else if mem[mem[s].parent].left == s {
        mem := mem[mem[s].parent := mem[mem[s].parent].(left := r)];
      } else if mem[mem[s].parent].right == s {
        mem := mem[mem[s].parent := mem[mem[s].parent].(right := r)];
      }
    }

    /** Sink below every smaller child; a tie goes to the later child. */
    method SiftDown(node: Ptr, ghost k0: int, ghost out: set<Ptr>)
      requires Off(out, slots) && Shaped() && 1 <= k0 <= |slots| && node == At(slots, k0) && OrderedBut(mem, slots, k0)
      modifies this`root, this`mem, this`slots
      ensures Valid() && multiset(slots) == multiset(old(slots)) && SameKeys(old(mem), mem) && Spared(old(mem), mem, out)
    {
      ghost var k := k0;
      while true
        invariant Shaped() && 1 <= k <= |slots| && node == At(slots, k) && OrderedBut(mem, slots, k)
        invariant multiset(slots) == multiset(old(slots)) && SameKeys(old(mem), mem)
        invariant Off(out, slots) && Spared(old(mem), mem, out)
        decreases |slots| - k
      {
        var est, c := Earliest(node, k);
        if est == node {
          break;
        }
        SinkBelow(node, est, k, c, out);
        k := c;
      }
      SiftUp(node, k, out);
    }

    method SinkBelow(node: Ptr, est: Ptr, ghost k: int, ghost c: int, ghost out: set<Ptr>)
      requires Off(out, slots) && Shaped() && Held(mem, slots) && OrderedBut(mem, slots, k)
      requires 1 <= k < c <= |slots| && c in {2 * k, 2 * k + 1} && node == At(slots, k) && est == At(slots, c)
      requires forall i :: i in {k, 2 * k, 2 * k + 1} && i <= |slots| ==> KeyAt(mem, slots, c) <= KeyAt(mem, slots, i)
      modifies this`root, this`mem, this`slots
      ensures Off(out, slots) && Shaped() && |slots| == |old(slots)| && node == At(slots, c) && OrderedBut(mem, slots, c)
      ensures multiset(slots) == multiset(old(slots)) && SameKeys(old(mem), mem) && Spared(old(mem), mem, out)
    {
      ghost var m, v := mem, slots;
      SwappedKeeps(v, k, c);
      Swap(node, est, c, out);
      DownStep(m, mem, v, k, c);
    }

    /** The node or the child of it that `compare` puts first, with its position. */
    method Earliest(node: Ptr, ghost k: int) returns (est: Ptr, ghost c: int)
      requires Shaped() && 1 <= k <= |slots| && node == At(slots, k)
      ensures 1 <= c <= |slots| && est == At(slots, c) && Held(mem, slots) && c in {k, 2 * k, 2 * k + 1} && (est == node <==> c == k)
      ensures forall i :: i in {k, 2 * k, 2 * k + 1} && i <= |slots| ==> KeyAt(mem, slots, c) <= KeyAt(mem, slots, i)
      ensures node in mem && est in {node, mem[node].left, mem[node].right} && est in mem
      ensures forall q :: q in {node, mem[node].left, mem[node].right} && q in mem ==> mem[est].key <= mem[q].key
    {
      RepReal(mem, root, slots);
      assert LinkedAt(mem, slots, k) && LinkedAt(mem, slots, 2 * k) && LinkedAt(mem, slots, 2 * k + 1);
      est, c := node, k;
      if mem[node].left != NULL && mem[est].key >= mem[mem[node].left].key {
        est, c := mem[node].left, 2 * k;
      }
      if mem[node].right != NULL && mem[est].key >= mem[mem[node].right].key {
        est, c := mem[node].right, 2 * k + 1;
      }
      AtUnique(slots, k, c);
    }

    /** `heap_dequeue`: remove the root. */
    method Dequeue()
      requires Valid()
      modifies this
      ensures Valid() && SameKeys(old(mem), mem)
      ensures old(slots) == [] ==> slots == []
      ensures old(slots) != [] ==> multiset(slots) == multiset(old(slots)) - multiset{old(root)}
      ensures forall q :: q in old(slots) ==> old(root) in mem && q in mem && mem[old(root)].key <= mem[q].key
    {
      RepReal(mem, root, slots);
      RootFirst(mem, root, slots);
      Remove(root);
    }

    /** `heap_swap`: the node at position `c` and its parent trade places. */
    method Swap(parent: Ptr, child: Ptr, ghost c: int, ghost out: set<Ptr>)
      requires Off(out, slots) && Shaped() && 2 <= c <= |slots| && child == At(slots, c) && parent == At(slots, c / 2)
      modifies this`root, this`mem, this`slots
      ensures Shaped() && slots == Swapped(old(slots), c / 2, c) && SameKeys(old(mem), mem)
      ensures Off(out, slots) && Spared(old(mem), mem, out)
    {
      ghost var m, f := mem, FamilyAt(slots, c);
      FamilyReal(m, root, slots, c);
      SwapLinks(parent, child, f);
      SwapRep(m, mem, old(root), root, slots, c);
      SwapSpares(m, mem, slots, c, out);
      slots := Swapped(slots, c / 2, c);
    }

    method SwapLinks(parent: Ptr, child: Ptr, ghost f: Family)
      requires NULL !in mem && f.Apart() && Related(mem, f) && f.x == child && f.y == parent
      modifies this`root, this`mem
      ensures SwapWritten(old(mem), mem, f) && SameKeys(old(mem), mem)
      ensures root == if f.pp == NULL then child else old(root)
    {
      var lchild := mem[child].left;
      var rchild := mem[child].right;
      ghost var m := mem;
      SwapAbove(parent, child, f);
      ghost var m1 := mem;
      SwapBelow(parent, lchild, rchild, f);
      ghost var m2 := mem;
      SwapBetween(parent, child, lchild, rchild, f);
      SwapCompose(m, m1, m2, mem, f);
    }

    /** The link from above, and the child's parent. */
    method SwapAbove(parent: Ptr, child: Ptr, ghost f: Family)
      requires NULL !in mem && f.Apart() && f.x == child && f.y == parent && child in mem && parent in mem && mem[parent].parent == f.pp
      requires f.pp != NULL ==> f.pp in mem && (if f.yl then mem[f.pp].left else mem[f.pp].right) == f.y
                                && (if f.yl then mem[f.pp].right else mem[f.pp].left) != f.y
      modifies this`root, this`mem
      ensures mem.Keys == old(mem).Keys && forall q :: q in mem ==> mem[q] == AboveCell(old(mem), f, q)
      ensures root == if f.pp == NULL then child else old(root)
    {
      var pparent := mem[parent].parent;
      if pparent == NULL {
        root := child;
      } else if mem[pparent].left == parent {
        mem := mem[pparent := mem[pparent].(left := child)];
      } else if mem[pparent].right == parent {
        mem := mem[pparent := mem[pparent].(right := child)];
      }
      mem := mem[child := mem[child].(parent := pparent)];
    }

    /** The child's children get the old parent. */
    method SwapBelow(parent: Ptr, lchild: Ptr, rchild: Ptr, ghost f: Family)
      requires NULL !in mem && f.y == parent && f.l == lchild && f.r == rchild
      requires (lchild != NULL ==> lchild in mem) && (rchild != NULL ==> rchild in mem)
      modifies this`mem
      ensures mem.Keys == old(mem).Keys && forall q :: q in mem ==> mem[q] == BelowCell(old(mem), f, q)
    {
      if lchild != NULL {
        mem := mem[lchild := mem[lchild].(parent := parent)];
      }
      if rchild != NULL {
        mem := mem[rchild := mem[rchild].(parent := parent)];
      }
    }

    /** The links among parent, child and sibling. */
    method SwapBetween(parent: Ptr, child: Ptr, lchild: Ptr, rchild: Ptr, ghost f: Family)
      requires NULL !in mem && f.Apart() && f.x == child && f.y == parent && f.l == lchild && f.r == rchild
      requires child in mem && parent in mem && (f.s != NULL ==> f.s in mem)
      requires mem[parent].left == (if f.xl then f.x else f.s) && mem[parent].right == (if f.xl then f.s else f.x)
      modifies this`mem
      ensures mem.Keys == old(mem).Keys && forall q :: q in mem ==> mem[q] == BetweenCell(old(mem), f, q)
    {
      var sibling;
      if mem[parent].left == child {
        sibling := mem[parent].right;
        mem := mem[child := mem[child].(left := parent)];
        mem := mem[child := mem[child].(right := sibling)];
      } else {
        sibling := mem[parent].left;
        mem := mem[child := mem[child].(left := sibling)];
        mem := mem[child := mem[child].(right := parent)];
      }
      if sibling != NULL {
        mem := mem[sibling := mem[sibling].(parent := child)];
      }
      mem := mem[parent := mem[parent].(parent := child)];
      mem := mem[parent := mem[parent].(left := lchild)];
      mem := mem[parent := mem[parent].(right := rchild)];
    }
  }

  ghost predicate HookReady(m: Mem, s: Ptr, r: Ptr) {
    && NULL !in m && s in m && r in m
    && var c := m[s];
       && (c.parent != NULL ==> c.parent in m && c.parent !in {s, r, c.left, c.right})
       && (c.left != NULL ==> c.left in m && c.left !in {s, r})
       && (c.right != NULL ==> c.right in m && c.right !in {s, r})
  }

  function HookedAbove(m: Mem, s: Ptr, r: Ptr, q: Ptr): Cell
    requires s in m && q in m
  {
    var e, c := m[q], m[s];
    if q != c.parent then e
    else if e.left == s then e.(left := r)
    else if e.right == s then e.(right := r)
    else e
  }

  function HookedBelow(m: Mem, s: Ptr, r: Ptr, q: Ptr): Cell
    requires s in m && q in m
  {
    var e, c := m[q], m[s];
    if q == r then Cell(c.parent, c.left, c.right, e.key)
    else if q == c.left || q == c.right then e.(parent := r)
    else e
  }

  lemma HookedCompose(m: Mem, m1: Mem, m2: Mem, s: Ptr, r: Ptr, q: Ptr)
    requires HookReady(m, s, r) && q in m && m1.Keys == m.Keys && m2.Keys == m.Keys && m1[s] == m[s]
    requires m1[q] == HookedAbove(m, s, r, q) && m2[q] == HookedBelow(m1, s, r, q)
    ensures m2[q] == Hooked(m, s, r, q) && m2[q].key == m[q].key
  {
  }

  /** Every cell once `r` has the links of `s`. */
  function Hooked(m: Mem, s: Ptr, r: Ptr, q: Ptr): Cell
    requires s in m && q in m
  {
    var e, c := m[q], m[s];
    if q == r then Cell(c.parent, c.left, c.right, e.key)
    else Cell(if q == c.left || q == c.right then r else e.parent,
              if q == c.parent && e.left == s then r else e.left,
              if q == c.parent && e.left != s && e.right == s then r else e.right, e.key)
  }

  lemma ReplaceReady(m: Mem, root: Ptr, slots: seq<Ptr>, s: Ptr, r: Ptr, k: int)
    requires Rep(m, root, slots) && r in m && r != NULL && r !in slots
    requires if s == r then m[r].left == NULL && m[r].right == NULL && m[r].parent in m && m[r].parent in slots
             else 1 <= k <= |slots| && s == slots[k - 1]
    ensures HookReady(m, s, r)
    ensures s != r ==> LinkedAt(m, slots, k) && LinkedAt(m, slots, k / 2) && NoDuplicates(slots) && NULL !in slots
    ensures s != r ==> (m[s].parent == NULL <==> k == 1)
  {
    RepReal(m, root, slots);
    if s != r {
      assert LinkedAt(m, slots, k) && LinkedAt(m, slots, k / 2);
      AtUnique(slots, k, 2 * k);
      AtUnique(slots, k, 2 * k + 1);
      if k > 1 {
        AtUnique(slots, k / 2, k);
        AtUnique(slots, k / 2, 2 * k);
        AtUnique(slots, k / 2, 2 * k + 1);
      }
    }
  }

  lemma HookedReplaced(m: Mem, slots: seq<Ptr>, k: int, r: Ptr, q: Ptr)
    requires NoDuplicates(slots) && NULL !in slots && NULL !in m && 1 <= k <= |slots| && q in m && q != slots[k - 1]
    requires LinkedAt(m, slots, k) && LinkedAt(m, slots, k / 2)
    ensures Hooked(m, slots[k - 1], r, q) == Replaced(m, slots, k, r, q)
  {
  }

  function AboveCell(m: Mem, f: Family, q: Ptr): Cell
    requires q in m
  {
    if q == f.pp then (if f.yl then m[q].(left := f.x) else m[q].(right := f.x))
    else if q == f.x then m[q].(parent := f.pp)
    else m[q]
  }

  function BelowCell(m: Mem, f: Family, q: Ptr): Cell
    requires q in m
  {
    if q == f.l || q == f.r then m[q].(parent := f.y) else m[q]
  }

  function BetweenCell(m: Mem, f: Family, q: Ptr): Cell
    requires q in m
  {
    if q == f.x then m[q].(left := if f.xl then f.y else f.s, right := if f.xl then f.s else f.y)
    else if q == f.s then m[q].(parent := f.x)
    else if q == f.y then m[q].(parent := f.x, left := f.l, right := f.r)
    else m[q]
  }

  /** The family's links before the swap. */
  ghost predicate Related(m: Mem, f: Family) {
    && f.x in m && f.y in m
    && (f.pp != NULL ==> f.pp in m && (if f.yl then m[f.pp].left else m[f.pp].right) == f.y
                         && (if f.yl then m[f.pp].right else m[f.pp].left) != f.y)
    && (f.l != NULL ==> f.l in m) && (f.r != NULL ==> f.r in m) && (f.s != NULL ==> f.s in m)
    && m[f.x].parent == f.y && m[f.x].left == f.l && m[f.x].right == f.r
    && m[f.y].parent == f.pp
    && m[f.y].left == (if f.xl then f.x else f.s) && m[f.y].right == (if f.xl then f.s else f.x)
  }

  lemma FamilyReal(m: Mem, root: Ptr, slots: seq<Ptr>, c: int)
    requires Rep(m, root, slots) && 2 <= c <= |slots|
    ensures var f := FamilyAt(slots, c);
            f.Apart() && Related(m, f) && (f.pp == NULL <==> c / 2 == 1)
  {
    var p := c / 2;
    RepReal(m, root, slots);
    FamilyApart(slots, c);
    assert LinkedAt(m, slots, c) && LinkedAt(m, slots, p) && LinkedAt(m, slots, p / 2);
    AtUnique(slots, p, Other(p));
  }

  lemma SwapCompose(m: Mem, m1: Mem, m2: Mem, m3: Mem, f: Family)
    requires f.Apart() && Related(m, f) && NULL !in m && m1.Keys == m.Keys && m2.Keys == m.Keys && m3.Keys == m.Keys
    requires forall q :: q in m ==> m1[q] == AboveCell(m, f, q)
    requires forall q :: q in m ==> m2[q] == BelowCell(m1, f, q)
    requires forall q :: q in m ==> m3[q] == BetweenCell(m2, f, q)
    ensures SwapWritten(m, m3, f) && SameKeys(m, m3)
  {
    forall q | q in m ensures m3[q] == Traded(m, f, q) && m3[q].key == m[q].key {
      SwapComposeAt(m, m1, m2, m3, f, q);
    }
  }

  lemma SwapComposeAt(m: Mem, m1: Mem, m2: Mem, m3: Mem, f: Family, q: Ptr)
    requires f.Apart() && Related(m, f) && NULL !in m && q in m && q in m1 && q in m2 && q in m3
    requires m1[q] == AboveCell(m, f, q) && m2[q] == BelowCell(m1, f, q) && m3[q] == BetweenCell(m2, f, q)
    ensures m3[q] == Traded(m, f, q) && m3[q].key == m[q].key
  {
  }
}
