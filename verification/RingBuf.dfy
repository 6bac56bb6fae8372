/**
 libhv's ring allocator. It hands out contiguous blocks of one buffer and takes them back oldest
 first, told only their lengths: where it skipped the end of the buffer is not recorded, but found
 again from the length of the block that did not fit there.
 */
module RingSpec {
  import opened Common

  datatype Block = Block(start: nat, len: nat) {
    function End(): nat { start + len }
  }

  datatype Ring = Ring(cap: nat, head: nat, tail: nat, size: nat)

  predicate Apart(a: Block, b: Block) {
    a.End() <= b.start || b.End() <= a.start
  }

  /** The end of the blocks before `i`, when the stretch that holds them starts at block `j` and address `from`. */
  function EndBefore(bs: seq<Block>, i: int, j: int, from: nat): nat
    requires 0 <= j <= i <= |bs|
  {
    if i == j then from else bs[i - 1].End()
  }

  predicate Stands(bs: seq<Block>, i: int, j: int, from: nat) {
    0 <= j <= i < |bs| ==> bs[i].start == EndBefore(bs, i, j, from)
  }

  /** Blocks `j` to `n` stand side by side from an address up. */
  ghost predicate Stretch(bs: seq<Block>, j: int, n: int, from: nat) {
    && 0 <= j <= n <= |bs|
    && forall i {:trigger Stands(bs, i, j, from)} :: j <= i < n ==> Stands(bs, i, j, from)
  }

  /**
   Oldest first, the first `k` blocks stand side by side from the head up and the others from
   address 0. The first of the others did not fit between the last of the former and the end.
   */
  ghost predicate Layout(r: Ring, bs: seq<Block>, k: nat) {
    && k <= |bs| && r.head < r.cap
    && Stretch(bs, 0, k, r.head) && (k > 0 ==> bs[k - 1].start < r.cap) && Stretch(bs, k, |bs|, 0)
    && Bounds(r, bs, k, EndBefore(bs, k, 0, r.head), EndBefore(bs, |bs|, k, 0))
  }

  predicate Bounds(r: Ring, bs: seq<Block>, k: nat, high: nat, low: nat)
    requires k <= |bs|
  {
    && r.head <= high <= r.cap && low <= r.head && r.size == high - r.head + low
    && if k == |bs| then r.tail == if high == r.cap then 0 else high
       else r.tail == low && (high == r.cap || bs[k].len > r.cap - high)
  }

  function Total(bs: seq<Block>): nat {
    if bs == [] then 0 else Total(bs[..|bs| - 1]) + bs[|bs| - 1].len
  }

  // ---------- Stretches ----------

  lemma StretchPush(bs: seq<Block>, j: int, n: int, from: nat, b: Block)
    requires Stretch(bs, j, n, from)
    ensures Stretch(bs + [b], j, n, from) && EndBefore(bs + [b], n, j, from) == EndBefore(bs, n, j, from)
    ensures n == |bs| && b.start == EndBefore(bs, n, j, from) ==> Stretch(bs + [b], j, n + 1, from)
  {
    forall i | j <= i < n ensures Stands(bs + [b], i, j, from) {
      assert Stands(bs, i, j, from);
    }
  }

  lemma StretchShift(bs: seq<Block>, j: int, n: int, from: nat)
    requires Stretch(bs, j, n, from) && j > 0
    ensures Stretch(bs[1..], j - 1, n - 1, from) && EndBefore(bs[1..], n - 1, j - 1, from) == EndBefore(bs, n, j, from)
  {
    var bs', j' := bs[1..], j - 1;
    forall i | j' <= i < n - 1 ensures Stands(bs', i, j', from) {
      assert Stands(bs, i + 1, j, from);
    }
  }

  lemma StretchPop(bs: seq<Block>, n: int, from: nat)
    requires Stretch(bs, 0, n, from) && n > 0
    ensures Stretch(bs[1..], 0, n - 1, bs[0].End())
    ensures EndBefore(bs[1..], n - 1, 0, bs[0].End()) == EndBefore(bs, n, 0, from)
  {
    var bs', end := bs[1..], bs[0].End();
    forall i | 0 <= i < n - 1 ensures Stands(bs', i, 0, end) {
      assert Stands(bs, i + 1, 0, from);
    }
  }

  /** Within a stretch the blocks ascend. */
  lemma {:induction false} Ascending(bs: seq<Block>, j: int, n: int, from: nat, a: int, b: int)
    requires Stretch(bs, j, n, from) && j <= a <= b <= n
    ensures EndBefore(bs, a, j, from) <= EndBefore(bs, b, j, from)
    decreases b - a
  {
    if a < b {
      Ascending(bs, j, n, from, a, b - 1);
      assert Stands(bs, b - 1, j, from);
    }
  }

  // ---------- What a layout means ----------

  lemma LayoutApart(r: Ring, bs: seq<Block>, k: nat, a: int, b: int)
    requires Layout(r, bs, k) && 0 <= a < b < |bs|
    ensures bs[a].End() <= r.cap && bs[b].End() <= r.cap && Apart(bs[a], bs[b])
  {
    LayoutInside(r, bs, k, a);
    LayoutInside(r, bs, k, b);
    if b < k {
      Ascending(bs, 0, k, r.head, a + 1, b);
      assert Stands(bs, b, 0, r.head);
    } else if a >= k {
      Ascending(bs, k, |bs|, 0, a + 1, b);
      assert Stands(bs, b, k, 0);
    }
  }

  lemma LayoutInside(r: Ring, bs: seq<Block>, k: nat, a: int)
    requires Layout(r, bs, k) && 0 <= a < |bs|
    ensures if a < k then r.head <= bs[a].start <= bs[a].End() <= r.cap else bs[a].End() <= r.head
  {
    if a < k {
      Ascending(bs, 0, k, r.head, 0, a);
      Ascending(bs, 0, k, r.head, a + 1, k);
      assert Stands(bs, a, 0, r.head);
    } else {
      Ascending(bs, k, |bs|, 0, a + 1, |bs|);
    }
  }

  lemma {:induction false} SizeIsTotal(r: Ring, bs: seq<Block>, k: nat)
    requires Layout(r, bs, k)
    ensures r.size == Total(bs)
  {
    TotalUpTo(r, bs, k, |bs|);
    assert bs[..|bs|] == bs;
  }

  lemma {:induction false} TotalUpTo(r: Ring, bs: seq<Block>, k: nat, n: int)
    requires Layout(r, bs, k) && 0 <= n <= |bs|
    ensures Total(bs[..n]) == if n <= k then EndBefore(bs, n, 0, r.head) - r.head
                              else EndBefore(bs, k, 0, r.head) - r.head + EndBefore(bs, n, k, 0)
    decreases n
  {
    if n > 0 {
      TotalUpTo(r, bs, k, n - 1);
      assert if n <= k then Stands(bs, n - 1, 0, r.head) else Stands(bs, n - 1, k, 0);
      assert bs[..n][..n - 1] == bs[..n - 1];
    }
  }

  /** Where a block of `len` bytes starts if it is the oldest one. */
  function StartOf(r: Ring, len: nat): nat {
    if r.head <= r.cap && len <= r.cap - r.head then r.head else 0
  }

  lemma OldestFound(r: Ring, bs: seq<Block>, k: nat)
    requires Layout(r, bs, k) && bs != []
    ensures bs[0].start == StartOf(r, bs[0].len)
  {
    LayoutInside(r, bs, k, 0);
    assert Stands(bs, 0, 0, if k > 0 then r.head else 0);
  }

  // ---------- Refusals ----------

  /** Some block covers every address of a stretch. */
  lemma {:induction false} Covered(bs: seq<Block>, j: nat, n: nat, from: nat, x: nat) returns (i: nat)
    requires Stretch(bs, j, n, from)
    requires from <= x < EndBefore(bs, n, j, from)
    ensures j <= i < n && bs[i].start <= x < bs[i].End()
    decreases n
  {
    if x >= bs[n - 1].start {
      i := n - 1;
    } else {
      assert Stands(bs, n - 1, j, from);
      i := Covered(bs, j, n - 1, from, x);
    }
  }

  /** A request could be met somewhere in the buffer, clear of every live block. */
  predicate Free(r: Ring, bs: seq<Block>, at: nat, len: nat) {
    at + len <= r.cap && forall i :: 0 <= i < |bs| ==> Apart(bs[i], Block(at, len))
  }

  ghost predicate Fits(r: Ring, bs: seq<Block>, len: nat) {
    exists at :: Free(r, bs, at, len)
  }

  /** The longest request the ring takes when it has started over at the bottom, and the longest there is room for. */
  function LowRoom(r: Ring): int { r.head - r.tail }

  function GapRoom(r: Ring, bs: seq<Block>, k: nat): int
    requires k <= |bs|
  {
    if k == 0 then r.cap - r.tail else r.cap - EndBefore(bs, k, 0, r.head)
  }

  /** With live blocks in one stretch, a refused request overlaps one of them wherever it is put. */
  lemma InTheWay(r: Ring, bs: seq<Block>, len: nat, at: nat) returns (i: nat)
    requires Layout(r, bs, |bs|) && bs != [] && 0 < len && Alloc(r, len).1.None? && at + len <= r.cap
    ensures i < |bs| && !Apart(bs[i], Block(at, len))
  {
    if r.size == 0 {
      assert Stands(bs, 0, 0, r.head);
      Ascending(bs, 0, |bs|, r.head, 1, |bs|);
      i := 0;
    } else {
      i := Covered(bs, 0, |bs|, r.head, if at >= r.head then at else r.head);
    }
  }

  lemma RefusedWhenFull(r: Ring, bs: seq<Block>, len: nat)
    requires Layout(r, bs, |bs|) && bs != [] && 0 < len && Alloc(r, len).1.None?
    ensures !Fits(r, bs, len)
  {
    forall at: nat | at + len <= r.cap ensures !Free(r, bs, at, len) {
      var i := InTheWay(r, bs, len, at);
    }
  }

  /** Nothing live: the space is all free, but is offered in two parts, above and below the head. */
  lemma RefusedWhenEmpty(r: Ring, len: nat)
    requires Layout(r, [], 0)
    ensures Alloc(r, len).1.None? <==> len > r.cap - r.head && len > r.head
    ensures Fits(r, [], len) <==> len <= r.cap
  {
    assert len <= r.cap ==> Free(r, [], 0, len);
  }

  /** Started over: only the space below the head is offered, the gap at the top is not. */
  lemma RefusedWhenWrapped(r: Ring, bs: seq<Block>, k: nat, len: nat)
    requires Layout(r, bs, k) && k < |bs| && 0 < len
    ensures Alloc(r, len).1.None? <==> len > LowRoom(r)
    ensures Fits(r, bs, len) <==> len <= LowRoom(r) || len <= GapRoom(r, bs, k)
  {
    LowLive(r, bs, k);
    var high := EndBefore(bs, k, 0, r.head);
    var best := if len <= LowRoom(r) || k == 0 then r.tail else high;
    if len <= LowRoom(r) || len <= GapRoom(r, bs, k) {
      forall i | 0 <= i < |bs| ensures Apart(bs[i], Block(best, len)) {
        BelowRooms(r, bs, k, i);
      }
      assert Free(r, bs, best, len);
    } else {
      forall at: nat | at + len <= r.cap ensures !Free(r, bs, at, len) {
        var i := InTheWayWrapped(r, bs, k, at, len);
      }
    }
  }

  /** Live blocks end below the two rooms. */
  lemma BelowRooms(r: Ring, bs: seq<Block>, k: nat, i: int)
    requires Layout(r, bs, k) && k < |bs| && 0 <= i < |bs|
    ensures if i < k then r.head <= bs[i].start && bs[i].End() <= EndBefore(bs, k, 0, r.head) else bs[i].End() <= r.tail
  {
    LayoutInside(r, bs, k, i);
    if i < k {
      Ascending(bs, 0, k, r.head, i + 1, k);
    } else {
      Ascending(bs, k, |bs|, 0, i + 1, |bs|);
    }
  }

  lemma InTheWayWrapped(r: Ring, bs: seq<Block>, k: nat, at: nat, len: nat) returns (i: nat)
    requires Layout(r, bs, k) && k < |bs| && LowRoom(r) < len && GapRoom(r, bs, k) < len && at + len <= r.cap
    ensures i < |bs| && !Apart(bs[i], Block(at, len))
  {
    LowLive(r, bs, k);
    var high := EndBefore(bs, k, 0, r.head);
    if at < r.tail {
      i := Covered(bs, k, |bs|, 0, at);
    } else if high == r.head {
      assert Stands(bs, 0, 0, r.head);
      Ascending(bs, 0, k, r.head, if k > 0 then 1 else 0, k);
      i := 0;
    } else {
      i := Covered(bs, 0, k, r.head, if at >= r.head then at else r.head);
    }
  }

  /** Exactly when a request is refused although there is room for it. */
  lemma RefusedThoughFree(r: Ring, bs: seq<Block>, k: nat, len: nat)
    requires Layout(r, bs, k) && 0 < len
    ensures Alloc(r, len).1.None? && Fits(r, bs, len) <==>
              || (bs == [] && r.head < len && r.cap - r.head < len <= r.cap)
              || (k < |bs| && LowRoom(r) < len <= GapRoom(r, bs, k))
  {
    if bs == [] {
      RefusedWhenEmpty(r, len);
    } else if k < |bs| {
      RefusedWhenWrapped(r, bs, k, len);
    } else if Alloc(r, len).1.None? {
      RefusedWhenFull(r, bs, len);
    }
  }

  // ---------- The operations on values ----------

  /** The allocator's decision, over its three numbers alone. */
  function Alloc(r: Ring, len: nat): (Ring, Option<nat>) {
    if r.head < r.tail || r.size == 0 then
      if r.cap - r.tail >= len then
        (r.(tail := if r.tail + len == r.cap then 0 else r.tail + len, size := r.size + len), Some(r.tail))
      else if r.head >= len then (r.(tail := len, size := r.size + len), Some(0))
      else (r, None)
    else if r.head - r.tail >= len then (r.(tail := r.tail + len, size := r.size + len), Some(r.tail))
    else (r, None)
  }

  lemma AllocKeeps(r: Ring, bs: seq<Block>, k: nat, len: nat) returns (k': nat)
    requires Layout(r, bs, k) && Alloc(r, len).1.Some?
    ensures Layout(Alloc(r, len).0, bs + [Block(Alloc(r, len).1.value, len)], k')
  {
    if k < |bs| {
      k' := k;
      AllocLow(r, bs, k, len);
    } else if Alloc(r, len).1.value == EndBefore(bs, k, 0, r.head) {
      k' := k + 1;
      AllocHigh(r, bs, len);
    } else {
      k' := k;
      AllocWrapped(r, bs, len);
    }
  }

  /** The new block joins the others at the bottom. */
  lemma AllocLow(r: Ring, bs: seq<Block>, k: nat, len: nat)
    requires Layout(r, bs, k) && k < |bs| && Alloc(r, len).1.Some?
    ensures Layout(Alloc(r, len).0, bs + [Block(Alloc(r, len).1.value, len)], k)
  {
    LowLive(r, bs, k);
    var b := Block(r.tail, len);
    StretchPush(bs, 0, k, r.head, b);
    StretchPush(bs, k, |bs|, 0, b);
  }

  /** The new block follows the newest. */
  lemma AllocHigh(r: Ring, bs: seq<Block>, len: nat)
    requires Layout(r, bs, |bs|) && Alloc(r, len).1 == Some(EndBefore(bs, |bs|, 0, r.head))
    ensures Layout(Alloc(r, len).0, bs + [Block(Alloc(r, len).1.value, len)], |bs| + 1)
  {
    StretchPush(bs, 0, |bs|, r.head, Block(Alloc(r, len).1.value, len));
  }

  /** The new block is the first to start over at the bottom. */
  lemma AllocWrapped(r: Ring, bs: seq<Block>, len: nat)
    requires Layout(r, bs, |bs|) && Alloc(r, len).1.Some? && Alloc(r, len).1.value != EndBefore(bs, |bs|, 0, r.head)
    ensures Layout(Alloc(r, len).0, bs + [Block(Alloc(r, len).1.value, len)], |bs|)
  {
    StretchPush(bs, 0, |bs|, r.head, Block(0, len));
  }

  lemma LowLive(r: Ring, bs: seq<Block>, k: nat)
    requires Layout(r, bs, k) && k < |bs|
    ensures r.tail <= r.head && r.size > 0
  {
    Ascending(bs, k, |bs|, 0, k + 1, |bs|);
    assert Stands(bs, k, k, 0);
  }

  function Freed(r: Ring, len: nat): Ring
    requires len <= r.size && r.head <= r.cap
  {
    if len <= r.cap - r.head then r.(size := r.size - len, head := if r.head + len == r.cap then 0 else r.head + len)
    else r.(size := r.size - len, head := len)
  }

  lemma FreeKeeps(r: Ring, bs: seq<Block>, k: nat) returns (k': nat)
    requires Layout(r, bs, k) && bs != []
    ensures bs[0].len <= r.size && Layout(Freed(r, bs[0].len), bs[1..], k')
  {
    if k == 0 {
      k' := |bs| - 1;
      FreeLow(r, bs);
    } else if r.head + bs[0].len == r.cap {
      k' := |bs| - 1;
      FreeLast(r, bs, k);
    } else {
      k' := k - 1;
      FreeHigh(r, bs, k);
    }
  }

  /** The oldest block is the one that had started over. */
  lemma FreeLow(r: Ring, bs: seq<Block>)
    requires Layout(r, bs, 0) && bs != []
    ensures bs[0].len <= r.size && Layout(Freed(r, bs[0].len), bs[1..], |bs| - 1)
  {
    assert Stands(bs, 0, 0, 0);
    StretchPop(bs, |bs|, 0);
    Ascending(bs, 0, |bs|, 0, 1, |bs|);
    LayoutInside(r, bs, 0, |bs| - 1);
    Trivial(bs[1..], 0);
  }

  /** The oldest block reaches the end of the buffer. */
  lemma FreeLast(r: Ring, bs: seq<Block>, k: nat)
    requires Layout(r, bs, k) && k > 0 && r.head + bs[0].len == r.cap
    ensures bs[0].len <= r.size && Layout(Freed(r, bs[0].len), bs[1..], |bs| - 1)
  {
    assert Stands(bs, 0, 0, r.head);
    Ascending(bs, 0, k, r.head, 1, k);
    if k > 1 {
      assert Stands(bs, k - 1, 0, r.head);
      Ascending(bs, 0, k, r.head, 1, k - 1);
    }
    StretchShift(bs, 1, |bs|, 0);
    if |bs| > 1 {
      LayoutInside(r, bs, k, |bs| - 1);
    }
    Trivial(bs[1..], 0);
  }

  lemma FreeHigh(r: Ring, bs: seq<Block>, k: nat)
    requires Layout(r, bs, k) && k > 0 && r.head + bs[0].len != r.cap
    ensures bs[0].len <= r.size && Layout(Freed(r, bs[0].len), bs[1..], k - 1)
  {
    assert Stands(bs, 0, 0, r.head);
    Ascending(bs, 0, k, r.head, 1, k);
    StretchPop(bs, k, r.head);
    StretchShift(bs, k, |bs|, 0);
  }

  lemma Trivial(bs: seq<Block>, from: nat)
    ensures Stretch(bs, |bs|, |bs|, from) && EndBefore(bs, |bs|, |bs|, from) == from
  {
  }
}

module RingBuf {
  import opened Common
  import opened RingSpec

  class RingBuffer {
    const cap: nat
    var head: nat
    var tail: nat
    var size: nat
    ghost var blocks: seq<Block>
    ghost var high: nat

    constructor (cap: nat)
      requires cap > 0
      ensures Valid() && blocks == [] && this.cap == cap
    {
      this.cap := cap;
      head, tail, size, blocks, high := 0, 0, 0, [], 0;
    }

    ghost function Numbers(): Ring
      reads this
    {
      Ring(cap, head, tail, size)
    }

    ghost predicate Valid()
      reads this
    {
      Layout(Numbers(), blocks, high)
    }

    /** The offset of a free block, if there is one where the allocator looks. */
    method Allocate(len: nat) returns (ret: Option<nat>)
      requires Valid()
      modifies this
      ensures Valid() && (Numbers(), ret) == Alloc(old(Numbers()), len)
      ensures ret.None? ==> blocks == old(blocks) && Numbers() == old(Numbers())
      ensures ret.Some? ==>
                && blocks == old(blocks) + [Block(ret.value, len)] && ret.value + len <= cap
                && forall i :: 0 <= i < |old(blocks)| ==> Apart(old(blocks)[i], Block(ret.value, len))
    {
      ghost var r := Numbers();
      ret := Take(len);
      if ret.Some? {
        high := AllocKeeps(r, blocks, high, len);
        NewestApart(Numbers(), blocks, Block(ret.value, len), high);
        blocks := blocks + [Block(ret.value, len)];
      }
    }

    method Take(len: nat) returns (ret: Option<nat>)
      requires tail <= cap
      modifies this`tail, this`size
      ensures (Numbers(), ret) == Alloc(old(Numbers()), len)
    {
      ret := None;
      if head < tail || size == 0 {
        if cap - tail >= len {
          ret := Some(tail);
          tail := tail + len;
          if tail == cap {
            tail := 0;
          }
        } else if head >= len {
          ret := Some(0);
          tail := len;
        }
      } else if head - tail >= len {
        ret := Some(tail);
        tail := tail + len;
      }
      size := size + if ret.Some? then len else 0;
    }

    /** Give back the oldest block, by its length alone. */
    method Release(len: nat)
      requires Valid() && blocks != [] && len == blocks[0].len
      modifies this
      ensures Valid() && blocks == old(blocks)[1..] && size == old(size) - len
      ensures old(blocks)[0].start == StartOf(old(Numbers()), len)
      ensures blocks != [] ==> blocks[0].start == StartOf(Numbers(), blocks[0].len)
    {
      OldestFound(Numbers(), blocks, high);
      high := FreeKeeps(Numbers(), blocks, high);
      blocks := blocks[1..];
      Drop(len);
      if blocks != [] {
        OldestFound(Numbers(), blocks, high);
      }
    }

    method Drop(len: nat)
      requires len <= size && head <= cap
      modifies this`head, this`size
      ensures Numbers() == Freed(old(Numbers()), len)
    {
      size := size - len;
      if len <= cap - head {
        head := head + len;
        if head == cap {
          head := 0;
        }
      } else {
        head := len;
      }
    }

    /** What clients rely on: live blocks lie in the buffer, pairwise apart, and `size` counts their bytes. */
    lemma Sound()
      requires Valid()
      ensures forall i :: 0 <= i < |blocks| ==> blocks[i].End() <= cap
      ensures forall i, j :: 0 <= i < j < |blocks| ==> Apart(blocks[i], blocks[j])
      ensures size == Total(blocks)
    {
      SizeIsTotal(Numbers(), blocks, high);
      forall i | 0 <= i < |blocks| ensures blocks[i].End() <= cap {
        LayoutInside(Numbers(), blocks, high, i);
      }
      forall i, j | 0 <= i < j < |blocks| ensures Apart(blocks[i], blocks[j]) {
        LayoutApart(Numbers(), blocks, high, i, j);
      }
    }

    method Clear()
      requires cap > 0
      modifies this
      ensures Valid() && blocks == [] && size == 0
    {
      head, tail, size, blocks, high := 0, 0, 0, [], 0;
    }
  }

  lemma NewestApart(r: Ring, bs: seq<Block>, b: Block, k: nat)
    requires Layout(r, bs + [b], k)
    ensures b.End() <= r.cap && forall i :: 0 <= i < |bs| ==> Apart(bs[i], b)
  {
    LayoutInside(r, bs + [b], k, |bs|);
    forall i | 0 <= i < |bs| ensures Apart(bs[i], b) {
      LayoutApart(r, bs + [b], k, i, |bs|);
    }
  }
}
