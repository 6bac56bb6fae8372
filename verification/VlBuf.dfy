/** libhv's growable byte buffer, pushed and popped at both ends. */
module VlBuf {
  import opened Common

  type Byte = bv8

  lemma Joined(s: seq<Byte>, i: int, j: int, k: int)
    requires 0 <= i <= j <= k <= |s|
    ensures s[i..k] == s[i..j] + s[j..k]
  {
  }

  class Buffer {
    var base: array<Byte>
    var offset: nat
    var size: nat

    constructor (cap: nat)
      ensures Valid() && Contents() == [] && fresh(base)
    {
      base, offset, size := new Byte[cap], 0, 0;
    }

    ghost predicate Valid()
      reads this
    {
      offset + size <= base.Length
    }

    ghost function Contents(): seq<Byte>
      reads this, base
      requires Valid()
    {
      base[offset..offset + size]
    }

    method Resize(cap: nat)
      requires Valid() && base.Length <= cap
      modifies this`base
      ensures Valid() && fresh(base) && base.Length == cap && Contents() == old(Contents())
    {
      var p := new Byte[cap];
      forall i | 0 <= i < base.Length {
        p[i] := base[i];
      }
      assert p[offset..offset + size] == base[offset..offset + size];
      base := p;
    }

    /** `memmove` of the contents to address `at`. */
    method MoveTo(at: nat)
      requires Valid() && at + size <= base.Length
      modifies this`offset, base
      ensures Valid() && offset == at && Contents() == old(Contents())
    {
      forall i | 0 <= i < size {
        base[at + i] := base[offset + i];
      }
      offset := at;
    }

    /** `memcpy` into the block. */
    method Write(at: nat, data: seq<Byte>)
      requires at + |data| <= base.Length
      modifies base
      ensures base[at..at + |data|] == data
      ensures forall i :: 0 <= i < base.Length && !(at <= i < at + |data|) ==> base[i] == old(base[i])
    {
      forall i | 0 <= i < |data| {
        base[at + i] := data[i];
      }
    }

    /** The buffer's own part of `PushFront`: growing, or moving up to the end. */
    method MakeRoom(n: nat)
      requires Valid()
      modifies this`base, this`offset, base
      ensures Valid() && Contents() == old(Contents()) && offset >= n
      ensures base == old(base) || (fresh(base) && base.Length == 2 * if old(base.Length) > n then old(base.Length) else n)
      ensures n + size <= old(base.Length) <==> base == old(base)
    {
      if n > base.Length - size {
        Resize(2 * if base.Length > n then base.Length else n);
      }
      if offset < n {
        MoveTo(base.Length - size);
      }
    }

    method PushFront(data: seq<Byte>)
      requires Valid()
      modifies this, base
      ensures Valid() && Contents() == data + old(Contents())
      ensures base == old(base) || (fresh(base) && base.Length == 2 * if old(base.Length) > |data| then old(base.Length) else |data|)
      ensures |data| + old(size) <= old(base.Length) <==> base == old(base)
    {
      MakeRoom(|data|);
      WriteFront(data);
    }

    method WriteFront(data: seq<Byte>)
      requires Valid() && offset >= |data|
      modifies this`offset, this`size, base
      ensures Valid() && Contents() == data + old(Contents())
    {
      ghost var s, end := Contents(), offset + size;
      Write(offset - |data|, data);
      assert base[offset..end] == s;
      offset := offset - |data|;
      size := size + |data|;
      Joined(base[..], offset, offset + |data|, end);
      assert base[offset..end] == base[offset..offset + |data|] + base[offset + |data|..end];
    }

    method PushBack(data: seq<Byte>)
      requires Valid()
      modifies this, base
      ensures Valid() && Contents() == old(Contents()) + data
      ensures base == old(base) || (fresh(base) && base.Length == 2 * if old(base.Length) > |data| then old(base.Length) else |data|)
      ensures |data| + old(size) <= old(base.Length) <==> base == old(base)
    {
      if |data| > base.Length - size {
        Resize(2 * if base.Length > |data| then base.Length else |data|);
      } else if |data| > base.Length - offset - size {
        MoveTo(0);
      }
      WriteBack(data);
    }

    method WriteBack(data: seq<Byte>)
      requires Valid() && offset + size + |data| <= base.Length
      modifies this`size, base
      ensures Valid() && Contents() == old(Contents()) + data
    {
      Write(offset + size, data);
      Joined(base[..], offset, offset + size, offset + size + |data|);
      size := size + |data|;
    }

    /** The first `n` bytes, or nothing when there are fewer. */
    method PopFront(n: nat) returns (r: Option<seq<Byte>>)
      requires Valid()
      modifies this`offset, this`size
      ensures Valid()
      ensures n > old(size) ==> r == None && Contents() == old(Contents())
      ensures n <= old(size) ==> r == Some(old(Contents())[..n]) && Contents() == old(Contents())[n..]
    {
      r := None;
      if n <= size {
        r := Some(base[offset..offset + n]);
        assert base[offset..offset + n] == base[offset..offset + size][..n];
        assert base[offset + n..offset + size] == base[offset..offset + size][n..];
        offset := offset + n;
        if offset >= base.Length {
          offset := 0;
        }
        size := size - n;
      }
    }

    method PopBack(n: nat) returns (r: Option<seq<Byte>>)
      requires Valid()
      modifies this`size
      ensures Valid()
      ensures n > old(size) ==> r == None && Contents() == old(Contents())
      ensures n <= old(size) ==> r == Some(old(Contents())[old(size) - n..]) && Contents() == old(Contents())[..old(size) - n]
    {
      r := None;
      if n <= size {
        r := Some(base[offset + size - n..offset + size]);
        assert base[offset + size - n..offset + size] == base[offset..offset + size][size - n..];
        size := size - n;
      }
    }
  }

  datatype Op = Front(data: seq<Byte>) | Back(data: seq<Byte>) | OffFront(n: nat) | OffBack(n: nat)

  /** What any mix of operations leaves of a plain byte sequence. */
  function Apply(s: seq<Byte>, ops: seq<Op>): seq<Byte>
    decreases |ops|
  {
    if ops == [] then s else Apply(ApplyOne(s, ops[0]), ops[1..])
  }

  function ApplyOne(s: seq<Byte>, op: Op): seq<Byte> {
    match op
    case Front(data) => data + s
    case Back(data) => s + data
    case OffFront(n) => if n <= |s| then s[n..] else s
    case OffBack(n) => if n <= |s| then s[..|s| - n] else s
  }

  method RunOne(b: Buffer, op: Op)
    requires b.Valid()
    modifies b, b.base
    ensures b.Valid() && b.Contents() == ApplyOne(old(b.Contents()), op)
    ensures b.base == old(b.base) || fresh(b.base)
  {
    match op {
      case Front(data) => b.PushFront(data);
      case Back(data) => b.PushBack(data);
      case OffFront(n) => var _ := b.PopFront(n);
      case OffBack(n) => var _ := b.PopBack(n);
    }
  }

  method RunOps(b: Buffer, ops: seq<Op>)
    requires b.Valid()
    modifies b, b.base
    ensures b.Valid() && b.Contents() == Apply(old(b.Contents()), ops)
  {
    ghost var s := b.Contents();
    var i := 0;
    while i < |ops|
      invariant 0 <= i <= |ops| && b.Valid() && Apply(b.Contents(), ops[i..]) == Apply(s, ops)
      invariant b.base == old(b.base) || fresh(b.base)
    {
      assert ops[i..][1..] == ops[i + 1..];
      RunOne(b, ops[i]);
      i := i + 1;
    }
  }
}
