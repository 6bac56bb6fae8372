/** libhv's array queue: a window of `size` elements from `offset`, moved down or grown when it meets the end. */
module EventQueue {
  import opened Common

  const QUEUE_INIT_SIZE: nat := 16

  class Queue<T(0)> {
    var ptr: array<T>
    var size: nat
    var offset: nat

    constructor ()
      ensures Valid() && Contents() == [] && ptr.Length == 0 && fresh(ptr)
    {
      ptr, size, offset := new T[0], 0, 0;
    }

    ghost predicate Valid()
      reads this
    {
      offset + size <= ptr.Length
    }

    ghost function Contents(): (s: seq<T>)
      reads this, ptr
      requires Valid()
    {
      ptr[offset..offset + size]
    }

    method Init(maxsize: nat)
      modifies this
      ensures Valid() && fresh(ptr) && Contents() == [] && ptr.Length == maxsize
    {
      offset := 0;
      size := 0;
      ptr := new T[maxsize];
    }

    method Front() returns (r: Option<T>)
      requires Valid()
      ensures r == if Contents() == [] then None else Some(Contents()[0])
    {
      r := if size == 0 then None else Some(ptr[offset]);
    }

    method Back() returns (r: Option<T>)
      requires Valid()
      ensures r == if Contents() == [] then None else Some(Contents()[|Contents()| - 1])
    {
      r := if size == 0 then None else Some(ptr[offset + size - 1]);
    }

    /** Reallocate, keeping every old cell where it was: the content survives if its cells do. */
    method Resize(maxsize: nat)
      requires Valid()
      modifies this`ptr
      ensures fresh(ptr) && (Valid() <==> offset + size <= ptr.Length)
      ensures Valid() ==> Contents() == old(Contents())
      ensures ptr.Length == if maxsize == 0 then QUEUE_INIT_SIZE else maxsize
    {
      var n := if maxsize == 0 then QUEUE_INIT_SIZE else maxsize;
      var p := new T[n];
      forall i | 0 <= i < n && i < ptr.Length {
        p[i] := ptr[i];
      }
      assert offset + size <= n ==> p[offset..offset + size] == ptr[offset..offset + size];
      ptr := p;
    }

    /** `memmove` of the window to the start. */
    method MoveToStart()
      requires Valid()
      modifies this`offset, ptr
      ensures Valid() && offset == 0 && Contents() == old(Contents())
    {
      forall i | 0 <= i < size {
        ptr[i] := ptr[offset + i];
      }
      offset := 0;
    }

    method PushBack(elem: T)
      requires Valid()
      modifies this, ptr
      ensures Valid() && Contents() == old(Contents()) + [elem]
      ensures ptr.Length == if old(size) < old(ptr.Length) then old(ptr.Length)
                            else if old(ptr.Length) == 0 then QUEUE_INIT_SIZE else 2 * old(ptr.Length)
      ensures ptr == old(ptr) || fresh(ptr)
    {
      if size == ptr.Length {
        Resize(ptr.Length * 2);
      } else if offset + size == ptr.Length {
        MoveToStart();
      }
      ptr[offset + size] := elem;
      size := size + 1;
    }

    method PopFront()
      requires Valid() && size > 0
      modifies this`size, this`offset
      ensures Valid() && Contents() == old(Contents())[1..]
    {
      size := size - 1;
      offset := offset + 1;
      if offset == ptr.Length {
        offset := 0;
      }
    }

    method PopBack()
      requires Valid() && size > 0
      modifies this`size
      ensures Valid() && Contents() == old(Contents())[..old(size) - 1]
    {
      size := size - 1;
    }
  }
}
