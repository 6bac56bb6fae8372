/** libhv's variable-length integers: seven bits a byte, the lowest first, the top bit set on all but the last. */
module Varint {
  import opened Common

  type Byte = x: int | 0 <= x < 256
  type Long = x: int | -0x8000_0000_0000_0000 <= x < 0x8000_0000_0000_0000


  function Power(n: nat): (p: nat)
    ensures p > 0
  {
    if n == 0 then 1 else 128 * Power(n - 1)
  }

  /** A 64-bit signed integer keeps the low 64 bits. */
  function Wrap(x: int): Long {
    (x + 0x8000_0000_0000_0000) % 0x1_0000_0000_0000_0000 - 0x8000_0000_0000_0000
  }

  lemma WrapKeepsLowBits(x: int)
    ensures (x - Wrap(x)) % 0x1_0000_0000_0000_0000 == 0
    ensures -0x8000_0000_0000_0000 <= x < 0x8000_0000_0000_0000 ==> Wrap(x) == x
  {
  }

  // ---------- What bytes mean ----------

  function Encoded(v: nat): seq<Byte> {
    if v < 128 then [v] else [128 + v % 128] + Encoded(v / 128)
  }

  /** The number that the low seven bits of the bytes spell. */
  function Value(bs: seq<Byte>): nat {
    if bs == [] then 0 else bs[0] % 128 + 128 * Value(bs[1..])
  }

  /** Only the last byte has its top bit clear. */
  predicate Terminated(bs: seq<Byte>) {
    && bs != [] && bs[|bs| - 1] < 128
    && forall i :: 0 <= i < |bs| - 1 ==> bs[i] >= 128
  }

  lemma {:induction false} EncodedTerminated(v: nat)
    ensures Terminated(Encoded(v)) && Value(Encoded(v)) == v
    decreases v
  {
    if v >= 128 {
      EncodedTerminated(v / 128);
      assert Encoded(v)[1..] == Encoded(v / 128);
    } else {
      assert Encoded(v)[1..] == [];
    }
  }

  lemma Quotient(x: int, q: int, r: int)
    requires x == 128 * q + r && 0 <= r < 128
    ensures x / 128 == q && x % 128 == r
  {
  }

  lemma EncodedStep(v: nat, b: Byte, q: nat)
    requires b >= 128 && v == b - 128 + 128 * q
    ensures Encoded(v) == if q == 0 then [b - 128] else [b] + Encoded(q)
  {
    Quotient(v, q, b - 128);
  }

  /** Encoding is the one shortest form: a decoded string comes back exactly when it has no idle last byte. */
  lemma {:induction false} Canonical(bs: seq<Byte>)
    requires Terminated(bs)
    ensures Encoded(Value(bs)) == bs <==> |bs| == 1 || bs[|bs| - 1] != 0
    decreases |bs|
  {
    if |bs| == 1 {
      assert bs[1..] == [];
      assert bs == [bs[0]];
    } else {
      var rest := bs[1..];
      assert Terminated(rest);
      Canonical(rest);
      NotZero(rest);
      EncodedStep(Value(bs), bs[0], Value(rest));
      assert bs == [bs[0]] + rest;
      if Value(rest) == 0 {
        assert Encoded(Value(bs)) != bs;
      } else {
        SameHead(bs[0], Encoded(Value(rest)), rest);
      }
    }
  }

  lemma SameHead(b: Byte, s: seq<Byte>, t: seq<Byte>)
    ensures [b] + s == [b] + t <==> s == t
  {
    assert ([b] + s)[1..] == s && ([b] + t)[1..] == t;
  }

  /** A terminated string spells zero only with idle bytes. */
  lemma {:induction false} NotZero(bs: seq<Byte>)
    requires Terminated(bs)
    ensures bs[|bs| - 1] != 0 ==> Value(bs) > 0
    ensures |bs| == 1 ==> Value(bs) == bs[0]
    decreases |bs|
  {
    if |bs| > 1 {
      assert Terminated(bs[1..]);
      NotZero(bs[1..]);
    } else {
      assert bs[1..] == [];
    }
  }

  lemma {:induction false} EncodedLength(v: nat, n: nat)
    requires v < Power(n) && n > 0
    ensures |Encoded(v)| <= n
    decreases n
  {
    assert Power(1) == 128;
    if v >= 128 {
      EncodedLength(v / 128, n - 1);
    }
  }

  lemma NinePowers()
    ensures Power(9) == 0x8000_0000_0000_0000
  {
    assert Power(3) == 0x20_0000;
    assert Power(6) == 0x400_0000_0000;
  }

  /** Bytes spell numbers by position. */
  lemma {:induction false} ValuePush(bs: seq<Byte>, b: Byte)
    ensures Value(bs + [b]) == Value(bs) + b % 128 * Power(|bs|)
    ensures Value(bs) < Power(|bs|)
    decreases |bs|
  {
    if bs == [] {
      assert (bs + [b])[1..] == [];
    } else {
      ValuePush(bs[1..], b);
      assert (bs + [b])[1..] == bs[1..] + [b];
      assert 128 * (b % 128 * Power(|bs| - 1)) == b % 128 * Power(|bs|);
    }
  }

  // ---------- Decoding ----------

  /** How a scan ends: at a last byte, at the caller's limit, after ten bytes, or past the given memory. */
  datatype End = Found(bytes: nat) | Short | Endless | Outside

  function Scan(buf: seq<Byte>, limit: int, i: nat): End
    requires i <= 10
    decreases 10 - i
  {
    if i == 10 then Endless
    else if limit != 0 && i == limit then Short
    else if i >= |buf| then Outside
    else if buf[i] < 128 then Found(i + 1)
    else Scan(buf, limit, i + 1)
  }

  /** What decoding gives: the number, and the byte count, 0 if incomplete, -1 if endless. */
  function Decoded(buf: seq<Byte>, limit: int): (Long, int)
    requires Scan(buf, limit, 0) != Outside
  {
    ScanInside(buf, limit, 0);
    match Scan(buf, limit, 0)
    case Found(n) => (Wrap(Value(buf[..n])), n)
    case Short => (0, 0)
    case Endless => (Wrap(Value(buf[..10])), -1)
  }

  lemma {:induction false} ScanInside(buf: seq<Byte>, limit: int, i: nat)
    requires i <= 10 && i <= |buf|
    ensures match Scan(buf, limit, i)
            case Found(n) => i < n <= |buf| && n <= 10
            case Short => true
            case Endless => |buf| >= 10
            case Outside => true
    decreases 10 - i
  {
    if i < 10 && i < |buf| && buf[i] >= 128 {
      ScanInside(buf, limit, i + 1);
    }
  }

  lemma {:induction false} ScanFinds(buf: seq<Byte>, limit: int, n: nat, i: nat)
    requires i < n <= |buf| && n <= 10 && Terminated(buf[..n])
    ensures limit <= 0 || limit >= n ==> Scan(buf, limit, i) == Found(n)
    ensures i < limit < n ==> Scan(buf, limit, i) == Short
    decreases n - i
  {
    assert forall j :: 0 <= j < n ==> buf[..n][j] == buf[j];
    if i < n - 1 && limit != i {
      ScanFinds(buf, limit, n, i + 1);
    }
  }

  /** Any terminated string of up to ten bytes is read to its end, and short of it is incomplete. */
  lemma TerminatedDecoded(buf: seq<Byte>, limit: int, n: nat)
    requires n <= |buf| && n <= 10 && Terminated(buf[..n])
    ensures limit <= 0 || limit >= n ==>
              Scan(buf, limit, 0) != Outside && Decoded(buf, limit) == (Wrap(Value(buf[..n])), n)
    ensures 0 < limit < n ==> Scan(buf, limit, 0) != Outside && Decoded(buf, limit) == (0, 0)
  {
    ScanFinds(buf, limit, n, 0);
  }

  /** Ten bytes without an end, as far as the caller lets the decoder look, give -1. */
  lemma EndlessReported(buf: seq<Byte>, limit: int)
    requires |buf| >= 10 && (forall i :: 0 <= i < 10 ==> buf[i] >= 128) && (limit <= 0 || limit >= 10)
    ensures Scan(buf, limit, 0) != Outside && Decoded(buf, limit) == (Wrap(Value(buf[..10])), -1)
  {
    ScanOn(buf, limit, 0);
  }

  lemma {:induction false} ScanOn(buf: seq<Byte>, limit: int, i: nat)
    requires i <= 10 <= |buf| && (forall j :: 0 <= j < 10 ==> buf[j] >= 128) && (limit <= 0 || limit >= 10)
    ensures Scan(buf, limit, i) == Endless
    decreases 10 - i
  {
    if i < 10 {
      ScanOn(buf, limit, i + 1);
    }
  }

  /**
   Decoding inverts encoding on every non-negative 64-bit integer, whatever bytes follow, when the
   caller sets no limit or one that leaves room. Nine bytes are enough.
   */
  lemma RoundTrip(v: nat, rest: seq<Byte>, limit: int)
    requires v < 0x8000_0000_0000_0000 && (limit <= 0 || limit >= |Encoded(v)|)
    ensures |Encoded(v)| <= 9
    ensures Scan(Encoded(v) + rest, limit, 0) != Outside && Decoded(Encoded(v) + rest, limit) == (v, |Encoded(v)|)
  {
    var e := Encoded(v);
    NinePowers();
    EncodedLength(v, 9);
    EncodedTerminated(v);
    assert (e + rest)[..|e|] == e;
    ScanFinds(e + rest, limit, |e|, 0);
  }

  /** Every proper prefix but the empty one is reported incomplete. */
  lemma PrefixIncomplete(v: nat, n: nat)
    requires v < 0x8000_0000_0000_0000 && 0 < n < |Encoded(v)|
    ensures Scan(Encoded(v)[..n], n, 0) != Outside && Decoded(Encoded(v)[..n], n) == (0, 0)
  {
    var e := Encoded(v);
    NinePowers();
    EncodedLength(v, 9);
    EncodedTerminated(v);
    PrefixShort(e[..n], n, 0);
  }

  lemma {:induction false} PrefixShort(bs: seq<Byte>, n: nat, i: nat)
    requires i <= n == |bs| < 10 && n > 0 && forall j :: 0 <= j < n ==> bs[j] >= 128
    ensures Scan(bs, n, i) == Short
    decreases n - i
  {
    if i < n {
      PrefixShort(bs, n, i + 1);
    }
  }

  // ---------- The code ----------

  /** `varint_encode` */
  method Encode(value: nat, buf: array<Byte>) returns (bytes: nat)
    requires value < 0x8000_0000_0000_0000 && |Encoded(value)| <= buf.Length
    modifies buf
    ensures bytes == |Encoded(value)| && buf[..bytes] == Encoded(value)
    ensures forall i :: bytes <= i < buf.Length ==> buf[i] == old(buf[i])
  {
    var v := value;
    bytes := 0;
    while true
      invariant bytes + |Encoded(v)| == |Encoded(value)| && buf[..bytes] + Encoded(v) == Encoded(value)
      invariant forall i :: bytes <= i < buf.Length ==> buf[i] == old(buf[i])
      decreases v
    {
      var ch := v % 128;
      ghost var done, e := buf[..bytes], Encoded(v);
      v := v / 128;
      buf[bytes] := if v == 0 then ch else ch + 128;
      bytes := bytes + 1;
      assert buf[..bytes] == done + [e[0]];
      if v == 0 {
        break;
      }
    }
  }

  /** `varint_decode`; `len` is none for a null pointer, and zero sets no limit. */
  method Decode(buf: seq<Byte>, len: Option<int>) returns (ret: Long, len': Option<int>)
    requires Scan(buf, if len.Some? then len.value else 0, 0) != Outside
    ensures var d := Decoded(buf, if len.Some? then len.value else 0);
            ret == d.0 && len' == if len.Some? then Some(d.1) else None
  {
    ret, len' := 0, len;
    var bytes := 0;
    ghost var limit := if len.Some? then len.value else 0;
    while true
      invariant bytes < 10 && bytes <= |buf| && Scan(buf, limit, bytes) == Scan(buf, limit, 0)
      invariant ret == Value(buf[..bytes]) && len' == len
      decreases 10 - bytes
    {
      if len.Some? && len.value != 0 && bytes == len.value {
        return 0, Some(0);
      }
      ghost var before := buf[..bytes];
      ValuePush(before, buf[bytes]);
      assert buf[..bytes + 1] == before + [buf[bytes]];
      ret := Wrap(ret + buf[bytes] % 128 * Power(bytes));
      bytes := bytes + 1;
      if buf[bytes - 1] < 128 {
        return ret, if len.Some? then Some(bytes) else None;
      }
      if bytes == 10 {
        break;
      }
      WrapSmall(buf[..bytes]);
    }
    return ret, if len.Some? then Some(-1) else None;
  }

  lemma WrapSmall(bs: seq<Byte>)
    requires |bs| <= 9
    ensures Wrap(Value(bs)) == Value(bs)
  {
    NinePowers();
    ValuePush(bs, 0);
    PowerGrows(|bs|, 9);
  }

  lemma {:induction false} PowerGrows(m: nat, n: nat)
    requires m <= n
    ensures Power(m) <= Power(n)
    decreases n
  {
    if m < n {
      PowerGrows(m, n - 1);
    }
  }
}
