/** Unsigned LEB128 varints as Go's encoding/binary writes and reads them, used by the password record (auth/auth.go). */
module Varint {
  import opened Strings

  type Byte = b: int | 0 <= b < 256

  const TwoTo64: nat := 0x1_0000_0000_0000_0000

  type Uint64 = x: int | 0 <= x < TwoTo64

  /** The encoding of `x`: seven bits a byte, least significant first, all but the last with the high bit set. */
  function Leb128(x: nat): (b: seq<Byte>)
    ensures b != []
  {
    if x < 128 then [x] else [x % 128 + 128] + Leb128(x / 128)
  }

  /** 128 to the power `i`. */
  function Pow128(i: nat): (p: nat)
    ensures p > 0
  {
    if i == 0 then 1 else 128 * Pow128(i - 1)
  }

  /** A varint has at most `k` bytes exactly when the value is below 128^k. */
  lemma {:induction false} VarintLength(x: nat, k: nat)
    requires k > 0
    ensures |Leb128(x)| <= k <==> x < Pow128(k)
  {
    if x < 128 {
      assert Pow128(k) == 128 * Pow128(k - 1);
    } else if k == 1 {
      assert Pow128(1) == 128 * Pow128(0) == 128;
      assert |Leb128(x / 128)| > 0;
    } else {
      VarintLength(x / 128, k - 1);
    }
  }

  /** The number that the bytes stand for: seven bits of each, least significant first. */
  function ValueOf(b: seq<Byte>): nat {
    if b == [] then 0 else b[0] % 128 + 128 * ValueOf(b[1..])
  }

  /** The format: the bytes stand for the value, exactly the last has its high bit clear, and none is wasted. */
  lemma {:induction false} Leb128Format(x: nat)
    ensures var b := Leb128(x);
      && ValueOf(b) == x
      && (forall k :: 0 <= k < |b| ==> (b[k] < 128 <==> k == |b| - 1))
      && (|b| > 1 ==> b[|b| - 1] != 0)
  {
    if x < 128 {
      assert Leb128(x)[1..] == [];
    } else {
      Leb128Format(x / 128);
      var b, r := Leb128(x), Leb128(x / 128);
      assert b[1..] == r;
      assert forall k :: 0 < k < |b| ==> b[k] == r[k - 1];
    }
  }

  /** An encoding that is cut short reads as nothing at all. */
  lemma {:induction false} ShortRest(buf: seq<Byte>, i: nat, acc: nat, x: nat, r: nat)
    requires i <= |buf| && r < |Leb128(x)| && buf[i..] == Leb128(x)[..r]
    ensures UvarintFrom(buf, i, acc) == (0, 0)
    decreases r
  {
    if r == 0 {
      assert |buf[i..]| == 0;
    } else {
      assert x >= 128 && buf[i] == buf[i..][0] == Leb128(x)[0];
      assert buf[i + 1..] == buf[i..][1..] == Leb128(x / 128)[..r - 1];
      ShortRest(buf, i + 1, acc + Worth(buf[i] - 128, i), x / 128, r - 1);
    }
  }

  lemma ShortUvarint(x: nat, r: nat)
    requires r < |Leb128(x)|
    ensures Uvarint(Leb128(x)[..r]) == (0, 0)
  {
    var buf := Leb128(x)[..r];
    assert buf[0..] == buf;
    ShortRest(buf, 0, 0, x, r);
  }

  /** Writes the varint into `b` from `off` on; None when it runs past the end, where Go panics. */
  method PutUvarint(b: array<Byte>, off: nat, value: nat) returns (n: Option<nat>)
    requires off <= b.Length
    modifies b
    ensures n == if off + |Leb128(value)| <= b.Length then Some(|Leb128(value)|) else None
    ensures n.Some? ==> b[..off] == old(b[..off]) && b[off..off + n.value] == Leb128(value)
  {
    var x := value;
    var i := 0;
    while x >= 0x80
      invariant 0 <= i && off + i <= b.Length && 0 <= x
      invariant b[..off] == old(b[..off]) && b[off..off + i] + Leb128(x) == Leb128(value)
    {
      if off + i >= b.Length {
        return None;
      }
      ghost var done := b[off..off + i];
      b[off + i] := x % 128 + 128;
      assert b[off..off + i + 1] == done + [x % 128 + 128];
      assert done + Leb128(x) == done + [x % 128 + 128] + Leb128(x / 128);
      x := x / 128;
      i := i + 1;
    }
    if off + i >= b.Length {
      return None;
    }
    ghost var done := b[off..off + i];
    b[off + i] := x;
    assert b[off..off + i + 1] == done + [x];
    return Some(i + 1);
  }

  /** What the digit `d` is worth in byte `i`. */
  function Worth(d: nat, i: nat): nat {
    ScaleNonNegative(d, Pow128(i));
    d * Pow128(i)
  }

  /**
   * What reading yields from byte `i` on, with the earlier bytes worth `acc`: the value and the number of
   * bytes read; (0, 0) when the buffer ends first; (0, -n) when the value overflows 64 bits at byte n.
   */
  function UvarintFrom(buf: seq<Byte>, i: nat, acc: nat): (nat, int)
    requires i <= |buf|
    decreases |buf| - i
  {
    if i == |buf| then (0, 0)
    else if buf[i] < 0x80 then
      if i > 9 || (i == 9 && buf[i] > 1) then (0, -(i + 1)) else (acc + Worth(buf[i], i), i + 1)
    else UvarintFrom(buf, i + 1, acc + Worth(buf[i] - 128, i))
  }

  function Uvarint(buf: seq<Byte>): (nat, int) {
    UvarintFrom(buf, 0, 0)
  }

  /**
   * The reading loop. The Go code shifts into a uint64; here `x` is unbounded, which no result shows:
   * bits beyond the 64th are only ever added on the way to an overflow or an early end.
   */
  method ReadUvarint(buf: seq<Byte>) returns (value: nat, n: int)
    ensures (value, n) == Uvarint(buf)
  {
    var x: nat, scale: nat, i := 0, 1, 0;
    while i < |buf|
      invariant 0 <= i <= |buf| && 0 <= x && scale == Pow128(i)
      invariant UvarintFrom(buf, i, x) == Uvarint(buf)
    {
      var b: int := buf[i];
      if b < 0x80 {
        if i > 9 || (i == 9 && b > 1) {
          return 0, -(i + 1);
        }
        return x + b * scale, i + 1;
      }
      ScaleNonNegative(b - 128, scale);
      x := x + (b - 128) * scale;
      scale := 128 * scale;
      i := i + 1;
    }
    return 0, 0;
  }

  lemma ScaleNonNegative(a: nat, b: nat)
    ensures a * b >= 0
  {
  }

  lemma SplitScale(q: nat, r: nat, p: nat)
    ensures (128 * q + r) * p == r * p + q * (128 * p)
  {
  }

  lemma AtLeastScale(x: nat, p: nat)
    requires x >= 1
    ensures x * p >= p
  {
  }

  lemma {:induction false} Pow128Monotone(i: nat, j: nat)
    requires i <= j
    ensures Pow128(i) <= Pow128(j)
    decreases j - i
  {
    if i < j { Pow128Monotone(i, j - 1); }
  }

  lemma Pow128Values()
    ensures Pow128(5) == 0x8_0000_0000 && 2 * Pow128(9) == TwoTo64 && Pow128(10) > TwoTo64
  {
    assert Pow128(1) == 128 && Pow128(2) == 16384 && Pow128(3) == 2097152 && Pow128(4) == 268435456;
    assert Pow128(5) == 34359738368 && Pow128(6) == 4398046511104 && Pow128(7) == 562949953421312;
    assert Pow128(8) == 72057594037927936 && Pow128(9) == 9223372036854775808;
  }

  /** Reading on from the middle of an encoding. */
  lemma {:induction false} ReadRest(buf: seq<Byte>, i: nat, acc: nat, x: nat, tail: seq<Byte>)
    requires i <= |buf| && buf[i..] == Leb128(x) + tail
    requires x * Pow128(i) < TwoTo64 && (i > 0 ==> x >= 1)
    ensures UvarintFrom(buf, i, acc) == (acc + x * Pow128(i), i + |Leb128(x)|)
    decreases x
  {
    var p := Pow128(i);
    Pow128Values();
    if i > 0 { AtLeastScale(x, p); }
    if i >= 10 { Pow128Monotone(10, i); }
    assert buf[i] == buf[i..][0] == Leb128(x)[0];
    if x >= 128 {
      var q, r := x / 128, x % 128;
      assert x == 128 * q + r;
      SplitScale(q, r, p);
      ScaleNonNegative(r, p);
      assert buf[i + 1..] == buf[i..][1..] == Leb128(q) + tail;
      ReadRest(buf, i + 1, acc + r * p, q, tail);
    } else if i == 9 {
      TopByte(x, p);
    }
  }

  lemma TopByte(x: nat, p: nat)
    requires x * p < 2 * p
    ensures x < 2
  {
  }

  /** Reading what was written gives the value and the length back, whatever follows. */
  lemma UvarintRoundTrip(x: Uint64, tail: seq<Byte>)
    ensures Uvarint(Leb128(x) + tail) == (x, |Leb128(x)|)
  {
    var buf := Leb128(x) + tail;
    assert buf[0..] == buf;
    ReadRest(buf, 0, 0, x, tail);
  }

  /** Reading on in the encoding of a value that is too large. */
  lemma {:induction false} OverflowRest(buf: seq<Byte>, i: nat, acc: nat, x: nat, tail: seq<Byte>)
    requires i <= |buf| && buf[i..] == Leb128(x) + tail
    requires (i <= 9 ==> x >= 2 * Pow128(9 - i)) && x >= 1
    ensures UvarintFrom(buf, i, acc) == (0, -(i + |Leb128(x)|))
    decreases x
  {
    assert buf[i] == buf[i..][0] == Leb128(x)[0] && Pow128(0) == 1;
    if i < 9 { assert Pow128(9 - i) == 128 * Pow128(8 - i); }
    if x >= 128 {
      assert buf[i + 1..] == buf[i..][1..] == Leb128(x / 128) + tail;
      OverflowRest(buf, i + 1, acc + Worth(buf[i] - 128, i), x / 128, tail);
    }
  }

  /** The encoding of a value of more than 64 bits reads as an overflow at its last byte. */
  lemma OverflowReads(x: nat, tail: seq<Byte>)
    requires x >= TwoTo64
    ensures Uvarint(Leb128(x) + tail) == (0, -|Leb128(x)|)
  {
    var buf := Leb128(x) + tail;
    assert buf[0..] == buf;
    Pow128Values();
    OverflowRest(buf, 0, 0, x, tail);
  }

  /** No encoding is a proper prefix of another. */
  lemma PrefixFree(x: Uint64, y: Uint64, tail: seq<Byte>)
    requires Leb128(x) + tail == Leb128(y)
    ensures x == y && tail == []
  {
    UvarintRoundTrip(x, tail);
    UvarintRoundTrip(y, []);
    assert Leb128(y) + [] == Leb128(y);
  }
}
