/** The password record: scrypt parameters, salt and hash in one base64 text (auth/auth.go). */
module Auth {
  import opened Strings
  import opened Varint
  import Base64

  const TwoTo63: int := 0x8000_0000_0000_0000

  /** Go's int. */
  type Int = i: int | -TwoTo63 <= i < TwoTo63

  datatype Config = Config(N: Int, R: Int, P: Int, SaltLen: Int, HashLen: Int)

  const DefaultConfig: Config := Config(32768, 8, 1, 32, 32)

  /** A byte slice; Go's lengths are ints. */
  type Slice = s: seq<Byte> | |s| < TwoTo63

  function ToUint64(i: Int): Uint64 {
    if i >= 0 then i else i + TwoTo64
  }

  function ToInt(u: Uint64): Int {
    if u < TwoTo63 then u else u - TwoTo64
  }

  // ----- the raw record -----

  function Varints(xs: seq<Uint64>): seq<Byte> {
    if xs == [] then [] else Leb128(xs[0]) + Varints(xs[1..])
  }

  function HeaderValues(c: Config, salt: Slice, hash: Slice): seq<Uint64> {
    [ToUint64(c.N), ToUint64(c.R), ToUint64(c.P), |salt|, |hash|]
  }

  function Header(c: Config, salt: Slice, hash: Slice): seq<Byte> {
    Varints(HeaderValues(c, salt, hash))
  }

  /** The record in full: five varints, then the two byte strings. */
  function Record(c: Config, salt: Slice, hash: Slice): seq<Byte> {
    Header(c, salt, hash) + salt + hash
  }

  const MaxVarintLen32: nat := 5

  /** The five varints fit in the space that EncodeRaw sets aside for them. */
  predicate HeaderFits(c: Config, salt: Slice, hash: Slice) {
    |Header(c, salt, hash)| <= 5 * MaxVarintLen32
  }

  /** Go's copy: as much of `s` as there is room for from `off` on. */
  method Copy(b: array<Byte>, off: nat, s: seq<Byte>)
    requires off <= b.Length
    modifies b
    ensures off + |s| <= b.Length ==> b[..off + |s|] == old(b[..off]) + s
  {
    var n := if |s| <= b.Length - off then |s| else b.Length - off;
    forall k | 0 <= k < n {
      b[off + k] := s[k];
    }
  }

  /** Writes one more varint; None where Go panics. */
  method Append(b: array<Byte>, i: nat, x: Uint64, ghost done: seq<Byte>) returns (next: Option<nat>)
    requires i == |done| <= b.Length && b[..i] == done
    modifies b
    ensures next == if i + |Leb128(x)| <= b.Length then Some(i + |Leb128(x)|) else None
    ensures next.Some? ==> b[..next.value] == done + Leb128(x)
  {
    var n := PutUvarint(b, i, x);
    if n.None? {
      return None;
    }
    assert b[..i + n.value] == b[..i] + b[i..i + n.value];
    return Some(i + n.value);
  }

  /** Writes the five varints at the start of `b`; None where Go panics. */
  method WriteHeader(b: array<Byte>, c: Config, salt: Slice, hash: Slice) returns (i: Option<nat>)
    modifies b
    ensures i == if |Header(c, salt, hash)| <= b.Length then Some(|Header(c, salt, hash)|) else None
    ensures i.Some? ==> b[..i.value] == Header(c, salt, hash)
  {
    hide Leb128;
    ghost var v := HeaderValues(c, salt, hash);
    HeaderParts(v);
    ghost var h1 := [] + Leb128(v[0]);
    ghost var h2 := h1 + Leb128(v[1]);
    ghost var h3 := h2 + Leb128(v[2]);
    ghost var h4 := h3 + Leb128(v[3]);
    i := Append(b, 0, ToUint64(c.N), []);
    if i.None? { return; }
    i := Append(b, i.value, ToUint64(c.R), h1);
    if i.None? { return; }
    i := Append(b, i.value, ToUint64(c.P), h2);
    if i.None? { return; }
    i := Append(b, i.value, |salt|, h3);
    if i.None? { return; }
    i := Append(b, i.value, |hash|, h4);
  }

  /** None stands for a panic on a slice bound, which happens exactly when the header outgrows its 25 bytes. */
  method EncodeRaw(c: Config, salt: Slice, hash: Slice) returns (r: Option<seq<Byte>>)
    ensures r == if HeaderFits(c, salt, hash) then Some(Record(c, salt, hash)) else None
  {
    hide Header;
    var z := MaxVarintLen32 * 5 + |salt| + |hash|;
    var b := new Byte[z](_ => 0);
    var header := WriteHeader(b, c, salt, hash);
    if header.None? {
      return None;
    }
    var i := header.value;
    Copy(b, i, salt);
    i := i + |salt|;
    if i > z {
      return None;
    }
    Copy(b, i, hash);
    i := i + |hash|;
    if i > z {
      return None;
    }
    return Some(b[..i]);
  }

  lemma HeaderParts(v: seq<Uint64>)
    requires |v| == 5
    ensures Varints(v) == [] + Leb128(v[0]) + Leb128(v[1]) + Leb128(v[2]) + Leb128(v[3]) + Leb128(v[4])
  {
    hide Leb128;
    VarintsSnoc(v[..0], v[0]);
    VarintsSnoc(v[..1], v[1]);
    VarintsSnoc(v[..2], v[2]);
    VarintsSnoc(v[..3], v[3]);
    VarintsSnoc(v[..4], v[4]);
    assert v[..1] == v[..0] + [v[0]] && v[..2] == v[..1] + [v[1]] && v[..3] == v[..2] + [v[2]];
    assert v[..4] == v[..3] + [v[3]] && v == v[..4] + [v[4]];
  }

  lemma {:induction false} VarintsSnoc(xs: seq<Uint64>, x: Uint64)
    ensures Varints(xs + [x]) == Varints(xs) + Leb128(x)
  {
    hide Leb128;
    if xs == [] {
      assert Varints([x]) == Leb128(x) + Varints([x][1..]);
      assert xs + [x] == [x];
    } else {
      VarintsSnoc(xs[1..], x);
      assert (xs + [x])[0] == xs[0] && (xs + [x])[1..] == xs[1..] + [x];
      assert Leb128(xs[0]) + (Varints(xs[1..]) + Leb128(x)) == Leb128(xs[0]) + Varints(xs[1..]) + Leb128(x);
    }
  }

  /** Values below 2^35 always fit, whatever the salt and the hash. */
  lemma SmallValuesFit(c: Config, salt: Slice, hash: Slice)
    requires forall x :: x in HeaderValues(c, salt, hash) ==> x < 0x8_0000_0000
    ensures HeaderFits(c, salt, hash)
  {
    var v := HeaderValues(c, salt, hash);
    HeaderParts(v);
    Pow128Values();
    assert v[0] in v && v[1] in v && v[2] in v && v[3] in v && v[4] in v;
    VarintLength(v[0], 5);
    VarintLength(v[1], 5);
    VarintLength(v[2], 5);
    VarintLength(v[3], 5);
    VarintLength(v[4], 5);
  }

  /** The record fits exactly when its five varints take at most 25 bytes together. */
  lemma FitsExactly(c: Config, salt: Slice, hash: Slice)
    ensures HeaderFits(c, salt, hash) <==>
      |Leb128(ToUint64(c.N))| + |Leb128(ToUint64(c.R))| + |Leb128(ToUint64(c.P))| + |Leb128(|salt|)| + |Leb128(|hash|)| <= 25
  {
    HeaderParts(HeaderValues(c, salt, hash));
    hide Leb128;
  }

  // ----- reading the record -----

  /** What DecodeRaw does: panic on a slice bound, or return, with an error when the last varint is unreadable. */
  datatype RawOutcome = Panicked | Returned(c: Config, salt: seq<Byte>, hash: seq<Byte>, headerError: bool)

  lemma UvarintIs64Bits(buf: seq<Byte>)
    ensures Uvarint(buf).0 < TwoTo64
  {
    Pow128Values();
    UvarintBounded(buf, 0, 0);
  }

  lemma {:induction false} UvarintBounded(buf: seq<Byte>, i: nat, acc: nat)
    requires i <= |buf| && acc < Pow128(i)
    ensures UvarintFrom(buf, i, acc).0 < TwoTo64
    decreases |buf| - i
  {
    Pow128Values();
    if i < |buf| {
      var p, d := Pow128(i), buf[i] % 128;
      if buf[i] < 0x80 {
        if i < 9 {
          Pow128Monotone(i + 1, 9);
          DigitBound(d, 127, p);
        } else if i == 9 && d <= 1 {
          DigitBound(d, 1, p);
        }
      } else {
        DigitBound(d, 127, p);
        UvarintBounded(buf, i + 1, acc + Worth(d, i));
      }
    }
  }

  lemma DigitBound(d: nat, m: nat, p: nat)
    requires d <= m
    ensures d * p <= m * p
  {
  }

  /** The varint at position `i`: its value, the position after it, and the count that was read; None for a panic. */
  function ReadAt(b: seq<Byte>, i: int): (r: Option<(Uint64, int, int)>) {
    if !(0 <= i <= |b|) then None
    else
      var (x, n) := Uvarint(b[i..]);
      UvarintIs64Bits(b[i..]);
      Some((x, i + n, n))
  }

  /** The two byte strings that follow the header at `i`, where slice bounds allow. */
  function ReadStrings(b: seq<Byte>, i: int, c: Config, headerError: bool): RawOutcome {
    if !(0 <= i <= i + c.SaltLen <= |b|) then Panicked
    else if c.HashLen < 0 || i + c.SaltLen + c.HashLen > |b| then Panicked
    else Returned(c, b[i..i + c.SaltLen], b[i + c.SaltLen..i + c.SaltLen + c.HashLen], headerError)
  }

  /** The result of DecodeRaw: five reads, of which only the last is checked, then the two strings. */
  function DecodedRaw(b: seq<Byte>): RawOutcome {
    var N := ReadAt(b, 0);
    if N.None? then Panicked else
    var R := ReadAt(b, N.value.1);
    if R.None? then Panicked else
    var P := ReadAt(b, R.value.1);
    if P.None? then Panicked else
    var S := ReadAt(b, P.value.1);
    if S.None? then Panicked else
    var H := ReadAt(b, S.value.1);
    if H.None? then Panicked else
    var c := Config(ToInt(N.value.0), ToInt(R.value.0), ToInt(P.value.0), ToInt(S.value.0), ToInt(H.value.0));
    ReadStrings(b, H.value.1, c, H.value.2 <= 0)
  }

  method ReadNext(b: seq<Byte>, i: int) returns (panics: bool, x: Uint64, next: int, n: int)
    ensures ReadAt(b, i) == if panics then None else Some((x, next, n))
  {
    if !(0 <= i <= |b|) {
      return true, 0, 0, 0;
    }
    var value, count := ReadUvarint(b[i..]);
    UvarintIs64Bits(b[i..]);
    return false, value, i + count, count;
  }

  method DecodeRaw(data: seq<Byte>) returns (r: RawOutcome)
    ensures r == DecodedRaw(data)
  {
    hide ReadAt;
    var panics, N, R, P, SaltLen, HashLen, i, n;
    panics, N, i, n := ReadNext(data, 0);
    if panics { return Panicked; }
    panics, R, i, n := ReadNext(data, i);
    if panics { return Panicked; }
    panics, P, i, n := ReadNext(data, i);
    if panics { return Panicked; }
    panics, SaltLen, i, n := ReadNext(data, i);
    if panics { return Panicked; }
    panics, HashLen, i, n := ReadNext(data, i);
    if panics { return Panicked; }
    var headerError := n <= 0;
    var c := Config(ToInt(N), ToInt(R), ToInt(P), ToInt(SaltLen), ToInt(HashLen));
    if !(0 <= i <= i + c.SaltLen <= |data|) {
      return Panicked;
    }
    var salt := data[i..i + c.SaltLen];
    i := i + c.SaltLen;
    if c.HashLen < 0 || i + c.HashLen > |data| {
      return Panicked;
    }
    return Returned(c, salt, data[i..i + c.HashLen], headerError);
  }

  lemma IntRoundTrip(i: Int)
    ensures ToInt(ToUint64(i)) == i
  {
  }

  /** Reading a varint at the place where it was written. */
  lemma ReadAtWritten(b: seq<Byte>, i: nat, x: Uint64, tail: seq<Byte>)
    requires i <= |b| && b[i..] == Leb128(x) + tail
    ensures ReadAt(b, i) == Some((x, i + |Leb128(x)|, |Leb128(x)|))
    ensures i + |Leb128(x)| <= |b| && b[i + |Leb128(x)|..] == tail
  {
    UvarintRoundTrip(x, tail);
    assert |b[i..]| == |Leb128(x)| + |tail|;
    assert b[i + |Leb128(x)|..] == b[i..][|Leb128(x)|..];
  }

  lemma VarintsHead(xs: seq<Uint64>, tail: seq<Byte>)
    requires xs != []
    ensures Varints(xs) + tail == Leb128(xs[0]) + (Varints(xs[1..]) + tail)
  {
  }

  lemma ReadStringsWritten(b: seq<Byte>, i: nat, c: Config, salt: Slice, hash: Slice, tail: seq<Byte>)
    requires i <= |b| && b[i..] == salt + hash + tail && c.SaltLen == |salt| && c.HashLen == |hash|
    ensures ReadStrings(b, i, c, false) == Returned(c, salt, hash, false)
  {
    var k := i + |salt|;
    assert |b[i..]| == |salt| + |hash| + |tail|;
    assert b[i..k] == b[i..][..|salt|];
    assert b[k..k + |hash|] == b[i..][|salt|..|salt| + |hash|];
  }

  /** What Decode must give back for a record: the same parameters, with the lengths of what was stored. */
  function Stored(c: Config, salt: Slice, hash: Slice): RawOutcome {
    Returned(c.(SaltLen := |salt|, HashLen := |hash|), salt, hash, false)
  }

  /** Reading a record gives back what was written, whatever bytes follow: the format is prefix-free. */
  lemma RawRoundTrip(c: Config, salt: Slice, hash: Slice, tail: seq<Byte>)
    ensures DecodedRaw(Record(c, salt, hash) + tail) == Stored(c, salt, hash)
  {
    hide Leb128, ReadAt, Varints, ReadStrings;
    var v := HeaderValues(c, salt, hash);
    var b := Record(c, salt, hash) + tail;
    var body := salt + hash + tail;
    assert b[0..] == b == Varints(v) + body;
    assert v[1..][1..] == v[2..] && v[2..][1..] == v[3..] && v[3..][1..] == v[4..] && v[4..][1..] == [];
    var i1 := ReadOne(b, 0, v, body);
    var i2 := ReadOne(b, i1, v[1..], body);
    var i3 := ReadOne(b, i2, v[2..], body);
    var i4 := ReadOne(b, i3, v[3..], body);
    var i5 := ReadOne(b, i4, v[4..], body);
    assert Varints([]) == [] by { NoVarints(); }
    assert [] + body == body;
    IntRoundTrip(c.N);
    IntRoundTrip(c.R);
    IntRoundTrip(c.P);
    ReadStringsWritten(b, i5, c.(SaltLen := |salt|, HashLen := |hash|), salt, hash, tail);
  }

  lemma NoVarints()
    ensures Varints([]) == []
  {
  }

  lemma ReadOne(b: seq<Byte>, i: nat, v: seq<Uint64>, body: seq<Byte>) returns (next: nat)
    requires i <= |b| && v != [] && b[i..] == Varints(v) + body
    ensures ReadAt(b, i) == Some((v[0], next, |Leb128(v[0])|)) && |Leb128(v[0])| > 0
    ensures next <= |b| && b[next..] == Varints(v[1..]) + body
  {
    VarintsHead(v, body);
    ReadAtWritten(b, i, v[0], Varints(v[1..]) + body);
    next := i + |Leb128(v[0])|;
  }

  // ----- records cut short -----

  /** From position `i` on there is the beginning of some varints, but not all of them. */
  predicate CutShort(b: seq<Byte>, i: int, v: seq<Uint64>) {
    0 <= i <= |b| && |b| - i < |Varints(v)| && b[i..] == Varints(v)[..|b| - i]
  }

  /** One read: a whole varint with the rest still cut short, or nothing, again and again. */
  lemma ReadShort(b: seq<Byte>, i: int, v: seq<Uint64>)
    requires CutShort(b, i, v)
    ensures v != []
    ensures ReadAt(b, i) == Some((0, i, 0)) ||
      (exists next :: ReadAt(b, i) == Some((v[0], next, next - i)) && CutShort(b, next, v[1..]))
  {
    NoVarints();
    var r, w := |b| - i, Leb128(v[0]);
    assert Varints(v) == w + Varints(v[1..]);
    if r < |w| {
      assert b[i..] == w[..r];
      ShortUvarint(v[0], r);
    } else {
      var next := i + |w|;
      assert b[i..] == w + Varints(v[1..])[..r - |w|];
      UvarintRoundTrip(v[0], Varints(v[1..])[..r - |w|]);
      assert b[next..] == b[i..][|w|..] == Varints(v[1..])[..|b| - next];
      assert CutShort(b, next, v[1..]);
    }
  }

  /** The last of some reads of a header that is cut short gets nothing, wherever the cut is. */
  function ReadLast(b: seq<Byte>, i: int, count: nat): Option<(Uint64, int, int)>
    requires count > 0
    decreases count
  {
    var x := ReadAt(b, i);
    if count == 1 || x.None? then x else ReadLast(b, x.value.1, count - 1)
  }

  lemma {:induction false} ReadsNothing(b: seq<Byte>, i: int, count: nat)
    requires count > 0 && ReadAt(b, i) == Some((0, i, 0))
    ensures ReadLast(b, i, count) == Some((0, i, 0))
  {
    hide ReadAt;
    if count > 1 { ReadsNothing(b, i, count - 1); }
  }

  lemma {:induction false} LastReadIsNothing(b: seq<Byte>, i: int, v: seq<Uint64>)
    requires CutShort(b, i, v)
    ensures |v| > 0 && ReadLast(b, i, |v|).Some? && ReadLast(b, i, |v|).value.2 == 0
    decreases |v|
  {
    ReadShort(b, i, v);
    hide ReadAt, CutShort;
    if ReadAt(b, i) == Some((0, i, 0)) {
      ReadsNothing(b, i, |v|);
    } else {
      var next :| ReadAt(b, i) == Some((v[0], next, next - i)) && CutShort(b, next, v[1..]);
      LastReadIsNothing(b, next, v[1..]);
    }
  }

  lemma ReadOn(b: seq<Byte>, i: int, count: nat) returns (next: int)
    requires count > 1 && ReadLast(b, i, count).Some?
    ensures ReadAt(b, i).Some? && next == ReadAt(b, i).value.1 && ReadLast(b, next, count - 1) == ReadLast(b, i, count)
  {
    hide ReadAt;
    next := ReadAt(b, i).value.1;
  }

  lemma HeaderErrorWhenNothing(b: seq<Byte>)
    requires ReadLast(b, 0, 5).Some? && ReadLast(b, 0, 5).value.2 == 0
    ensures DecodedRaw(b).Panicked? || DecodedRaw(b).headerError
  {
    hide ReadAt, ReadLast;
    var i1 := ReadOn(b, 0, 5);
    var i2 := ReadOn(b, i1, 4);
    var i3 := ReadOn(b, i2, 3);
    var i4 := ReadOn(b, i3, 2);
    LastIsRead(b, i4);
  }

  lemma LastIsRead(b: seq<Byte>, i: int)
    ensures ReadLast(b, i, 1) == ReadAt(b, i)
  {
    hide ReadAt;
  }

  /** A record that was cut short anywhere is never read as a record: the code panics or reports the header. */
  lemma TruncatedNeverReads(c: Config, salt: Slice, hash: Slice, k: nat)
    requires k < |Record(c, salt, hash)|
    ensures DecodedRaw(Record(c, salt, hash)[..k]).Panicked? || DecodedRaw(Record(c, salt, hash)[..k]).headerError
  {
    var v := HeaderValues(c, salt, hash);
    var header, b := Header(c, salt, hash), Record(c, salt, hash)[..k];
    if k < |header| {
      assert b[0..] == b == Varints(v)[..k];
      LastReadIsNothing(b, 0, v);
      HeaderErrorWhenNothing(b);
    } else {
      TruncatedBody(c, salt, hash, k);
    }
  }

  lemma TruncatedBody(c: Config, salt: Slice, hash: Slice, k: nat)
    requires |Header(c, salt, hash)| <= k < |Record(c, salt, hash)|
    ensures DecodedRaw(Record(c, salt, hash)[..k]).Panicked?
  {
    hide Leb128, ReadAt, Varints;
    var v := HeaderValues(c, salt, hash);
    var b := Record(c, salt, hash)[..k];
    var body := (salt + hash)[..k - |Header(c, salt, hash)|];
    assert b[0..] == b == Varints(v) + body;
    assert v[1..][1..] == v[2..] && v[2..][1..] == v[3..] && v[3..][1..] == v[4..] && v[4..][1..] == [];
    var i1 := ReadOne(b, 0, v, body);
    var i2 := ReadOne(b, i1, v[1..], body);
    var i3 := ReadOne(b, i2, v[2..], body);
    var i4 := ReadOne(b, i3, v[3..], body);
    var i5 := ReadOne(b, i4, v[4..], body);
    NoVarints();
    assert b[i5..] == body;
    assert |body| < |salt| + |hash|;
  }

  /** No record is a proper prefix of another. */
  lemma RecordsPrefixFree(c: Config, salt: Slice, hash: Slice, d: Config, salt': Slice, hash': Slice, tail: seq<Byte>)
    requires Record(c, salt, hash) + tail == Record(d, salt', hash')
    ensures tail == [] && salt == salt' && hash == hash' && c.N == d.N && c.R == d.R && c.P == d.P
  {
    RawRoundTrip(c, salt, hash, tail);
    RawRoundTrip(d, salt', hash', []);
    assert Record(d, salt', hash') + [] == Record(d, salt', hash');
    assert HeaderValues(c, salt, hash) == HeaderValues(d, salt', hash');
  }

  // ----- the base64 text -----

  datatype Outcome = BadBase64 | Raw(raw: RawOutcome)

  /** None where EncodeRaw panics. */
  function EncodedText(c: Config, salt: Slice, hash: Slice): Option<string> {
    if HeaderFits(c, salt, hash) then Some(Base64.Encoded(Record(c, salt, hash))) else None
  }

  method Encode(c: Config, salt: Slice, hash: Slice) returns (r: Option<string>)
    ensures r == EncodedText(c, salt, hash)
  {
    var b := EncodeRaw(c, salt, hash);
    if b.None? {
      return None;
    }
    Base64.EncodedLength(b.value);
    var out := new char[Base64.EncodedLen(|b.value|)](_ => ' ');
    Base64.Encode(out, b.value);
    return Some(out[..]);
  }

  /** Decoding fills a buffer sized by the length of the text, so line breaks leave zero bytes at its end. */
  function DecodedText(data: string): Outcome {
    var raw := Base64.Decoded(Base64.Clean(data));
    if raw.None? then BadBase64
    else
      Base64.CleanLength(data);
      Raw(DecodedRaw(raw.value + seq(Base64.DecodedLen(|data|) - |raw.value|, _ => 0)))
  }

  method Decode(data: string) returns (r: Outcome)
    ensures r == DecodedText(data)
  {
    hide DecodedRaw, Base64.Decoded, Base64.Clean, Base64.DecodedLen;
    var b := new Byte[Base64.DecodedLen(|data|)](_ => 0);
    var n, ok := Base64.Decode(b, data);
    if !ok {
      return BadBase64;
    }
    Base64.CleanLength(data);
    assert b[..] == b[..n] + seq(Base64.DecodedLen(|data|) - n, _ => 0);
    var raw := DecodeRaw(b[..]);
    return Raw(raw);
  }

  /**
   * The full round trip: whatever Encode returns decodes to the same N, R, P, salt and hash, with the
   * lengths of the salt and the hash and without error. It does so even when the text was broken into
   * lines on the way, anywhere and with any line breaks.
   */
  lemma CodecRoundTrip(c: Config, salt: Slice, hash: Slice, data: string)
    requires EncodedText(c, salt, hash).Some? && Base64.Clean(data) == EncodedText(c, salt, hash).value
    ensures DecodedText(data) == Raw(Stored(c, salt, hash))
  {
    var raw := Record(c, salt, hash);
    Base64.DecodeEncoded(raw);
    Base64.CleanLength(data);
    RawRoundTrip(c, salt, hash, seq(Base64.DecodedLen(|data|) - |raw|, _ => 0));
  }

  lemma CodecRoundTripUnbroken(c: Config, salt: Slice, hash: Slice)
    requires EncodedText(c, salt, hash).Some?
    ensures DecodedText(EncodedText(c, salt, hash).value) == Raw(Stored(c, salt, hash))
    ensures EncodedText(c, salt, hash).value != ""
  {
    var raw := Record(c, salt, hash);
    Base64.EncodedIsClean(raw);
    Base64.CleanId(Base64.Encoded(raw));
    CodecRoundTrip(c, salt, hash, Base64.Encoded(raw));
    Base64.EncodedLength(raw);
    HeaderParts(HeaderValues(c, salt, hash));
  }
}
