/** Unpadded base64 (RFC 4648, sections 4 and 3.2) as base64.RawStdEncoding writes and reads it (auth/auth.go:78-94). */
module Base64 {
  import opened Strings
  import opened Varint

  type Sextet = v: int | 0 <= v < 64

  function EncodeChar(v: Sextet): char {
    if v < 26 then ('A' as int + v) as char
    else if v < 52 then ('a' as int + v - 26) as char
    else if v < 62 then ('0' as int + v - 52) as char
    else if v == 62 then '+' else '/'
  }

  function DecodeChar(c: char): Option<Sextet> {
    if 'A' <= c <= 'Z' then Some(c as int - 'A' as int)
    else if 'a' <= c <= 'z' then Some(c as int - 'a' as int + 26)
    else if '0' <= c <= '9' then Some(c as int - '0' as int + 52)
    else if c == '+' then Some(62) else if c == '/' then Some(63) else None
  }

  lemma CharRoundTrip(v: Sextet)
    ensures DecodeChar(EncodeChar(v)) == Some(v)
  {
  }

  // ----- three bytes, four characters -----

  const TwoTo24: nat := 16777216

  /** Three bytes, shifted into one 24-bit word. */
  function Pack3(a: Byte, b: Byte, c: Byte): (v: nat)
    ensures v < TwoTo24
  {
    (a * 256 + b) * 256 + c
  }

  /** Four digits, shifted into one 24-bit word. */
  function Pack4(d0: Sextet, d1: Sextet, d2: Sextet, d3: Sextet): (v: nat)
    ensures v < TwoTo24
  {
    ((d0 * 64 + d1) * 64 + d2) * 64 + d3
  }

  /** The word six bits at a time. */
  function Sextets(v: nat): (d: seq<Sextet>)
    requires v < TwoTo24
    ensures |d| == 4
  {
    [v / 64 / 64 / 64, v / 64 / 64 % 64, v / 64 % 64, v % 64]
  }

  /** The word eight bits at a time. */
  function Bytes(v: nat): (b: seq<Byte>)
    requires v < TwoTo24
    ensures |b| == 3
  {
    [v / 256 / 256, v / 256 % 256, v % 256]
  }

  lemma PackSextets(v: nat)
    requires v < TwoTo24
    ensures var d := Sextets(v); Pack4(d[0], d[1], d[2], d[3]) == v
  {
    var a := v / 64;
    var b := a / 64;
    assert v == a * 64 + v % 64 && a == b * 64 + a % 64 && b == b / 64 * 64 + b % 64;
  }

  lemma PackBytes(a: Byte, b: Byte, c: Byte)
    ensures Bytes(Pack3(a, b, c)) == [a, b, c]
  {
    var v := a * 256 + b;
    assert (v * 256 + c) / 256 == v && (v * 256 + c) % 256 == c;
    assert v / 256 == a && v % 256 == b;
  }

  /** Digit `k`; missing trailing digits count as zero. */
  function Digit(d: seq<Sextet>, k: nat): Sextet {
    if k < |d| then d[k] else 0
  }

  function Chars(d: seq<Sextet>): string {
    seq(|d|, i requires 0 <= i < |d| => EncodeChar(d[i]))
  }

  // ----- encoding -----

  function EncodedLen(n: nat): nat {
    (n * 8 + 5) / 6
  }

  function DecodedLen(n: nat): nat {
    n * 6 / 8
  }

  /** The characters of `src`: four for every three bytes, and two or three for a tail of one or two. */
  function Encoded(src: seq<Byte>): string {
    if |src| >= 3 then Chars(Sextets(Pack3(src[0], src[1], src[2]))) + Encoded(src[3..])
    else if |src| == 2 then Chars(Sextets(Pack3(src[0], src[1], 0))[..3])
    else if |src| == 1 then Chars(Sextets(Pack3(src[0], 0, 0))[..2])
    else ""
  }

  lemma {:induction false} EncodedLength(src: seq<Byte>)
    ensures |Encoded(src)| == EncodedLen(|src|)
    decreases |src|
  {
    if |src| >= 3 { EncodedLength(src[3..]); }
  }

  /** The buffer made for decoding is exactly as long as what was encoded. */
  lemma DecodedLenOfEncodedLen(n: nat)
    ensures DecodedLen(EncodedLen(n)) == n
  {
    var q, r := n / 6, n % 6;
  }

  /** The characters of one word, as many as there is room or need for. */
  method Put(dst: array<char>, di: nat, val: nat, count: nat)
    requires val < TwoTo24 && 2 <= count <= 4 && di + count <= dst.Length
    modifies dst
    ensures dst[..di + count] == old(dst[..di]) + Chars(Sextets(val)[..count])
  {
    ghost var d := Sextets(val);
    ghost var c := Chars(d[..count]);
    assert forall k :: 0 <= k < count ==> c[k] == EncodeChar(d[k]);
    dst[di] := EncodeChar(val / 64 / 64 / 64);
    dst[di + 1] := EncodeChar(val / 64 / 64 % 64);
    if count > 2 {
      dst[di + 2] := EncodeChar(val / 64 % 64);
    }
    if count > 3 {
      dst[di + 3] := EncodeChar(val % 64);
    }
  }

  function WholeGroups(n: nat): (q: nat)
    ensures 3 * q <= n < 3 * q + 3
  {
    n / 3
  }

  /** What is still to be written when the first `si` bytes are done. */
  function Remaining(src: seq<Byte>, si: nat): string
    requires si <= |src|
  {
    Encoded(src[si..])
  }

  /** What is written so far and what remains make up `text`, and the buffer has room for just that. */
  ghost predicate Joins(dst: array<char>, di: nat, rest: string, text: string)
    reads dst
  {
    di + |rest| == dst.Length && dst[..di] + rest == text
  }

  lemma AllRemaining(dst: array<char>, src: seq<Byte>)
    requires dst.Length == |Encoded(src)|
    ensures Joins(dst, 0, Remaining(src, 0), Encoded(src))
    ensures src == [] ==> dst[..] == Encoded(src)
  {
    assert src[0..] == src && dst[..0] == [];
  }

  method Encode(dst: array<char>, src: seq<Byte>)
    requires dst.Length == |Encoded(src)|
    modifies dst
    ensures dst[..] == Encoded(src)
  {
    hide Encoded, Remaining, WholeGroups, Joins;
    AllRemaining(dst, src);
    if |src| == 0 {
      return;
    }
    var di, si := 0, 0;
    var n := WholeGroups(|src|) * 3;
    ghost var groups := 0;
    while si < n
      invariant 0 <= si <= n && si == 3 * groups && 0 <= di
      invariant Joins(dst, di, Remaining(src, si), Encoded(src))
    {
      EncodeGroup(dst, di, src, si, Encoded(src));
      si := si + 3;
      di := di + 4;
      groups := groups + 1;
    }
    EncodeRemaining(dst, di, src, si, Encoded(src));
  }

  /** The next three bytes. */
  method EncodeGroup(dst: array<char>, di: nat, src: seq<Byte>, si: nat, ghost text: string)
    requires si + 3 <= |src| && Joins(dst, di, Remaining(src, si), text)
    modifies dst
    ensures Joins(dst, di + 4, Remaining(src, si + 3), text)
  {
    hide Encoded, Chars, Sextets, Pack3;
    EncodeStep(src, si);
    var val := Pack3(src[si], src[si + 1], src[si + 2]);
    Put(dst, di, val, 4);
    Assoc(old(dst[..di]), Chars(Sextets(val)[..4]), Encoded(src[si + 3..]));
  }

  /** The one or two bytes that are left over. */
  method EncodeRemaining(dst: array<char>, di: nat, src: seq<Byte>, si: nat, ghost text: string)
    requires si <= |src| <= si + 2 && Joins(dst, di, Remaining(src, si), text)
    modifies dst
    ensures dst[..] == text
  {
    var remain := |src| - si;
    if remain == 0 {
      assert dst[..di] == dst[..];
      return;
    }
    EncodeTail(src, si);
    var val := if remain == 2 then Pack3(src[si], src[si + 1], 0) else Pack3(src[si], 0, 0);
    Put(dst, di, val, remain + 1);
    assert dst[..] == dst[..di + remain + 1];
  }

  lemma EncodeStep(src: seq<Byte>, si: nat)
    requires si + 3 <= |src|
    ensures var c := Chars(Sextets(Pack3(src[si], src[si + 1], src[si + 2]))[..4]);
      Encoded(src[si..]) == c + Encoded(src[si + 3..]) && |c| == 4
  {
    var d := Sextets(Pack3(src[si], src[si + 1], src[si + 2]));
    assert src[si..][3..] == src[si + 3..] && d[..4] == d;
  }

  lemma EncodeTail(src: seq<Byte>, si: nat)
    requires si < |src| <= si + 2
    ensures |src| == si + 1 ==>
      Encoded(src[si..]) == Chars(Sextets(Pack3(src[si], 0, 0))[..2]) && |Encoded(src[si..])| == 2
    ensures |src| == si + 2 ==>
      Encoded(src[si..]) == Chars(Sextets(Pack3(src[si], src[si + 1], 0))[..3]) && |Encoded(src[si..])| == 3
  {
  }

  // ----- decoding -----

  predicate IsNewline(c: char) {
    c == '\r' || c == '\n'
  }

  /** The text without line breaks, which decoding skips. */
  function Clean(s: string): string {
    if s == "" then "" else (if IsNewline(s[0]) then "" else [s[0]]) + Clean(s[1..])
  }

  /** The digits of leading characters, up to `max` of them, stopping at a character that is no digit. */
  function Digits(s: string, max: nat): (d: seq<Sextet>)
    ensures |d| <= |s| && |d| <= max
  {
    if max == 0 || s == "" || DecodeChar(s[0]).None? then []
    else [DecodeChar(s[0]).value] + Digits(s[1..], max - 1)
  }

  /** Bytes for one group of two to four digits. */
  function GroupBytes(d: seq<Sextet>): seq<Byte>
    requires 2 <= |d| <= 4
  {
    Bytes(Pack4(Digit(d, 0), Digit(d, 1), Digit(d, 2), Digit(d, 3)))[..|d| - 1]
  }

  /** The bytes that text without line breaks stands for; None when it is not base64. */
  function Decoded(s: string): (r: Option<seq<Byte>>)
    ensures r.Some? ==> |r.value| == DecodedLen(|s|)
    decreases |s|
  {
    var d := Digits(s, 4);
    if s == "" then Some([])
    else if |d| == 4 then
      var rest := Decoded(s[4..]);
      if rest.None? then None else Some(GroupBytes(d) + rest.value)
    else if |d| == |s| && |d| >= 2 then Some(GroupBytes(d))
    else None
  }

  lemma CleanStep(src: string, si: nat)
    requires si < |src|
    ensures Clean(src[si..]) == (if IsNewline(src[si]) then "" else [src[si]]) + Clean(src[si + 1..])
  {
    assert src[si..][1..] == src[si + 1..];
  }

  lemma DigitsStep(c: char, s: string, k: nat)
    requires k > 0
    ensures Digits([c] + s, k) == if DecodeChar(c).None? then [] else [DecodeChar(c).value] + Digits(s, k - 1)
  {
    assert ([c] + s)[1..] == s;
  }

  /** Reads up to four digits from `start` on, skipping line breaks; `bad` is a character that is neither. */
  method ReadDigits(src: string, start: nat) returns (si: nat, d: seq<Sextet>, bad: bool)
    requires start <= |src|
    ensures start + |d| <= si <= |src| && d == Digits(Clean(src[start..]), 4)
    ensures !bad ==> |d| <= |Clean(src[start..])| && Clean(src[si..]) == Clean(src[start..])[|d|..]
    ensures !bad && |d| < 4 ==> si == |src|
    ensures bad ==> |d| < 4 && |d| < |Clean(src[start..])|
  {
    hide DecodeChar, Digits, Clean, IsNewline;
    si, d, bad := start, [], false;
    ghost var all := Clean(src[start..]);
    while |d| < 4 && si < |src|
      invariant start + |d| <= si <= |src| && |d| <= 4 && |d| <= |all|
      invariant all[|d|..] == Clean(src[si..])
      invariant d + Digits(Clean(src[si..]), 4 - |d|) == Digits(all, 4)
    {
      var c := src[si];
      CleanStep(src, si);
      if IsNewline(c) {
        assert Clean(src[si..]) == Clean(src[si + 1..]);
        si := si + 1;
      } else {
        DigitsStep(c, Clean(src[si + 1..]), 4 - |d|);
        var out := DecodeChar(c);
        if out.None? {
          bad := true;
          return;
        }
        assert all[|d| + 1..] == all[|d|..][1..];
        d := d + [out.value];
        si := si + 1;
      }
    }
    CleanEmpty(src, si);
    NoDigits(Clean(src[si..]), 4 - |d|);
    assert d + [] == d;
  }

  lemma NoDigits(s: string, k: nat)
    ensures s == "" || k == 0 ==> Digits(s, k) == []
  {
  }

  lemma DecodedStep(text: string, d: seq<Sextet>)
    requires d == Digits(text, 4)
    ensures |d| < 2 && text != "" ==> Decoded(text).None?
    ensures |d| < 4 && |d| < |text| ==> Decoded(text).None?
    ensures 2 <= |d| == |text| ==> Decoded(text) == Some(GroupBytes(d)) || |d| == 4
    ensures |d| == 4 ==> Decoded(text) == Prepend(GroupBytes(d), Decoded(text[4..]))
  {
  }

  /** The bytes of one group of digits. */
  method PutBytes(dst: array<Byte>, n: nat, d: seq<Sextet>)
    requires 2 <= |d| <= 4 && n + |d| - 1 <= dst.Length
    modifies dst
    ensures dst[..n + |d| - 1] == old(dst[..n]) + GroupBytes(d)
    ensures forall k :: n + |d| - 1 <= k < dst.Length ==> dst[k] == old(dst[k])
  {
    var bytes := Bytes(Pack4(Digit(d, 0), Digit(d, 1), Digit(d, 2), Digit(d, 3)));
    if |d| == 4 {
      dst[n + 2] := bytes[2];
    }
    if |d| >= 3 {
      dst[n + 1] := bytes[1];
    }
    dst[n] := bytes[0];
  }

  /**
   * The decoding loop, one quantum of four characters at a time. The library's shortcut for whole words
   * of valid characters gives the same bytes and is not modelled.
   */
  method Decode(dst: array<Byte>, src: string) returns (n: nat, ok: bool)
    requires dst.Length == DecodedLen(|src|)
    modifies dst
    ensures ok <==> Decoded(Clean(src)).Some?
    ensures ok ==> n <= dst.Length && dst[..n] == Decoded(Clean(src)).value && dst[n..] == old(dst[n..])
  {
    hide Digits, Clean, Decoded, GroupBytes, DecodedLen;
    n, ok := 0, true;
    ghost var groups := 0;
    var si := 0;
    ghost var want := Decoded(Clean(src));
    assert src[0..] == src;
    assert want.Some? ==> dst[..0] + want.value == want.value;
    while si < |src|
      invariant 0 <= si <= |src| && (si < |src| ==> n == 3 * groups && 4 * groups <= si)
      invariant n <= dst.Length && forall k :: n <= k < dst.Length ==> dst[k] == old(dst[k])
      invariant want == Prepend(dst[..n], Decoded(Clean(src[si..])))
    {
      ghost var done, text := dst[..n], Clean(src[si..]);
      var next, d, bad := ReadDigits(src, si);
      DecodedStep(text, d);
      CleanEmpty(src, next);
      if bad || |d| == 1 {
        return n, false;
      } else if |d| > 0 {
        DecodedRoom(|src|, groups, |d|);
        PutBytes(dst, n, d);
        PrependTwice(done, GroupBytes(d), Decoded(Clean(src[next..])));
        assert |d| < 4 ==> GroupBytes(d) + [] == GroupBytes(d);
        n := n + |d| - 1;
        groups := groups + 1;
      }
      si := next;
    }
    CleanEmpty(src, si);
  }

  /** Room in the buffer for what `groups` whole groups and one of `k` characters decode to. */
  lemma DecodedRoom(len: nat, groups: nat, k: nat)
    requires 4 * groups + k <= len && 2 <= k <= 4
    ensures 3 * groups + k - 1 <= DecodedLen(len)
  {
  }

  function Prepend(a: seq<Byte>, rest: Option<seq<Byte>>): Option<seq<Byte>> {
    if rest.None? then None else Some(a + rest.value)
  }

  lemma PrependTwice(a: seq<Byte>, b: seq<Byte>, rest: Option<seq<Byte>>)
    ensures Prepend(a, Prepend(b, rest)) == Prepend(a + b, rest)
  {
    if rest.Some? { assert a + (b + rest.value) == a + b + rest.value; }
  }

  lemma CleanEmpty(src: string, si: nat)
    requires si <= |src|
    ensures si == |src| ==> Clean(src[si..]) == "" && Decoded("") == Some([])
  {
  }

  lemma {:induction false} DigitsOfChars(d: seq<Sextet>, s: string, max: nat)
    requires |d| <= max
    ensures Digits(Chars(d) + s, max) == d + Digits(s, max - |d|)
  {
    if d == [] {
      assert Chars(d) + s == s;
    } else {
      assert Chars(d) == [EncodeChar(d[0])] + Chars(d[1..]);
      CharRoundTrip(d[0]);
      assert (Chars(d) + s)[1..] == Chars(d[1..]) + s;
      DigitsOfChars(d[1..], s, max - 1);
    }
  }

  lemma GroupRoundTrip(a: Byte, b: Byte, c: Byte, k: nat)
    requires 1 <= k <= 3 && (k < 3 ==> c == 0) && (k < 2 ==> b == 0)
    ensures GroupBytes(Sextets(Pack3(a, b, c))[..k + 1]) == [a, b, c][..k]
  {
    var v := Pack3(a, b, c);
    PackBytes(a, b, c);
    PackSextets(v);
    TailDigits(a, b, c);
  }

  /** The digits past a short tail are zero. */
  lemma TailDigits(a: Byte, b: Byte, c: Byte)
    ensures c == 0 ==> Sextets(Pack3(a, b, c))[3] == 0
    ensures c == 0 && b == 0 ==> Sextets(Pack3(a, b, c))[2] == 0
  {
    if c == 0 {
      assert (a * 256 + b) * 4 * 64 / 64 == (a * 256 + b) * 4;
      assert b == 0 ==> a * 16 * 64 / 64 == a * 16;
    }
  }

  lemma DecodeGroup(a: Byte, b: Byte, c: Byte, rest: string)
    requires Decoded(rest).Some?
    ensures Decoded(Chars(Sextets(Pack3(a, b, c))) + rest) == Some([a, b, c] + Decoded(rest).value)
  {
    var d := Sextets(Pack3(a, b, c));
    var s := Chars(d) + rest;
    GroupRoundTrip(a, b, c, 3);
    assert d[..4] == d;
    DigitsOfChars(d, rest, 4);
    assert Digits(s, 4) == d + [];
    assert [a, b, c][..3] == [a, b, c];
    assert s[4..] == rest;
  }

  lemma DecodeTail(a: Byte, b: Byte, k: nat)
    requires 1 <= k <= 2 && (k == 1 ==> b == 0)
    ensures Decoded(Chars(Sextets(Pack3(a, b, 0))[..k + 1])) == Some([a, b][..k])
  {
    var d := Sextets(Pack3(a, b, 0))[..k + 1];
    GroupRoundTrip(a, b, 0, k);
    DigitsOfChars(d, "", 4);
    assert Chars(d) + "" == Chars(d);
    assert [a, b, 0][..k] == [a, b][..k];
  }

  /** Decoding gives back what was encoded, with tails of no, one and two bytes. */
  lemma {:induction false} DecodeEncoded(src: seq<Byte>)
    ensures Decoded(Encoded(src)) == Some(src)
    decreases |src|
  {
    if |src| >= 3 {
      DecodeEncoded(src[3..]);
      DecodeGroup(src[0], src[1], src[2], Encoded(src[3..]));
      assert [src[0], src[1], src[2]] + src[3..] == src;
    } else if |src| == 2 {
      DecodeTail(src[0], src[1], 2);
      assert [src[0], src[1]][..2] == src;
    } else if |src| == 1 {
      DecodeTail(src[0], 0, 1);
      assert [src[0], 0][..1] == src;
    }
  }

  /** Encoded text has no line breaks. */
  lemma {:induction false} EncodedIsClean(src: seq<Byte>)
    ensures forall k :: 0 <= k < |Encoded(src)| ==> !IsNewline(Encoded(src)[k])
    decreases |src|
  {
    forall v: Sextet ensures !IsNewline(EncodeChar(v)) {}
    if |src| >= 3 { EncodedIsClean(src[3..]); }
  }

  lemma {:induction false} CleanId(s: string)
    requires forall k :: 0 <= k < |s| ==> !IsNewline(s[k])
    ensures Clean(s) == s
  {
    if s != "" { CleanId(s[1..]); }
  }

  lemma {:induction false} CleanConcat(a: string, b: string)
    ensures Clean(a + b) == Clean(a) + Clean(b)
  {
    if a == "" {
      assert a + b == b;
    } else {
      CleanConcat(a[1..], b);
      assert (a + b)[0] == a[0] && (a + b)[1..] == a[1..] + b;
      Assoc(if IsNewline(a[0]) then "" else [a[0]], Clean(a[1..]), Clean(b));
    }
  }

  lemma CleanBreaks(c: char)
    ensures Clean("\r\n") == "" && Clean("\n") == "" && Clean("\r") == ""
    ensures c != '\r' && c != '\n' ==> Clean([c]) == [c]
  {
    assert "\r\n"[1..] == "\n" && "\n"[1..] == "" && "\r"[1..] == "" && [c][1..] == "";
    assert Clean("") == "" && Clean("\n") == "";
  }

  lemma CleanAround(a: string, middle: string, b: string)
    ensures Clean(a + middle + b) == Clean(a) + Clean(middle) + Clean(b)
  {
    hide Clean;
    CleanConcat(a + middle, b);
    CleanConcat(a, middle);
  }

  /** A line break put in anywhere is skipped, whether it is CR, LF or both; any other character counts. */
  lemma LineBreaksSkipped(a: string, b: string, c: char)
    ensures Clean(a + "\r\n" + b) == Clean(a + "\n" + b) == Clean(a + "\r" + b) == Clean(a + b)
    ensures c != '\r' && c != '\n' ==> Clean(a + [c] + b) == Clean(a) + [c] + Clean(b)
  {
    hide Clean;
    CleanBreaks(c);
    CleanAround(a, "\r\n", b);
    CleanAround(a, "\n", b);
    CleanAround(a, "\r", b);
    CleanAround(a, [c], b);
    CleanConcat(a, b);
    assert Clean(a) + "" == Clean(a);
  }

  /** Dropping line breaks can only shorten what decodes. */
  lemma CleanLength(s: string)
    ensures |Clean(s)| <= |s| && DecodedLen(|Clean(s)|) <= DecodedLen(|s|)
  {
    CleanShorter(s);
  }

  lemma {:induction false} CleanShorter(s: string)
    ensures |Clean(s)| <= |s|
  {
    if s != "" { CleanShorter(s[1..]); }
  }

  // ----- exactly which text decodes, and to what -----

  /** The alphabet of section 4 of RFC 4648: capital letters, small letters, digits, plus and slash, each in order. */
  lemma AlphabetInOrder(v: Sextet)
    ensures EncodeChar(0) == 'A' && EncodeChar(25) == 'Z' && EncodeChar(26) == 'a' && EncodeChar(51) == 'z'
    ensures EncodeChar(52) == '0' && EncodeChar(61) == '9' && EncodeChar(62) == '+' && EncodeChar(63) == '/'
    ensures v != 25 && v != 51 && v < 61 ==> EncodeChar(v + 1) as int == EncodeChar(v) as int + 1
  {
  }

  /** Decoding a character is the inverse of encoding a digit, and is defined on nothing else. */
  lemma DecodeCharExact(c: char, v: Sextet)
    ensures DecodeChar(c) == Some(v) <==> EncodeChar(v) == c
  {
  }

  lemma BytesOfWord(v: nat)
    requires v < TwoTo24
    ensures var b := Bytes(v); Pack3(b[0], b[1], b[2]) == v
  {
    var a := v / 256;
    assert v == a * 256 + v % 256 && a == a / 256 * 256 + a % 256;
  }

  lemma SextetsOfWord(d: seq<Sextet>)
    requires |d| == 4
    ensures Sextets(Pack4(d[0], d[1], d[2], d[3])) == d
  {
    var x0: nat, x1: nat, x2: nat, x3: nat := d[0], d[1], d[2], d[3];
    var a := x0 * 64 + x1;
    var b := a * 64 + x2;
    assert (b * 64 + x3) / 64 == b && (b * 64 + x3) % 64 == x3;
    assert b / 64 == a && b % 64 == x2 && a / 64 == x0 && a % 64 == x1;
  }

  /** What is left of a digit when its unused low bits are cleared. */
  function Cleared(d: Sextet, unused: nat): Sextet
    requires unused == 4 || unused == 16
  {
    d / unused * unused
  }

  /** Encoding a whole group of decoded digits again. */
  lemma WholeAgain(d: seq<Sextet>)
    requires |d| == 4
    ensures var b := GroupBytes(d); |b| == 3 && Sextets(Pack3(b[0], b[1], b[2])) == d
  {
    var v := Pack4(d[0], d[1], d[2], d[3]);
    BytesOfWord(v);
    SextetsOfWord(d);
    assert Bytes(v)[..3] == Bytes(v);
  }

  /** The byte in two digits, and the digits in it. */
  lemma ByteInTwo(x: nat, y: nat)
    requires x < 64 && y < 64
    ensures (x * 64 + y) * 4096 / 256 / 256 == x * 4 + y / 16 < 256
    ensures var w := (x * 4 + y / 16) * 65536; w / 64 / 64 / 64 == x && w / 64 / 64 % 64 == y / 16 * 16
  {
    assert (x * 64 + y) * 4096 / 256 == (x * 64 + y) * 16;
    assert (x * 64 + y) * 16 / 256 == (x * 64 + y) / 16;
    assert (x * 4 + y / 16) * 65536 / 64 == (x * 4 + y / 16) * 1024;
    assert (x * 4 + y / 16) * 1024 / 64 == (x * 4 + y / 16) * 16;
  }

  lemma TwoAgain(d: seq<Sextet>)
    requires |d| == 2
    ensures var b := GroupBytes(d); |b| == 1 && Sextets(Pack3(b[0], 0, 0))[..2] == [d[0], Cleared(d[1], 16)]
  {
    ByteInTwo(d[0], d[1]);
  }

  lemma BytesInThree(x: nat, y: nat, z: nat)
    requires x < 64 && y < 64 && z < 64
    ensures var u := (x * 64 + y) * 64 + z;
      var v := u * 64;
      && v / 256 / 256 * 256 + v / 256 % 256 == u / 4
      && u / 4 == (x * 64 + y) * 16 + z / 4
    ensures var w := ((x * 64 + y) * 16 + z / 4) * 256;
      w / 64 / 64 / 64 == x && w / 64 / 64 % 64 == y && w / 64 % 64 == z / 4 * 4
  {
    var p, q := x * 64 + y, z / 4;
    var u := p * 64 + z;
    assert u * 64 / 256 == u / 4 && u / 4 == p * 16 + q;
    var w := (p * 16 + q) * 256;
    assert w / 64 == (p * 16 + q) * 4 == p * 64 + q * 4;
    assert (p * 64 + q * 4) / 64 == p && (p * 64 + q * 4) % 64 == q * 4;
    assert p / 64 == x && p % 64 == y;
  }

  lemma ThreeAgain(d: seq<Sextet>)
    requires |d| == 3
    ensures var b := GroupBytes(d); |b| == 2 && Sextets(Pack3(b[0], b[1], 0))[..3] == [d[0], d[1], Cleared(d[2], 4)]
  {
    BytesInThree(d[0], d[1], d[2]);
  }

  predicate AllDecode(s: string) {
    forall k :: 0 <= k < |s| ==> DecodeChar(s[k]).Some?
  }

  /** The text with the unused bits of a short last group cleared; whole groups have none. */
  function Rounded(s: string): string
    requires AllDecode(s)
  {
    var last := |s| - 1;
    if |s| % 4 == 2 then s[..last] + [EncodeChar(Cleared(DecodeChar(s[last]).value, 16))]
    else if |s| % 4 == 3 then s[..last] + [EncodeChar(Cleared(DecodeChar(s[last]).value, 4))]
    else s
  }

  /** `d` are the digits of the whole text. */
  predicate DigitsAre(s: string, d: seq<Sextet>) {
    |d| == |s| && forall k :: 0 <= k < |s| ==> DecodeChar(s[k]) == Some(d[k])
  }

  lemma {:induction false} DigitsExact(s: string, max: nat)
    requires |s| <= max
    ensures |Digits(s, max)| == |s| <==> AllDecode(s)
    ensures AllDecode(s) ==> DigitsAre(s, Digits(s, max))
  {
    if s != "" {
      DigitsExact(s[1..], max - 1);
      assert forall k :: 0 < k < |s| ==> s[k] == s[1..][k - 1];
      if AllDecode(s) {
        assert forall k :: 0 <= k < |s[1..]| ==> s[1..][k] == s[k + 1];
      }
    }
  }

  lemma {:induction false} DigitsOfFront(s: string, max: nat)
    requires max <= |s|
    ensures Digits(s, max) == Digits(s[..max], max)
  {
    if max > 0 {
      assert s[1..][..max - 1] == s[..max][1..];
      DigitsOfFront(s[1..], max - 1);
    }
  }

  lemma CharsOf(s: string, d: seq<Sextet>)
    requires DigitsAre(s, d)
    ensures Chars(d) == s
  {
    forall k | 0 <= k < |s| ensures EncodeChar(d[k]) == s[k] { DecodeCharExact(s[k], d[k]); }
  }

  lemma DecodeShort(s: string, d: seq<Sextet>)
    requires 2 <= |s| <= 3 && Digits(s, 4) == d && |d| == |s|
    ensures Decoded(s) == Some(GroupBytes(d))
  {
    hide Digits, GroupBytes;
  }

  /** The digits that a short group of bytes is written with. */
  function ShortDigits(b: seq<Byte>): seq<Sextet>
    requires 1 <= |b| <= 2
  {
    if |b| == 1 then Sextets(Pack3(b[0], 0, 0))[..2] else Sextets(Pack3(b[0], b[1], 0))[..3]
  }

  lemma EncodeShort(b: seq<Byte>)
    requires 1 <= |b| <= 2
    ensures Encoded(b) == Chars(ShortDigits(b))
  {
    hide Chars, Sextets, Pack3;
  }

  lemma ShortAgain(d: seq<Sextet>)
    requires 2 <= |d| <= 3
    ensures var b, last := GroupBytes(d), |d| - 1;
      |b| == last && ShortDigits(b) == d[..last] + [Cleared(d[last], Unused(|d|))]
  {
    hide Sextets, Pack3, GroupBytes, Cleared;
    if |d| == 2 { TwoAgain(d); } else { ThreeAgain(d); }
  }

  lemma CharsSnoc(d: seq<Sextet>, x: Sextet)
    ensures Chars(d + [x]) == Chars(d) + [EncodeChar(x)]
  {
    hide EncodeChar;
  }

  function Unused(n: nat): nat {
    if n == 2 then 16 else 4
  }

  lemma RoundedShort(s: string, d: seq<Sextet>)
    requires 2 <= |s| <= 3 && DigitsAre(s, d)
    ensures var last := |s| - 1;
      AllDecode(s) && Rounded(s) == Chars(d[..last] + [Cleared(d[last], Unused(|s|))])
  {
    var last := |s| - 1;
    assert DigitsAre(s[..last], d[..last]);
    CharsOf(s[..last], d[..last]);
    CharsSnoc(d[..last], Cleared(d[last], Unused(|s|)));
    hide EncodeChar, DecodeChar, Cleared, Chars;
  }

  /** A short last group: what it decodes to is encoded with the unused bits cleared. */
  lemma TailExact(s: string)
    requires 2 <= |s| <= 3 && AllDecode(s)
    ensures Decoded(s).Some? && Encoded(Decoded(s).value) == Rounded(s)
  {
    var d := Digits(s, 4);
    DigitsExact(s, 4);
    hide Decoded, Encoded, GroupBytes, ShortDigits, Chars, Digits, Cleared, Rounded, AllDecode;
    RoundedShort(s, d);
    DecodeShort(s, d);
    ShortAgain(d);
    EncodeShort(GroupBytes(d));
  }

  /** A whole group comes back as it was. */
  lemma GroupExact(s: string, d: seq<Sextet>, rest: seq<Byte>)
    requires |s| == 4 && DigitsAre(s, d)
    ensures Encoded(GroupBytes(d) + rest) == s + Encoded(rest)
  {
    var b := GroupBytes(d);
    WholeAgain(d);
    CharsOf(s, d);
    assert (b + rest)[3..] == rest;
  }

  lemma RoundedFront(s: string)
    requires |s| >= 4 && AllDecode(s)
    ensures AllDecode(s[4..]) && Rounded(s) == s[..4] + Rounded(s[4..])
  {
    var r := s[4..];
    assert |r| % 4 == |s| % 4;
    assert s == s[..4] + r;
    if |r| > 0 { assert s[..|s| - 1] == s[..4] + r[..|r| - 1] && s[|s| - 1] == r[|r| - 1]; }
  }

  lemma DecodeLong(s: string)
    requires |s| >= 4
    ensures var d, rest := Digits(s[..4], 4), Decoded(s[4..]);
      Decoded(s) == if |d| == 4 && rest.Some? then Some(GroupBytes(d) + rest.value) else None
  {
    DigitsOfFront(s, 4);
    hide Digits, GroupBytes;
  }

  lemma AllDecodeFront(s: string)
    requires |s| >= 4
    ensures AllDecode(s) <==> AllDecode(s[..4]) && AllDecode(s[4..])
  {
    var a, b := s[..4], s[4..];
    assert forall k :: 4 <= k < |s| ==> s[k] == b[k - 4];
  }

  /** Whole groups of four, and a last one of two or three. */
  predicate PossibleLength(n: nat) {
    n % 4 != 1
  }

  lemma Lengths(n: nat)
    ensures n >= 4 ==> PossibleLength(n) == PossibleLength(n - 4)
    ensures n < 4 ==> (PossibleLength(n) <==> n != 1)
  {
  }

  lemma DecodeTooShort(s: string)
    requires |s| < 4 && !(AllDecode(s) && |s| >= 2)
    ensures s != "" ==> Decoded(s).None?
    ensures s == "" ==> Decoded(s) == Some([]) && Encoded([]) == ""
  {
    DigitsExact(s, 4);
    hide Digits, GroupBytes;
  }

  /**
   * Text without line breaks decodes exactly when all its characters are of the alphabet and its length
   * is no single character past whole groups; and encoding the bytes again gives the text, but for the
   * unused bits of its last character.
   */
  lemma {:induction false} DecodedExact(s: string)
    ensures Decoded(s).Some? <==> AllDecode(s) && PossibleLength(|s|)
    ensures Decoded(s).Some? ==> Encoded(Decoded(s).value) == Rounded(s)
    decreases |s|
  {
    hide Decoded, Encoded, Digits, GroupBytes, AllDecode, Rounded, PossibleLength;
    Lengths(|s|);
    if |s| >= 4 {
      var front, rest := s[..4], s[4..];
      DecodedExact(rest);
      DecodeLong(s);
      DigitsExact(front, 4);
      AllDecodeFront(s);
      if AllDecode(s) && Decoded(rest).Some? {
        GroupExact(front, Digits(front, 4), Decoded(rest).value);
        RoundedFront(s);
      }
    } else if AllDecode(s) && |s| >= 2 {
      TailExact(s);
    } else {
      DecodeTooShort(s);
      ShortRounded(s);
    }
  }

  lemma ShortRounded(s: string)
    ensures s == "" ==> AllDecode(s) && Rounded(s) == ""
  {
  }
}
