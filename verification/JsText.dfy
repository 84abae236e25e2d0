/** JavaScript strings: sequences of UTF-16 code units, and what the codecs need of them. */
module JsText {
  type Unit = x: int | 0 <= x < 0x1_0000
  type Byte = x: int | 0 <= x < 256
  type JsString = seq<Unit>

  predicate IsHigh(u: int) { 0xD800 <= u < 0xDC00 }

  predicate IsLow(u: int) { 0xDC00 <= u < 0xE000 }

  predicate IsSurrogate(u: int) { 0xD800 <= u < 0xE000 }

  predicate StartsWithPair(s: JsString) {
    |s| >= 2 && IsHigh(s[0]) && IsLow(s[1])
  }

  /** No lone surrogate anywhere: what the Unicode standard calls a well-formed string. */
  predicate WellFormed(s: JsString) {
    s == [] ||
    if StartsWithPair(s) then WellFormed(s[2..]) else !IsSurrogate(s[0]) && WellFormed(s[1..])
  }

  lemma {:induction false} WellFormedConcat(a: JsString, b: JsString)
    requires WellFormed(a) && WellFormed(b)
    ensures WellFormed(a + b)
  {
    if a == [] {
      assert a + b == b;
    } else if StartsWithPair(a) {
      WellFormedConcat(a[2..], b);
      assert (a + b)[2..] == a[2..] + b;
    } else {
      WellFormedConcat(a[1..], b);
      assert (a + b)[1..] == a[1..] + b;
    }
  }

  lemma {:induction false} AsciiWellFormed(s: JsString)
    requires forall i :: 0 <= i < |s| ==> s[i] < 128
    ensures WellFormed(s)
  {
    if s != [] {
      AsciiWellFormed(s[1..]);
    }
  }

  /** The code point written by a surrogate pair. */
  function PairPoint(high: Unit, low: Unit): (c: int)
    requires IsHigh(high) && IsLow(low)
    ensures 0x1_0000 <= c < 0x11_0000
  {
    0x1_0000 + (high - 0xD800) * 0x400 + (low - 0xDC00)
  }

  /** UTF-16 form of one code point. */
  function Utf16(c: int): (s: JsString)
    requires 0 <= c < 0x11_0000
    ensures |s| == if c < 0x1_0000 then 1 else 2
  {
    if c < 0x1_0000 then [c]
    else [0xD800 + (c - 0x1_0000) / 0x400, 0xDC00 + (c - 0x1_0000) % 0x400]
  }

  lemma PairRoundTrip(high: Unit, low: Unit)
    requires IsHigh(high) && IsLow(low)
    ensures Utf16(PairPoint(high, low)) == [high, low]
  {
  }

  /** ASCII text of a Dafny string literal. */
  function Lit(s: string): (r: JsString)
    requires forall i :: 0 <= i < |s| ==> s[i] as int < 128
    ensures |r| == |s| && forall i :: 0 <= i < |s| ==> r[i] == s[i] as int && r[i] < 128
  {
    seq(|s|, i requires 0 <= i < |s| => s[i] as int)
  }

  // Letters and digits, written out

  const UPPER := "ABCDEFGHIJKLMNOPQRSTUVWXYZ"
  const LOWER := "abcdefghijklmnopqrstuvwxyz"
  const DIGITS := "0123456789"

  lemma UpperWritten(k: nat)
    requires k < 26
    ensures |UPPER| == 26 && UPPER[k] as int == 'A' as int + k
  {
    assert k == 0 || k == 1 || k == 2 || k == 3 || k == 4 || k == 5 || k == 6 || k == 7 || k == 8 || k == 9 ||
      k == 10 || k == 11 || k == 12 || k == 13 || k == 14 || k == 15 || k == 16 || k == 17 || k == 18 || k == 19 ||
      k == 20 || k == 21 || k == 22 || k == 23 || k == 24 || k == 25;
  }

  lemma LowerWritten(k: nat)
    requires k < 26
    ensures |LOWER| == 26 && LOWER[k] as int == 'a' as int + k
  {
    assert k == 0 || k == 1 || k == 2 || k == 3 || k == 4 || k == 5 || k == 6 || k == 7 || k == 8 || k == 9 ||
      k == 10 || k == 11 || k == 12 || k == 13 || k == 14 || k == 15 || k == 16 || k == 17 || k == 18 || k == 19 ||
      k == 20 || k == 21 || k == 22 || k == 23 || k == 24 || k == 25;
  }

  lemma DigitWritten(k: nat)
    requires k < 10
    ensures |DIGITS| == 10 && DIGITS[k] as int == '0' as int + k
  {
    assert k == 0 || k == 1 || k == 2 || k == 3 || k == 4 || k == 5 || k == 6 || k == 7 || k == 8 || k == 9;
  }

  // Hexadecimal digits

  predicate IsHex(u: int) {
    '0' as int <= u <= '9' as int || 'A' as int <= u <= 'F' as int || 'a' as int <= u <= 'f' as int
  }

  function HexValue(u: int): (v: int)
    requires IsHex(u)
    ensures 0 <= v < 16
  {
    if u <= '9' as int then u - '0' as int
    else if u <= 'F' as int then u - 'A' as int + 10
    else u - 'a' as int + 10
  }

  function HexDigit(v: int, upper: bool): (u: Unit)
    requires 0 <= v < 16
    ensures IsHex(u) && HexValue(u) == v && u < 128
    ensures u != 'u' as int
  {
    if v < 10 then '0' as int + v
    else if upper then 'A' as int + (v - 10)
    else 'a' as int + (v - 10)
  }

  /** The sixteen digits, written out. */
  lemma HexWritten(v: int)
    requires 0 <= v < 16
    ensures HexDigit(v, true) == (DIGITS + "ABCDEF")[v] as int && HexDigit(v, false) == (DIGITS + "abcdef")[v] as int
  {
    if v < 10 {
      DigitWritten(v);
    } else {
      assert v == 10 || v == 11 || v == 12 || v == 13 || v == 14 || v == 15;
    }
  }

  // UTF-8, section 3 of RFC 3629

  function Utf8(c: int): (b: seq<Byte>)
    requires 0 <= c < 0x11_0000
    ensures 1 <= |b| <= 4
    ensures c >= 0x80 ==> forall i :: 0 <= i < |b| ==> b[i] >= 0x80
  {
    if c < 0x80 then [c]
    else if c < 0x800 then [0xC0 + c / 0x40, 0x80 + c % 0x40]
    else if c < 0x1_0000 then [0xE0 + c / 0x1000, 0x80 + c / 0x40 % 0x40, 0x80 + c % 0x40]
    else [0xF0 + c / 0x4_0000, 0x80 + c / 0x1000 % 0x40, 0x80 + c / 0x40 % 0x40, 0x80 + c % 0x40]
  }

  /** UTF-8 bytes of a whole string, defined on well-formed strings only. */
  function Utf8Bytes(s: JsString): seq<Byte>
    requires WellFormed(s)
  {
    if s == [] then []
    else if StartsWithPair(s) then Utf8(PairPoint(s[0], s[1])) + Utf8Bytes(s[2..])
    else Utf8(s[0]) + Utf8Bytes(s[1..])
  }

  /**
    * The table of that section: as few bytes as the code point needs, the first telling how many, six bits
    * in each of the others, and together the code point.
    */
  lemma Utf8Written(c: int)
    requires 0 <= c < 0x11_0000
    ensures var b := Utf8(c);
      && |b| == (if c <= 0x7F then 1 else if c <= 0x7FF then 2 else if c <= 0xFFFF then 3 else 4)
      && (forall i :: 1 <= i < |b| ==> 0x80 <= b[i] <= 0xBF)
      && (|b| == 1 ==> b[0] == c)
      && (|b| == 2 ==> 0xC0 <= b[0] <= 0xDF && c == (b[0] as int - 0xC0) * 64 + (b[1] as int - 0x80))
      && (|b| == 3 ==> 0xE0 <= b[0] <= 0xEF &&
                       c == ((b[0] as int - 0xE0) * 64 + (b[1] as int - 0x80)) * 64 + (b[2] as int - 0x80))
      && (|b| == 4 ==> 0xF0 <= b[0] <= 0xF7 &&
                       c == (((b[0] as int - 0xF0) * 64 + (b[1] as int - 0x80)) * 64 + (b[2] as int - 0x80)) * 64 +
                            (b[3] as int - 0x80))
  {
    var q, q2 := c / 0x40, c / 0x1000;
    assert c == q * 0x40 + c % 0x40;
    assert q / 0x40 == q2 && q == q2 * 0x40 + q % 0x40;
    assert q2 / 0x40 == c / 0x4_0000 && q2 == q2 / 0x40 * 0x40 + q2 % 0x40;
  }

  /** Surrogate pairs in order are the code points from U+10000 on in order. */
  lemma PairsCount(high: Unit, low: Unit)
    requires IsHigh(high) && IsLow(low)
    ensures PairPoint(0xD800, 0xDC00) == 0x1_0000 && PairPoint(0xDBFF, 0xDFFF) == 0x10_FFFF
    ensures low < 0xDFFF ==> PairPoint(high, low + 1) == PairPoint(high, low) + 1
    ensures high < 0xDBFF ==> PairPoint(high + 1, 0xDC00) == PairPoint(high, 0xDFFF) + 1
  {
  }
}
