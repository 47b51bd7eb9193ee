/** Text as UTF-8 bytes, and the byte sequences the decoder takes for text. */
module Utf8Text {
  import opened Outcomes
  import opened Codec

  /** Section 3 of RFC 3629. */
  function Encoded(c: char): (bytes: seq<Byte>) {
    var u := c as int;
    if u < 0x80 then [u]
    else if u < 0x800 then [0xC0 + u / 0x40, 0x80 + u % 0x40]
    else if u < 0x1_0000 then [0xE0 + u / 0x1000, 0x80 + u / 0x40 % 0x40, 0x80 + u % 0x40]
    else [0xF0 + u / 0x4_0000, 0x80 + u / 0x1000 % 0x40, 0x80 + u / 0x40 % 0x40, 0x80 + u % 0x40]
  }

  function Text(s: string): (bytes: seq<Byte>) {
    if s == [] then [] else Encoded(s[0]) + Text(s[1..])
  }

  lemma {:induction false} TextJoin(a: string, b: string)
    ensures Text(a + b) == Text(a) + Text(b)
  {
    if a == [] {
      assert a + b == b;
    } else {
      assert (a + b)[1..] == a[1..] + b;
      TextJoin(a[1..], b);
    }
  }

  /** The bytes of a character are seen as one character, whatever follows. */
  lemma EncodedIsOne(c: char, rest: seq<Byte>)
    ensures CharLength(Encoded(c) + rest) == |Encoded(c)|
  {
    var u, s := c as int, Encoded(c) + rest;
    if u < 0x80 {
      assert s[0] == u;
    } else if u < 0x800 {
      assert s[0] == 0xC0 + u / 0x40 && s[1] == 0x80 + u % 0x40;
    } else if u < 0x1_0000 {
      assert s[0] == 0xE0 + u / 0x1000 && s[1] == 0x80 + u / 0x40 % 0x40 && s[2] == 0x80 + u % 0x40;
    } else {
      assert s[0] == 0xF0 + u / 0x4_0000 && s[1] == 0x80 + u / 0x1000 % 0x40;
      assert s[2] == 0x80 + u / 0x40 % 0x40 && s[3] == 0x80 + u % 0x40;
    }
  }

  /** And what is seen as one character are the bytes of one: nothing overlong, no surrogate, nothing past the end. */
  lemma OneIsEncoded(s: seq<Byte>) returns (c: char)
    requires CharLength(s) > 0
    ensures s[..CharLength(s)] == Encoded(c)
  {
    match CharLength(s)
    case 1 => c := s[0] as char;
    case 2 => c := TwoBytes(s[0] - 0xC0, s[1] - 0x80);
    case 3 => c := ThreeBytes(s[0] - 0xE0, s[1] - 0x80, s[2] - 0x80);
    case 4 => c := FourBytes(s[0] - 0xF0, s[1] - 0x80, s[2] - 0x80, s[3] - 0x80);
  }

  lemma TwoBytes(a: nat, b: nat) returns (c: char)
    requires 2 <= a < 0x20 && b < 0x40
    ensures Encoded(c) == [0xC0 + a, 0x80 + b]
  {
    c := (a * 0x40 + b) as char;
  }

  lemma ThreeBytes(a: nat, b: nat, d: nat) returns (c: char)
    requires a < 0x10 && b < 0x40 && d < 0x40 && (a == 0 ==> b >= 0x20) && (a == 0xD ==> b < 0x20)
    ensures Encoded(c) == [0xE0 + a, 0x80 + b, 0x80 + d]
  {
    var u := a * 0x1000 + b * 0x40 + d;
    assert u / 0x1000 == a && u / 0x40 == a * 0x40 + b && u % 0x40 == d;
    c := u as char;
  }

  lemma FourBytes(a: nat, b: nat, d: nat, e: nat) returns (c: char)
    requires a <= 4 && b < 0x40 && d < 0x40 && e < 0x40 && (a == 0 ==> b >= 0x10) && (a == 4 ==> b < 0x10)
    ensures Encoded(c) == [0xF0 + a, 0x80 + b, 0x80 + d, 0x80 + e]
  {
    var u := a * 0x4_0000 + b * 0x1000 + d * 0x40 + e;
    assert u / 0x4_0000 == a && u / 0x1000 == a * 0x40 + b && u / 0x40 == a * 0x1000 + b * 0x40 + d && u % 0x40 == e;
    c := u as char;
  }

  lemma {:induction false} TextIsUtf8(t: string)
    ensures Utf8(Text(t))
  {
    if t != [] {
      EncodedIsOne(t[0], Text(t[1..]));
      TextIsUtf8(t[1..]);
      assert Text(t)[|Encoded(t[0])|..] == Text(t[1..]);
    }
  }

  lemma {:induction false} Utf8IsText(s: seq<Byte>) returns (t: string)
    requires Utf8(s)
    ensures Text(t) == s
    decreases |s|
  {
    if s == [] {
      t := [];
    } else {
      var n := CharLength(s);
      var c := OneIsEncoded(s);
      var rest := Utf8IsText(s[n..]);
      t := [c] + rest;
      assert t[1..] == rest && s == s[..n] + s[n..];
    }
  }

  /** The decoder's table accepts exactly the bytes of texts. */
  lemma Utf8Iff(s: seq<Byte>)
    ensures Utf8(s) <==> exists t :: Text(t) == s
  {
    if Utf8(s) {
      var t := Utf8IsText(s);
    }
    if t :| Text(t) == s {
      TextIsUtf8(t);
    }
  }

  // ---- Frames of text ------------------------------------------------------------

  const DIGITS: string := "0123456789abcdef"

  function Letter(c: char): (b: nat) {
    c as int
  }

  /** The k-th hexadecimal digit of n, the last one being digit 0. */
  function DigitAt(n: nat, k: nat): (d: nat)
    ensures d < 16
  {
    if k == 0 then n % 16 else DigitAt(n / 16, k - 1)
  }

  /** A letter, and so many digits of the length, high ones first. */
  ghost predicate StartsWith(frame: seq<Byte>, letter: char, digits: nat, len: nat) {
    && |frame| >= 1 + digits && frame[0] == Letter(letter)
    && forall k: nat :: k < digits ==> frame[digits - k] == Letter(DIGITS[DigitAt(len, k)])
  }

  lemma {:induction false} HexDigitsAre(n: nat, width: nat)
    requires n < Power16(width)
    ensures |Hex(n, width)| == width
    ensures forall k: nat :: k < width ==> Hex(n, width)[width - 1 - k] == Letter(DIGITS[DigitAt(n, k)])
    decreases width
  {
    HexIsExact(n, width);
    if width > 0 {
      HexDigitsAre(n / 16, width - 1);
      DigitLetter(n % 16);
      forall k: nat | k < width ensures Hex(n, width)[width - 1 - k] == Letter(DIGITS[DigitAt(n, k)]) {
        if k > 0 {
          assert Hex(n, width)[width - 1 - k] == Hex(n / 16, width - 1)[(width - 1) - 1 - (k - 1)];
        }
      }
    }
  }

  lemma DigitLetter(d: nat)
    requires d < 16
    ensures HexDigit(d) == Letter(DIGITS[d])
  {
    assert DIGITS[10] == 'a' && DIGITS[11] == 'b' && DIGITS[12] == 'c';
    assert DIGITS[13] == 'd' && DIGITS[14] == 'e' && DIGITS[15] == 'f';
    assert DIGITS[0] == '0' && DIGITS[1] == '1' && DIGITS[2] == '2' && DIGITS[3] == '3' && DIGITS[4] == '4';
    assert DIGITS[5] == '5' && DIGITS[6] == '6' && DIGITS[7] == '7' && DIGITS[8] == '8' && DIGITS[9] == '9';
  }

  /** On the wire: S and 3 digits, L and 7, or W and 15, whichever is the first wide enough, then the payload. */
  lemma FrameOnTheWire(payload: seq<Byte>)
    requires |payload| < 0x1000_0000_0000_0000
    ensures var frame, n := EncodeFrame(payload), |payload|;
      if n <= 4095 then StartsWith(frame, 'S', 3, n) && frame[4..] == payload
      else if n <= 268435455 then StartsWith(frame, 'L', 7, n) && frame[8..] == payload
      else StartsWith(frame, 'W', 15, n) && frame[16..] == payload
  {
    hide Power16, Hex;
    PowersOf16();
    var n := |payload|;
    var width := if n <= 4095 then 3 else if n <= 268435455 then 7 else 15;
    HexDigitsAre(n, width);
    assert Header(n)[1..] == Hex(n, width);
    assert EncodeFrame(payload)[1 + width..] == payload;
    assert EncodeFrame(payload)[1..1 + width] == Hex(n, width);
  }

  /** Anything but the three letters is refused at once. */
  lemma OnlyThreeLetters(buf: seq<Byte>)
    requires buf != [] && buf[0] != 'S' as int && buf[0] != 'L' as int && buf[0] != 'W' as int
    ensures DecodeFrame(buf) == Invalid
  {
  }

  /** A header is waited for to its full width before anything is judged. */
  lemma HeaderIsAwaited(buf: seq<Byte>)
    requires buf == [] || (buf[0] == 'S' as int && |buf| < 4) || (buf[0] == 'L' as int && |buf| < 8)
      || (buf[0] == 'W' as int && |buf| < 16)
    ensures DecodeFrame(buf) == Incomplete
  {
  }

  const UPPER_DIGITS: string := "0123456789ABCDEF"

  /** A digit of a length is read in either case, and nothing else is a digit. */
  lemma EitherCaseIsRead(b: Byte)
    ensures forall d: nat :: d < 16 ==>
      (DigitValue(b) == Some(d) <==> b == Letter(DIGITS[d]) || b == Letter(UPPER_DIGITS[d]))
    ensures DigitValue(b).Some? <==> exists d: nat :: d < 16 && (b == Letter(DIGITS[d]) || b == Letter(UPPER_DIGITS[d]))
  {
    forall d: nat | d < 16
      ensures DigitValue(b) == Some(d) <==> b == Letter(DIGITS[d]) || b == Letter(UPPER_DIGITS[d])
    {
      UpperLetter(d);
      DigitLetter(d);
    }
    if DigitValue(b).Some? {
      assert b == Letter(DIGITS[DigitValue(b).value]) || b == Letter(UPPER_DIGITS[DigitValue(b).value]);
    }
  }

  lemma UpperLetter(d: nat)
    requires d < 16
    ensures Letter(UPPER_DIGITS[d]) == if d < 10 then 0x30 + d else 0x41 + d - 10
  {
    assert UPPER_DIGITS[10] == 'A' && UPPER_DIGITS[11] == 'B' && UPPER_DIGITS[12] == 'C';
    assert UPPER_DIGITS[13] == 'D' && UPPER_DIGITS[14] == 'E' && UPPER_DIGITS[15] == 'F';
    assert d < 10 ==> UPPER_DIGITS[d] == DIGITS[d];
    DigitLetter(d);
  }

  /** A plus sign before the digits is read over, as the number parser does. */
  lemma PlusIsReadOver(s: seq<Byte>)
    requires s != [] && s[0] != Letter('+')
    ensures ParseHex([Letter('+')] + s) == ParseHex(s)
    ensures ParseHex([Letter('+')]) == None && ParseHex([]) == None
  {
    assert ([Letter('+')] + s)[1..] == s;
  }
}
