/** Length-prefixed frames: one letter, a hexadecimal length, the payload bytes. */
module Codec {
  import opened Outcomes

  type Byte = b: nat | b < 256

  const MAX_FRAME_PAYLOAD_BYTES: nat := 256 * 1024 * 1024

  const PREFIX_S: Byte := 0x53
  const PREFIX_L: Byte := 0x4C
  const PREFIX_W: Byte := 0x57
  const PLUS: Byte := 0x2B

  // ---- UTF-8, section 4 of RFC 3629 ----------------------------------------

  predicate Tail(b: Byte) {
    0x80 <= b <= 0xBF
  }

  /** Length of the character s starts with, or 0 when it starts with none. */
  function CharLength(s: seq<Byte>): (n: nat)
    ensures n <= |s| && n <= 4
  {
    if |s| >= 1 && s[0] <= 0x7F then 1
    else if |s| >= 2 && 0xC2 <= s[0] <= 0xDF && Tail(s[1]) then 2
    else if |s| >= 3 && Tail(s[2])
      && ((s[0] == 0xE0 && 0xA0 <= s[1] <= 0xBF) || (0xE1 <= s[0] <= 0xEC && Tail(s[1]))
          || (s[0] == 0xED && 0x80 <= s[1] <= 0x9F) || (0xEE <= s[0] <= 0xEF && Tail(s[1]))) then 3
    else if |s| >= 4 && Tail(s[2]) && Tail(s[3])
      && ((s[0] == 0xF0 && 0x90 <= s[1] <= 0xBF) || (0xF1 <= s[0] <= 0xF3 && Tail(s[1]))
          || (s[0] == 0xF4 && 0x80 <= s[1] <= 0x8F)) then 4
    else 0
  }

  predicate Utf8(s: seq<Byte>)
    decreases |s|
  {
    s == [] || (CharLength(s) > 0 && Utf8(s[CharLength(s)..]))
  }

  lemma {:induction false} AsciiIsUtf8(s: seq<Byte>)
    requires forall b :: b in s ==> b <= 0x7F
    ensures Utf8(s)
    decreases |s|
  {
    if s != [] {
      assert s[0] in s && forall b :: b in s[1..] ==> b in s;
      AsciiIsUtf8(s[1..]);
    }
  }

  // ---- Hexadecimal lengths --------------------------------------------------

  function HexDigit(d: nat): (b: Byte)
    requires d < 16
  {
    if d < 10 then 0x30 + d else 0x61 + d - 10
  }

  /** The value of a digit in either case. */
  function DigitValue(b: Byte): (d: Option<nat>)
    ensures d.Some? ==> d.value < 16
  {
    if 0x30 <= b <= 0x39 then Some(b - 0x30)
    else if 0x61 <= b <= 0x66 then Some(b - 0x61 + 10)
    else if 0x41 <= b <= 0x46 then Some(b - 0x41 + 10)
    else None
  }

  /** Lower case, zero padded to width, longer only if the number needs it. */
  function Hex(n: nat, width: nat): (s: seq<Byte>)
    ensures |s| >= width
    ensures forall b :: b in s ==> DigitValue(b).Some? && b <= 0x7F && b != PLUS
    decreases n, width
  {
    if n == 0 && width == 0 then []
    else Hex(n / 16, if width == 0 then 0 else width - 1) + [HexDigit(n % 16)]
  }

  function Digits(s: seq<Byte>): (n: Option<nat>) {
    if s == [] then Some(0)
    else
      var high, low := Digits(s[..|s| - 1]), DigitValue(s[|s| - 1]);
      if high.Some? && low.Some? then Some(high.value * 16 + low.value) else None
  }

  /** The parser behind the header: a leading plus sign is accepted. */
  function ParseHex(s: seq<Byte>): (n: Option<nat>) {
    if s == [] then None
    else if s[0] == PLUS then (if |s| == 1 then None else Digits(s[1..]))
    else Digits(s)
  }

  function Power16(k: nat): (p: nat)
    ensures p >= 1
  {
    if k == 0 then 1 else 16 * Power16(k - 1)
  }

  lemma {:induction false} HexIsExact(n: nat, width: nat)
    requires n < Power16(width)
    ensures |Hex(n, width)| == width && Digits(Hex(n, width)) == Some(n)
    decreases width
  {
    if width > 0 {
      HexIsExact(n / 16, width - 1);
      var high := Hex(n / 16, width - 1);
      assert Hex(n, width) == high + [HexDigit(n % 16)];
      assert Hex(n, width)[..width - 1] == high;
    }
  }

  /** A number too wide for its field still starts with a number at least 16^(width - 1). */
  lemma {:induction false} HexOverflows(n: nat, width: nat)
    requires width > 0 && n >= Power16(width)
    ensures |Hex(n, width)| > width
    ensures Digits(Hex(n, width)[..width]).Some? && Digits(Hex(n, width)[..width]).value >= Power16(width - 1)
    decreases n
  {
    var high := Hex(n / 16, width - 1);
    assert Hex(n, width) == high + [HexDigit(n % 16)];
    assert Power16(width) == 16 * Power16(width - 1);
    if n / 16 < Power16(width) {
      WiderHex(n / 16, width - 1);
      HexIsExact(n / 16, width);
      assert Hex(n, width)[..width] == high;
    } else {
      WiderHex(n / 16, width - 1);
      HexOverflows(n / 16, width);
      assert Hex(n, width)[..width] == Hex(n / 16, width)[..width];
    }
  }

  lemma {:induction false} WiderHex(n: nat, width: nat)
    requires n >= Power16(width)
    ensures Hex(n, width) == Hex(n, width + 1)
    decreases n
  {
    if n / 16 != 0 || width > 0 {
      if width > 0 {
        assert Power16(width) == 16 * Power16(width - 1);
        WiderHex(n / 16, width - 1);
      } else {
        WiderHex(n / 16, 0);
      }
    }
  }

  // ---- Frames ---------------------------------------------------------------

  datatype Decoded = Incomplete | Frame(payload: seq<Byte>, consumed: nat) | Invalid

  function Header(len: nat): seq<Byte> {
    if len <= 0xFFF then [PREFIX_S] + Hex(len, 3)
    else if len <= 0xFFF_FFFF then [PREFIX_L] + Hex(len, 7)
    else [PREFIX_W] + Hex(len, 15)
  }

  function EncodeFrame(payload: seq<Byte>): (frame: seq<Byte>) {
    Header(|payload|) + payload
  }

  /** Digits announced by the first byte, or 0 for a byte no frame starts with. */
  function HexLength(prefix: Byte): (n: nat) {
    if prefix == PREFIX_S then 3 else if prefix == PREFIX_L then 7 else if prefix == PREFIX_W then 15 else 0
  }

  function DecodeFrame(buf: seq<Byte>): (r: Decoded) {
    if buf == [] then Incomplete
    else if HexLength(buf[0]) == 0 then Invalid
    else
      var headerLen := 1 + HexLength(buf[0]);
      if |buf| < headerLen then Incomplete
      else if !Utf8(buf[1..headerLen]) then Invalid
      else
        var len := ParseHex(buf[1..headerLen]);
        if len.None? then Invalid
        else if len.value > MAX_FRAME_PAYLOAD_BYTES then Invalid
        else
          var total := headerLen + len.value;
          if |buf| < total then Incomplete
          else if !Utf8(buf[headerLen..total]) then Invalid
          else Frame(buf[headerLen..total], total)
  }

  lemma PowersOf16()
    ensures Power16(3) == 0x1000 && Power16(7) == 0x1000_0000 && Power16(15) == 0x1000_0000_0000_0000
    ensures Power16(14) > MAX_FRAME_PAYLOAD_BYTES
  {
    var four, seven := Power16(4), Power16(7);
    assert four == 0x1_0000;
    assert seven == 0x1000_0000;
    var eleven := Power16(11);
    assert eleven == 0x1000_0000 * 0x1_0000;
    assert Power16(14) == eleven * 0x1000;
  }

  /** What the decoder reads off a header this encoder wrote. */
  lemma HeaderRoundTrip(len: nat)
    ensures var h := Header(len);
      && h != [] && HexLength(h[0]) > 0 && |h| >= 1 + HexLength(h[0])
      && (len < Power16(15) ==> |h| == 1 + HexLength(h[0]))
      && Utf8(h[1..1 + HexLength(h[0])])
      && var parsed := ParseHex(h[1..1 + HexLength(h[0])]);
         parsed.Some? && (if len < Power16(15) then parsed.value == len else parsed.value > MAX_FRAME_PAYLOAD_BYTES)
  {
    hide Utf8, Digits, Power16, Hex;
    PowersOf16();
    var h := Header(len);
    var width := HexLength(h[0]);
    var digits := Hex(len, width);
    assert h == [h[0]] + digits;
    var field := digits[..width];
    assert h[1..1 + width] == field;
    if len < Power16(width) {
      HexIsExact(len, width);
      assert field == digits;
    } else {
      HexOverflows(len, 15);
    }
    assert forall b :: b in field ==> b in digits;
    AsciiIsUtf8(field);
    assert field[0] in digits && field[0] != PLUS;
  }

  /** Decoding depends on the header field, the length it states and the bytes that follow. */
  lemma DecodesAfterHeader(h: seq<Byte>, tail: seq<Byte>, len: nat)
    requires h != [] && HexLength(h[0]) > 0 && |h| >= 1 + HexLength(h[0])
    requires Utf8(h[1..1 + HexLength(h[0])]) && ParseHex(h[1..1 + HexLength(h[0])]) == Some(len)
    ensures len > MAX_FRAME_PAYLOAD_BYTES ==> DecodeFrame(h + tail) == Invalid
    ensures len <= MAX_FRAME_PAYLOAD_BYTES && |h| == 1 + HexLength(h[0]) && len <= |tail| && Utf8(tail[..len]) ==>
      DecodeFrame(h + tail) == Frame(tail[..len], |h| + len)
  {
    hide Utf8, ParseHex;
    var buf, width := h + tail, HexLength(h[0]);
    assert buf[1..1 + width] == h[1..1 + width];
    if len <= |tail| {
      assert buf[|h|..|h| + len] == tail[..len];
    }
  }

  /** Decoding a frame at the head of a buffer gives back the payload and its exact extent, up to the cap. */
  lemma RoundTrip(payload: seq<Byte>, rest: seq<Byte>)
    requires Utf8(payload)
    ensures DecodeFrame(EncodeFrame(payload) + rest) ==
      if |payload| <= MAX_FRAME_PAYLOAD_BYTES then Frame(payload, |EncodeFrame(payload)|) else Invalid
  {
    hide Utf8, ParseHex, DecodeFrame, Header, HexLength, Power16;
    PowersOf16();
    var h, tail := Header(|payload|), payload + rest;
    HeaderRoundTrip(|payload|);
    assert EncodeFrame(payload) + rest == h + tail && tail[..|payload|] == payload;
    DecodesAfterHeader(h, tail, ParseHex(h[1..1 + HexLength(h[0])]).value);
  }

  /** A verdict on a buffer stands however many bytes follow. */
  lemma VerdictIsStable(buf: seq<Byte>, more: seq<Byte>)
    ensures !DecodeFrame(buf).Incomplete? ==> DecodeFrame(buf + more) == DecodeFrame(buf)
  {
    if buf != [] && HexLength(buf[0]) > 0 && |buf| >= 1 + HexLength(buf[0]) {
      var headerLen := 1 + HexLength(buf[0]);
      assert (buf + more)[1..headerLen] == buf[1..headerLen];
      var len := ParseHex(buf[1..headerLen]);
      if len.Some? && headerLen + len.value <= |buf| {
        assert (buf + more)[headerLen..headerLen + len.value] == buf[headerLen..headerLen + len.value];
      }
    }
  }

  /** A frame cut short is a short read, not an error. */
  lemma ProperPrefixIsIncomplete(payload: seq<Byte>, k: nat)
    requires Utf8(payload) && |payload| <= MAX_FRAME_PAYLOAD_BYTES && k < |EncodeFrame(payload)|
    ensures DecodeFrame(EncodeFrame(payload)[..k]) == Incomplete
  {
    hide DecodeFrame, EncodeFrame, Utf8;
    var frame := EncodeFrame(payload);
    RoundTrip(payload, []);
    VerdictIsStable(frame[..k], frame[k..]);
    if DecodeFrame(frame[..k]).Frame? {
      FrameExtent(frame[..k]);
    }
    assert frame + [] == frame && frame[..k] + frame[k..] == frame;
  }

  /** A frame is never more than what it consumed, and consuming it makes progress. */
  lemma FrameExtent(buf: seq<Byte>)
    requires DecodeFrame(buf).Frame?
    ensures var f := DecodeFrame(buf);
      4 <= f.consumed <= |buf| && |f.payload| <= MAX_FRAME_PAYLOAD_BYTES && Utf8(f.payload)
      && f.payload == buf[f.consumed - |f.payload|..f.consumed]
  {
  }

  /** Of the widest form this encoder writes, only the frame of exactly the cap is accepted. */
  lemma OnlyTheCapNeedsTheWideForm(payload: seq<Byte>)
    requires Utf8(payload) && Header(|payload|)[0] == PREFIX_W
    ensures DecodeFrame(EncodeFrame(payload)).Frame? <==> |payload| == MAX_FRAME_PAYLOAD_BYTES
  {
    RoundTrip(payload, []);
    assert EncodeFrame(payload) + [] == EncodeFrame(payload);
  }
}
