/** The binary activation protocol: packets, activate and result payloads, and the environment
    payload, as byte strings (internal/dbusactivation/protocol.go). */
module ActivationCodec {
  import Text

  type Byte = x: int | 0 <= x < 256
  type Bytes = seq<Byte>

  datatype Result<T> = Ok(value: T) | Err

  // ----- big-endian numbers -----

  function Pow256(width: nat): nat { if width == 0 then 1 else 256 * Pow256(width - 1) }

  function BigEndian(n: nat, width: nat): (b: Bytes)
    ensures |b| == width
  {
    if width == 0 then [] else BigEndian(n / 256, width - 1) + [n % 256]
  }

  function FromBigEndian(b: Bytes): nat
  {
    if b == [] then 0 else FromBigEndian(b[..|b| - 1]) * 256 + b[|b| - 1]
  }

  lemma {:induction false} NumberRoundTrip(n: nat, width: nat)
    requires n < Pow256(width)
    ensures FromBigEndian(BigEndian(n, width)) == n
  {
    if width > 0 {
      NumberRoundTrip(n / 256, width - 1);
      var b := BigEndian(n, width);
      assert b[..|b| - 1] == BigEndian(n / 256, width - 1);
    }
  }

  lemma {:induction false} BytesRoundTrip(b: Bytes)
    ensures BigEndian(FromBigEndian(b), |b|) == b && FromBigEndian(b) < Pow256(|b|)
  {
    if b != [] {
      var n := |b| - 1;
      BytesRoundTrip(b[..n]);
      assert FromBigEndian(b) / 256 == FromBigEndian(b[..n]) && FromBigEndian(b) % 256 == b[n];
      assert b == b[..n] + [b[n]];
    }
  }

  lemma Widths()
    ensures Pow256(2) == 0x1_0000 && Pow256(4) == 0x1_0000_0000 && Pow256(8) == 0x1_0000_0000_0000_0000
  {
    assert Pow256(1) == 256 && Pow256(3) == 0x100_0000 && Pow256(5) == 0x100_0000_0000;
    assert Pow256(6) == 0x1_0000_0000_0000 && Pow256(7) == 0x100_0000_0000_0000;
  }

  // ----- packets -----

  type U64 = x: int | 0 <= x < 0x1_0000_0000_0000_0000
  type U32 = x: int | 0 <= x < 0x1_0000_0000
  type U16 = x: int | 0 <= x < 0x1_0000

  const Magic: Bytes := [83, 68, 66, 85, 83, 0, 0, 1]
  const Version: nat := 1
  const HeaderSize: nat := 28
  const MaxPayload: nat := 65536

  datatype Packet = Packet(typ: U16, requestID: U64, flags: U32, payload: Bytes)

  predicate ValidMessageType(t: nat) { 1 <= t <= 8 }

  function Header(p: Packet): Bytes
  {
    Magic + BigEndian(Version, 2) + BigEndian(p.typ, 2) + BigEndian(p.requestID, 8) + BigEndian(|p.payload|, 4) +
        BigEndian(p.flags, 4)
  }

  /** EncodePacket */
  function EncodePacket(p: Packet): Result<Bytes>
  {
    if !ValidMessageType(p.typ) || p.flags != 0 || |p.payload| > MaxPayload then Err
    else Ok(Header(p) + p.payload)
  }

  /** DecodePacket */
  function DecodePacket(b: Bytes): Result<Packet>
  {
    if |b| < HeaderSize || b[..8] != Magic || FromBigEndian(b[8..10]) != Version then Err
    else
      var typ := FromBigEndian(b[10..12]);
      var flags := FromBigEndian(b[24..28]);
      var length := FromBigEndian(b[20..24]);
      if !ValidMessageType(typ) || flags != 0 || length > MaxPayload || |b| != HeaderSize + length then Err
      else
        BytesRoundTrip(b[12..20]);
        Widths();
        Ok(Packet(typ, FromBigEndian(b[12..20]), flags, b[28..]))
  }

  lemma HeaderFields(p: Packet)
    ensures var h := Header(p);
            && |h| == HeaderSize && h[..8] == Magic && h[8..10] == BigEndian(Version, 2) &&
                h[10..12] == BigEndian(p.typ, 2)
            && h[12..20] == BigEndian(p.requestID, 8) && h[20..24] == BigEndian(|p.payload|, 4) &&
                h[24..28] == BigEndian(p.flags, 4)
  {
    hide BigEndian;
  }

  lemma SliceOfHeader(h: Bytes, payload: Bytes, i: nat, j: nat)
    requires i <= j <= |h|
    ensures (h + payload)[i..j] == h[i..j]
  {
  }

  /** A packet that encodes is read back as it was. */
  lemma PacketRoundTrip(p: Packet)
    requires EncodePacket(p).Ok?
    ensures DecodePacket(EncodePacket(p).value) == Ok(p)
  {
    var h, b := Header(p), Header(p) + p.payload;
    HeaderFields(p);
    Widths();
    hide BigEndian, FromBigEndian, Header;
    NumberRoundTrip(Version, 2);
    NumberRoundTrip(p.typ, 2);
    NumberRoundTrip(p.requestID, 8);
    NumberRoundTrip(|p.payload|, 4);
    NumberRoundTrip(p.flags, 4);
    SliceOfHeader(h, p.payload, 0, 8);
    SliceOfHeader(h, p.payload, 8, 10);
    SliceOfHeader(h, p.payload, 10, 12);
    SliceOfHeader(h, p.payload, 12, 20);
    SliceOfHeader(h, p.payload, 20, 24);
    SliceOfHeader(h, p.payload, 24, 28);
    assert b[28..] == p.payload;
  }

  /** Accepted bytes are exactly the encoding of the packet they decode to. */
  lemma PacketBytesRoundTrip(b: Bytes)
    requires DecodePacket(b).Ok?
    ensures EncodePacket(DecodePacket(b).value) == Ok(b)
  {
    var p := DecodePacket(b).value;
    BytesRoundTrip(b[8..10]);
    BytesRoundTrip(b[10..12]);
    BytesRoundTrip(b[12..20]);
    BytesRoundTrip(b[20..24]);
    BytesRoundTrip(b[24..28]);
    hide BigEndian, FromBigEndian;
    assert b == b[..8] + b[8..10] + b[10..12] + b[12..20] + b[20..24] + b[24..28] + b[28..];
  }

  // ----- strings -----

  /** The bytes as characters of a Go string. */
  function Chars(b: Bytes): (s: string)
    ensures |s| == |b| && forall i | 0 <= i < |b| :: s[i] == b[i] as char
  {
    seq(|b|, i requires 0 <= i < |b| => b[i] as char)
  }

  predicate ValidUtf8(s: Bytes) { Text.ValidUtf8(Chars(s)) }

  /** A string read from the front of a buffer, and what follows it. */
  datatype Read<T> = Read(value: T, rest: Bytes) | Fail

  /** readString16 and readString32: a length of `width` bytes, then that many bytes. */
  function ReadString(b: Bytes, width: nat, maximum: nat): Read<Bytes>
  {
    if |b| < width then Fail
    else
      var length := FromBigEndian(b[..width]);
      if length > maximum || length > |b| - width || !ValidUtf8(b[width..width + length]) then Fail
      else Read(b[width..width + length], b[width + length..])
  }

  /** writeString16 and writeString32, for a string that passes their check. */
  function WriteString(s: Bytes, width: nat): Bytes { BigEndian(|s|, width) + s }

  predicate Writable(s: Bytes, width: nat) { ValidUtf8(s) && |s| < Pow256(width) }

  /** Reading back a written string fails exactly when it exceeds the reader's maximum. */
  lemma StringRoundTrip(s: Bytes, width: nat, maximum: nat, rest: Bytes)
    requires Writable(s, width)
    ensures ReadString(WriteString(s, width) + rest, width, maximum) == if |s| <= maximum then Read(s, rest) else Fail
  {
    var b := WriteString(s, width) + rest;
    assert b[..width] == BigEndian(|s|, width);
    NumberRoundTrip(|s|, width);
    hide BigEndian, FromBigEndian, ValidUtf8;
    assert b[width..width + |s|] == s && b[width + |s|..] == rest;
  }

  lemma StringBytesRoundTrip(b: Bytes, width: nat, maximum: nat)
    requires ReadString(b, width, maximum).Read?
    ensures var r := ReadString(b, width, maximum);
            Writable(r.value, width) && |r.value| <= maximum && b == WriteString(r.value, width) + r.rest
  {
    BytesRoundTrip(b[..width]);
    hide BigEndian, FromBigEndian, ValidUtf8;
    var length := FromBigEndian(b[..width]);
    assert b == b[..width] + b[width..width + length] + b[width + length..];
  }

  // ----- activate -----

  datatype Activate = Activate(frontend: Byte, busName: Bytes)

  predicate ValidFrontend(f: int) { f == 1 || f == 2 }

  function Dot(): Byte { 46 }

  function SplitDots(s: Bytes): (r: seq<Bytes>)
    ensures r != []
  {
    if s == [] then [[]]
    else if s[0] == Dot() then [[]] + SplitDots(s[1..])
    else var r := SplitDots(s[1..]); [[s[0]] + r[0]] + r[1..]
  }

  predicate ElementStart(c: Byte) { c == 95 || c == 45 || 65 <= c <= 90 || 97 <= c <= 122 }

  predicate ElementByte(c: Byte) { ElementStart(c) || 48 <= c <= 57 }

  predicate ValidElement(e: Bytes) { e != [] && ElementStart(e[0]) && forall i | 1 <= i < |e| :: ElementByte(e[i]) }

  /** ValidateBusName */
  predicate ValidBusName(name: Bytes)
  {
    && name != [] && |name| <= 255 && ValidUtf8(name) && name[0] != 58 && Dot() in name
    && forall e | e in SplitDots(name) :: ValidElement(e)
  }

  function EncodeActivate(r: Activate): Result<Bytes>
  {
    if !ValidFrontend(r.frontend) || !ValidBusName(r.busName) || !Writable(r.busName, 2) then Err
    else Ok([r.frontend] + WriteString(r.busName, 2))
  }

  function DecodeActivate(b: Bytes): Result<Activate>
  {
    if b == [] || !ValidFrontend(b[0]) then Err
    else
      match ReadString(b[1..], 2, 255)
      case Fail => Err
      case Read(name, rest) => if rest != [] || !ValidBusName(name) then Err else Ok(Activate(b[0], name))
  }

  lemma ActivateRoundTrip(r: Activate)
    requires EncodeActivate(r).Ok?
    ensures DecodeActivate(EncodeActivate(r).value) == Ok(r)
  {
    StringRoundTrip(r.busName, 2, 255, []);
    hide ValidUtf8, SplitDots, ReadString, WriteString, Writable;
    var b := [r.frontend] + WriteString(r.busName, 2);
    assert b[1..] == WriteString(r.busName, 2) && b[1..] + [] == b[1..];
  }

  lemma ActivateBytesRoundTrip(b: Bytes)
    requires DecodeActivate(b).Ok?
    ensures EncodeActivate(DecodeActivate(b).value) == Ok(b)
  {
    StringBytesRoundTrip(b[1..], 2, 255);
    hide ValidUtf8, SplitDots, WriteString;
    var name := DecodeActivate(b).value.busName;
    assert b == [b[0]] + b[1..] && WriteString(name, 2) + [] == WriteString(name, 2);
  }

  // ----- activation result -----

  datatype ActivationResult = ActivationResult(code: U16, detail: Bytes)

  predicate ValidResultCode(c: nat) { c <= 22 }

  function EncodeResult(r: ActivationResult): Result<Bytes>
  {
    if !ValidResultCode(r.code) || !Writable(r.detail, 2) then Err
    else Ok(BigEndian(r.code, 2) + WriteString(r.detail, 2))
  }

  function DecodeResult(b: Bytes): Result<ActivationResult>
  {
    if |b| < 2 || !ValidResultCode(FromBigEndian(b[..2])) then Err
    else
      match ReadString(b[2..], 2, MaxPayload)
      case Fail => Err
      case Read(detail, rest) => if rest != [] then Err else Ok(ActivationResult(FromBigEndian(b[..2]), detail))
  }

  lemma ResultRoundTrip(r: ActivationResult)
    requires EncodeResult(r).Ok?
    ensures DecodeResult(EncodeResult(r).value) == Ok(r)
  {
    Widths();
    NumberRoundTrip(r.code, 2);
    StringRoundTrip(r.detail, 2, MaxPayload, []);
    hide ValidUtf8, ReadString, WriteString, BigEndian, FromBigEndian;
    var b := BigEndian(r.code, 2) + WriteString(r.detail, 2);
    assert b[..2] == BigEndian(r.code, 2) && b[2..] == WriteString(r.detail, 2) && b[2..] + [] == b[2..];
  }

  lemma ResultBytesRoundTrip(b: Bytes)
    requires DecodeResult(b).Ok?
    ensures EncodeResult(DecodeResult(b).value) == Ok(b)
  {
    BytesRoundTrip(b[..2]);
    StringBytesRoundTrip(b[2..], 2, MaxPayload);
    hide ValidUtf8, WriteString, BigEndian, FromBigEndian;
    var detail := DecodeResult(b).value.detail;
    assert b == b[..2] + b[2..] && WriteString(detail, 2) + [] == WriteString(detail, 2);
  }

  // ----- the bytes on the wire -----

  lemma TwoByteNumber(n: nat)
    requires n < 0x1_0000
    ensures BigEndian(n, 2) == [n / 256, n % 256]
  {
    assert BigEndian(n / 256, 1) == BigEndian(n / 256 / 256, 0) + [n / 256 % 256];
  }

  lemma TwoByteValue(b: Bytes)
    requires |b| == 2
    ensures FromBigEndian(b) == b[0] as int * 256 + b[1]
  {
    assert b[..1][..0] == [] && b[..1][0] == b[0];
    assert FromBigEndian(b[..1]) == b[0];
  }

  lemma FourByteValue(b: Bytes)
    requires |b| == 4
    ensures FromBigEndian(b) == ((b[0] as int * 256 + b[1]) * 256 + b[2]) * 256 + b[3]
  {
    TwoByteValue(b[..2]);
    assert b[..3][..2] == b[..2] && FromBigEndian(b[..3]) == FromBigEndian(b[..2]) * 256 + b[2];
  }

  /** A packet encodes exactly if its type is known, its flags are zero and its payload is at most
      64 KiB; and then every byte of it is where the protocol puts it. */
  lemma PacketLayout(p: Packet)
    ensures EncodePacket(p).Ok? <==> 1 <= p.typ <= 8 && p.flags == 0 && |p.payload| <= 65536
    ensures EncodePacket(p).Ok? ==>
              var b := EncodePacket(p).value;
              && |b| == 28 + |p.payload|
              && b[..10] == [83, 68, 66, 85, 83, 0, 0, 1, 0, 1]
              && b[10] as int * 256 + b[11] == p.typ
              && FromBigEndian(b[12..20]) == p.requestID
              && ((b[20] as int * 256 + b[21]) * 256 + b[22]) * 256 + b[23] == |p.payload|
              && b[24..28] == [0, 0, 0, 0] && b[28..] == p.payload
  {
    if EncodePacket(p).Ok? {
      var h, b := Header(p), Header(p) + p.payload;
      HeaderFields(p);
      Widths();
      NumberRoundTrip(p.typ, 2);
      NumberRoundTrip(p.requestID, 8);
      NumberRoundTrip(|p.payload|, 4);
      TwoByteValue(h[10..12]);
      FourByteValue(h[20..24]);
      ZeroBytes();
      hide BigEndian, FromBigEndian, Header;
      assert b[10] == h[10..12][0] && b[11] == h[10..12][1];
      assert b[20] == h[20..24][0] && b[21] == h[20..24][1] && b[22] == h[20..24][2] && b[23] == h[20..24][3];
      assert b[..10] == h[..8] + h[8..10];
      assert b[12..20] == h[12..20] && b[24..28] == h[24..28] && b[28..] == p.payload;
    }
  }

  lemma ZeroBytes()
    ensures BigEndian(0, 4) == [0, 0, 0, 0] && BigEndian(Version, 2) == [0, 1]
  {
    TwoByteNumber(1);
    TwoByteNumber(0);
    assert BigEndian(0, 3) == BigEndian(0, 2) + [0] && BigEndian(0, 4) == BigEndian(0, 3) + [0];
  }

  /** A well-known bus name, position by position: letters, digits, underscores and hyphens in elements
      that do not start with a digit, separated by single dots, at least two of them, 255 bytes at most. */
  predicate WellKnown(name: Bytes)
  {
    && 0 < |name| <= 255 && name[|name| - 1] != 46 && (exists i :: 0 <= i < |name| && name[i] == 46)
    && forall i | 0 <= i < |name| :: WellPlaced(name, i)
  }

  predicate Letter(c: Byte) { c == 95 || c == 45 || 65 <= c <= 90 || 97 <= c <= 122 }

  predicate WellPlaced(name: Bytes, i: nat)
    requires i < |name|
  {
    if i == 0 || name[i - 1] == 46 then Letter(name[i]) else Letter(name[i]) || 48 <= name[i] <= 57 || name[i] == 46
  }

  /** From the start of an element on. */
  predicate ElementsFrom(s: Bytes)
  {
    s != [] && s[|s| - 1] != 46 && forall i | 0 <= i < |s| :: WellPlaced(s, i)
  }

  /** From inside an element on. */
  predicate RestFrom(s: Bytes)
  {
    && (s != [] ==> s[|s| - 1] != 46 && (Letter(s[0]) || 48 <= s[0] <= 57 || s[0] == 46))
    && forall i | 1 <= i < |s| :: WellPlaced(s, i)
  }

  predicate AllElements(r: seq<Bytes>) { forall i | 0 <= i < |r| :: ValidElement(r[i]) }

  predicate AllBytes(e: Bytes) { forall i | 0 <= i < |e| :: ElementByte(e[i]) }

  lemma BytesCons(c: Byte, e: Bytes)
    ensures AllBytes([c] + e) <==> ElementByte(c) && AllBytes(e)
    ensures ValidElement([c] + e) <==> ElementStart(c) && AllBytes(e)
  {
    var all := [c] + e;
    if AllBytes(all) || ValidElement(all) {
      forall i | 0 <= i < |e| ensures ElementByte(e[i]) { assert ElementByte(all[i + 1]); }
    }
    if AllBytes(all) { assert ElementByte(all[0]); }
  }

  /** After a dot an element starts. */
  lemma RestDot(s: Bytes)
    requires s != [] && s[0] == 46
    ensures RestFrom(s) <==> ElementsFrom(s[1..])
  {
    var t := s[1..];
    if ElementsFrom(t) {
      forall i | 1 <= i < |s| ensures WellPlaced(s, i) { assert WellPlaced(t, i - 1); }
    }
    if RestFrom(s) {
      assert t != [];
      forall i | 0 <= i < |t| ensures WellPlaced(t, i) { assert WellPlaced(s, i + 1); }
    }
  }

  lemma {:induction false} RestSplits(s: Bytes)
    ensures var r := SplitDots(s); AllBytes(r[0]) && AllElements(r[1..]) <==> RestFrom(s)
  {
    if s != [] {
      var r, t := SplitDots(s), s[1..];
      var q := SplitDots(t);
      if s[0] == 46 {
        assert r[0] == [] && r[1..] == q;
        hide SplitDots;
        ElementsSplit(t);
        RestDot(s);
      } else {
        assert r[0] == [s[0]] + q[0] && r[1..] == q[1..];
        hide SplitDots;
        RestSplits(t);
        BytesCons(s[0], q[0]);
        RestCons(s);
      }
      hide RestFrom, ElementsFrom, AllElements;
    }
  }

  lemma RestCons(s: Bytes)
    requires s != [] && s[0] != 46
    ensures RestFrom(s) <==> (Letter(s[0]) || 48 <= s[0] <= 57) && RestFrom(s[1..])
  {
    var t := s[1..];
    if RestFrom(s) {
      if t != [] { assert WellPlaced(s, 1); }
      forall i | 1 <= i < |t| ensures WellPlaced(t, i) { assert WellPlaced(s, i + 1); }
    }
    if (Letter(s[0]) || 48 <= s[0] <= 57) && RestFrom(t) {
      forall i | 0 < i < |s| ensures WellPlaced(s, i) {
        assert i > 1 ==> WellPlaced(t, i - 1);
      }
    }
  }

  lemma {:induction false} ElementsSplit(s: Bytes)
    ensures AllElements(SplitDots(s)) <==> ElementsFrom(s)
  {
    var r := SplitDots(s);
    if s == [] {
      assert !ValidElement(r[0]);
    } else if s[0] == 46 {
      assert r[0] == [] && !ValidElement(r[0]) && !WellPlaced(s, 0);
    } else {
      var t, q := s[1..], SplitDots(s[1..]);
      RestSplits(t);
      assert r[0] == [s[0]] + q[0] && r[1..] == q[1..];
      BytesCons(s[0], q[0]);
      assert AllElements(r) <==> ValidElement(r[0]) && AllElements(r[1..]) by {
        if ValidElement(r[0]) && AllElements(r[1..]) {
          forall i | 0 <= i < |r| ensures ValidElement(r[i]) { assert i > 0 ==> r[i] == r[1..][i - 1]; }
        }
      }
      ElementsCons(s);
    }
  }

  lemma ElementsCons(s: Bytes)
    requires s != [] && s[0] != 46
    ensures ElementsFrom(s) <==> Letter(s[0]) && RestFrom(s[1..])
  {
    var t := s[1..];
    if ElementsFrom(s) {
      assert WellPlaced(s, 0);
      if t != [] { assert WellPlaced(s, 1); }
      forall i | 1 <= i < |t| ensures WellPlaced(t, i) { assert WellPlaced(s, i + 1); }
    }
    if Letter(s[0]) && RestFrom(t) {
      forall i | 0 <= i < |s| ensures WellPlaced(s, i) {
        assert i > 1 ==> WellPlaced(t, i - 1);
      }
    }
  }

  /** ValidateBusName accepts exactly the well-known names. */
  lemma BusNameExact(name: Bytes)
    ensures ValidBusName(name) <==> WellKnown(name)
  {
    ElementsSplit(name);
    assert AllElements(SplitDots(name)) <==> forall e | e in SplitDots(name) :: ValidElement(e);
    if ElementsFrom(name) {
      forall i | 0 <= i < |name| ensures name[i] < 0x80 { assert WellPlaced(name, i); }
      Text.AsciiIsUtf8(Chars(name));
      assert WellPlaced(name, 0);
    }
    hide SplitDots, ValidElement, Text.ValidUtf8;
    assert Dot() in name <==> exists i :: 0 <= i < |name| && name[i] == 46;
  }

  /** An activate request encodes exactly for the two frontends and a well-known name, as these bytes. */
  lemma ActivateLayout(r: Activate)
    ensures EncodeActivate(r).Ok? <==> (r.frontend == 1 || r.frontend == 2) && WellKnown(r.busName)
    ensures EncodeActivate(r).Ok? ==>
              EncodeActivate(r).value == [r.frontend, |r.busName| / 256, |r.busName| % 256] + r.busName
  {
    BusNameExact(r.busName);
    Widths();
    if |r.busName| <= 255 { TwoByteNumber(|r.busName|); }
    hide BigEndian, WellKnown, Pow256;
    assert ValidBusName(r.busName) ==> Writable(r.busName, 2);
    hide ValidBusName, ValidUtf8;
  }

  /** A result encodes exactly with a known code and a valid detail that fits its length, as these bytes. */
  lemma ResultLayout(r: ActivationResult)
    ensures EncodeResult(r).Ok? <==> r.code <= 22 && Text.ValidUtf8(Chars(r.detail)) && |r.detail| <= 65535
    ensures EncodeResult(r).Ok? ==>
              EncodeResult(r).value == [r.code / 256, r.code % 256, |r.detail| / 256, |r.detail| % 256] + r.detail
  {
    Widths();
    TwoByteNumber(r.code);
    if |r.detail| <= 65535 { TwoByteNumber(|r.detail|); }
    hide BigEndian, Pow256, Text.ValidUtf8;
  }
}
