// The native IICP frame codec: a 12-byte header followed by the payload.
module Wire {
  import opened Common

  const MAGIC: seq<Byte> := [0x49, 0x49, 0x43, 0x50]
  const FRAMING_VERSION := 1
  const HEADER_LEN := 12
  const MAX_PAYLOAD := 16 * 1024 * 1024
  const READ_CHUNK := 4096

  const INIT: Byte := 0x01
  const DISCOVER: Byte := 0x03
  const CALL: Byte := 0x05
  const CLOSE: Byte := 0x07
  const PING: Byte := 0x09
  const RELAY_BIND: Byte := 0x0B

  datatype Frame = Frame(version: int, msgType: Byte, flags: Byte, payload: seq<Byte>)

  datatype FrameError = UnsupportedVersion | PayloadTooLarge | TooShort | BadMagic | Truncated

  datatype Decoded = Decoded(frame: Frame, consumed: nat)

  // ---- message type classification ----

  datatype TypeVerdict = StableType | InvalidType | ConflictedType | UnsupportedExtension | UnknownType

  function ClassifyType(t: Byte): TypeVerdict {
    if 0x01 <= t < 0x0B || t == 0x0D || t == 0x0E then StableType
    else if t == 0x00 || t == 0xFF then InvalidType
    else if t == 0x0B || t == 0x0C then ConflictedType
    else if 0xF0 <= t <= 0xFE then UnsupportedExtension
    else UnknownType
  }

  predicate IsStable(t: Byte) {
    ClassifyType(t) == StableType
  }

  // The registry, type by type.
  lemma TypesExactly(t: Byte)
    ensures ClassifyType(t) == StableType <==> t in {1, 2, 3, 4, 5, 6, 7, 8, 9, 10, 13, 14}
    ensures ClassifyType(t) == InvalidType <==> t in {0, 255}
    ensures ClassifyType(t) == ConflictedType <==> t in {11, 12}
    ensures ClassifyType(t) == UnsupportedExtension <==> 240 <= t < 255
    ensures ClassifyType(t) == UnknownType <==> 15 <= t < 240
  {
  }

  // ---- header fields ----

  function PackLength(n: nat): (b: seq<Byte>)
    requires n < 0x1_0000_0000
    ensures |b| == 4
  {
    [n / 0x100_0000, n / 0x1_0000 % 0x100, n / 0x100 % 0x100, n % 0x100]
  }

  function UnpackLength(b: seq<Byte>): nat
    requires |b| == 4
  {
    var b0: int, b1: int, b2: int := b[0], b[1], b[2];
    b0 * 0x100_0000 + b1 * 0x1_0000 + b2 * 0x100 + b[3]
  }

  lemma LengthRoundTrip(n: nat)
    requires n < 0x1_0000_0000
    ensures UnpackLength(PackLength(n)) == n
  {
    var a, b, c := n / 0x100, n / 0x1_0000, n / 0x100_0000;
    assert n == a * 0x100 + n % 0x100;
    assert b == a / 0x100 && a == b * 0x100 + a % 0x100;
    assert c == b / 0x100 && b == c * 0x100 + b % 0x100;
  }

  lemma LengthBytesRoundTrip(b: seq<Byte>)
    requires |b| == 4
    ensures UnpackLength(b) < 0x1_0000_0000
    ensures PackLength(UnpackLength(b)) == b
  {
    var b0: int, b1: int, b2: int, n: int := b[0], b[1], b[2], UnpackLength(b);
    assert n / 0x100 == b0 * 0x1_0000 + b1 * 0x100 + b2 && n % 0x100 == b[3];
    assert n / 0x1_0000 == b0 * 0x100 + b1;
    assert n / 0x100_0000 == b0;
  }

  function PayloadLength(data: seq<Byte>): nat
    requires |data| >= HEADER_LEN
  {
    UnpackLength(data[8..12])
  }

  function Header(version: Byte, msgType: Byte, flags: Byte, reserved: Byte, length: nat): (h: seq<Byte>)
    requires length < 0x1_0000_0000
    ensures |h| == HEADER_LEN
  {
    MAGIC + [version, msgType, flags, reserved] + PackLength(length)
  }

  // ---- encode and decode ----

  function Encode(f: Frame): Result<seq<Byte>, FrameError> {
    if f.version != FRAMING_VERSION then Err(UnsupportedVersion)
    else if |f.payload| > MAX_PAYLOAD then Err(PayloadTooLarge)
    else Ok(Header(f.version, f.msgType, f.flags, 0, |f.payload|) + f.payload)
  }

  function Decode(data: seq<Byte>): Result<Decoded, FrameError> {
    if |data| < HEADER_LEN then Err(TooShort)
    else if data[..4] != MAGIC then Err(BadMagic)
    else if data[4] != FRAMING_VERSION then Err(UnsupportedVersion)
    else if PayloadLength(data) > MAX_PAYLOAD then Err(PayloadTooLarge)
    else
      var total := HEADER_LEN + PayloadLength(data);
      if |data| < total then Err(Truncated)
      else Ok(Decoded(Frame(data[4], data[5], data[6], data[HEADER_LEN..total]), total))
  }

  predicate Encodable(f: Frame) {
    f.version == FRAMING_VERSION && |f.payload| <= MAX_PAYLOAD
  }

  // Decoding an encoded frame followed by anything gives the frame and its exact length,
  // and only unencodable frames are refused.
  lemma DecodeEncode(f: Frame, tail: seq<Byte>)
    ensures Encode(f).Ok? <==> Encodable(f)
    ensures Encode(f).Ok? ==>
              Decode(Encode(f).value + tail) == Ok(Decoded(f, HEADER_LEN + |f.payload|))
              && |Encode(f).value| == HEADER_LEN + |f.payload|
  {
    if Encodable(f) {
      LengthRoundTrip(|f.payload|);
      var data := Encode(f).value + tail;
      assert data[..4] == MAGIC;
      assert data[8..12] == PackLength(|f.payload|);
      assert data[HEADER_LEN..HEADER_LEN + |f.payload|] == f.payload;
    }
  }

  // The number some bytes denote, the most significant first.
  function BigEndian(b: seq<Byte>): nat {
    if b == [] then 0
    else
      var last: int := b[|b| - 1];
      BigEndian(b[..|b| - 1]) * 256 + last
  }

  lemma LengthIsBigEndian(b: seq<Byte>)
    requires |b| == 4
    ensures UnpackLength(b) == BigEndian(b)
  {
    assert b[..3][..2] == b[..2] && b[..2][..1] == b[..1] && b[..1][..0] == [];
    assert BigEndian(b[..1]) == b[0];
    var b0: int, b1: int := b[0], b[1];
    assert BigEndian(b[..2]) == b0 * 256 + b1;
  }

  // The bytes on the wire: "IICP", version, type, flags, a zero, and the payload's length with the
  // most significant byte first.
  lemma EncodedLayout(f: Frame)
    requires Encodable(f)
    ensures var e := Encode(f).value;
            && |e| == 12 + |f.payload| && e[12..] == f.payload
            && e[..4] == ['I' as int, 'I' as int, 'C' as int, 'P' as int]
            && e[4] == 1 && e[5] == f.msgType && e[6] == f.flags && e[7] == 0
            && |f.payload| == BigEndian(e[8..12])
  {
    LengthRoundTrip(|f.payload|);
    assert Encode(f).value[8..12] == PackLength(|f.payload|);
    LengthIsBigEndian(PackLength(|f.payload|));
  }

  // The decoder drops the reserved byte, so re-encoding is the identity on the consumed
  // bytes exactly when that byte was zero.
  lemma ReencodeIffReservedZero(data: seq<Byte>)
    requires Decode(data).Ok?
    ensures var d := Decode(data).value;
            Encode(d.frame) == Ok(data[..d.consumed]) <==> data[7] == 0
  {
    var d := Decode(data).value;
    LengthBytesRoundTrip(data[8..12]);
    var again := Encode(d.frame).value;
    assert |d.frame.payload| == PayloadLength(data);
    var want := data[..d.consumed];
    assert again[..4] == want[..4] && again[4] == want[4] && again[5] == want[5] && again[6] == want[6]
      && again[7] == 0;
    assert again[8..12] == want[8..12];
    assert again[12..] == want[12..];
    if data[7] == 0 {
      assert again[4..8] == want[4..8];
      assert again == again[..4] + again[4..8] + again[8..12] + again[12..];
      assert want == want[..4] + want[4..8] + want[8..12] + want[12..];
    } else {
      assert want[7] != again[7];
    }
  }

  // What is wrong with a frame is named: too large or of another version when it is encoded; cut off
  // before or behind the header's end, or with another byte in magic or version, when decoded.
  lemma FaultsOfCodec(f: Frame, tail: seq<Byte>, i: nat, b: Byte)
    ensures f.version != 1 ==> Encode(f) == Err(UnsupportedVersion)
    ensures f.version == 1 && |f.payload| > 16777216 ==> Encode(f) == Err(PayloadTooLarge)
    ensures Encodable(f) && i < 12 + |f.payload| ==>
              var s := Encode(f).value + tail;
              && Decode(s[..i]) == Err(if i < 12 then TooShort else Truncated)
              && (i < 4 && b != s[i] ==> Decode(s[i := b]) == Err(BadMagic))
              && (i == 4 && b != 1 ==> Decode(s[i := b]) == Err(UnsupportedVersion))
  {
    if Encodable(f) && i < 12 + |f.payload| {
      EncodedLayout(f);
      LengthRoundTrip(|f.payload|);
      var e, s := Encode(f).value, Encode(f).value + tail;
      assert s[..4] == e[..4] == MAGIC && s[8..12] == e[8..12] == PackLength(|f.payload|);
      if i >= 12 {
        assert s[..i][..4] == s[..4] && s[..i][8..12] == s[8..12];
      } else if i < 4 {
        assert s[i := b][..4][i] == b && MAGIC[i] == s[i];
      } else {
        assert s[i := b][..4] == s[..4];
      }
    }
  }

  // A successful decode looks only at the bytes it consumes.
  lemma DecodeIgnoresTail(data: seq<Byte>, tail: seq<Byte>)
    requires Decode(data).Ok?
    ensures Decode(data + tail) == Decode(data)
    ensures HEADER_LEN <= Decode(data).value.consumed <= |data|
  {
    assert (data + tail)[..4] == data[..4];
    assert (data + tail)[8..12] == data[8..12];
    var total := HEADER_LEN + PayloadLength(data);
    assert (data + tail)[HEADER_LEN..total] == data[HEADER_LEN..total];
  }
}
