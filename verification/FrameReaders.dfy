// The three readers of native frames (server session, client, relay) and where each of
// them cuts a stream.
module FrameReaders {
  import opened Common
  import opened Wire
  import opened Streams
  import NativeSession

  // A cut: the type and payload handed on, and the bytes used up.
  datatype Cut = Cut(msgType: Byte, payload: seq<Byte>, consumed: nat)

  datatype ClientError = Incomplete | BadMagic | BadVersion | BadType(verdict: TypeVerdict) | TooLarge

  function CutOf(s: seq<Byte>): (c: Cut)
    requires |s| >= HEADER_LEN && |s| >= HEADER_LEN + PayloadLength(s)
  {
    var total := HEADER_LEN + PayloadLength(s);
    Cut(s[5], s[HEADER_LEN..total], total)
  }

  // ---- the three cuts, each on the rest of a stream ----

  function ServerCut(s: seq<Byte>): Option<Cut> {
    if NativeSession.OpensFrame(s) then
      var d := Decode(s).value;
      Some(Cut(d.frame.msgType, d.frame.payload, d.consumed))
    else None
  }

  function ClientCut(s: seq<Byte>): Result<Cut, ClientError> {
    if |s| < HEADER_LEN then Err(Incomplete)
    else if s[..4] != MAGIC then Err(ClientError.BadMagic)
    else if s[4] != FRAMING_VERSION then Err(BadVersion)
    else if !IsStable(s[5]) then Err(BadType(ClassifyType(s[5])))
    else if PayloadLength(s) > MAX_PAYLOAD then Err(TooLarge)
    else if |s| < HEADER_LEN + PayloadLength(s) then Err(Incomplete)
    else Ok(CutOf(s))
  }

  // The relay's own reader does not look at the type.
  function RelayCut(s: seq<Byte>): Option<Cut> {
    if |s| < HEADER_LEN || s[..4] != MAGIC || s[4] != FRAMING_VERSION || PayloadLength(s) > MAX_PAYLOAD then None
    else if |s| < HEADER_LEN + PayloadLength(s) then None
    else Some(CutOf(s))
  }

  method ClientReadFrame(reader: StreamReader) returns (r: Result<Cut, ClientError>)
    requires reader.Valid()
    modifies reader
    ensures reader.Valid()
    ensures r == ClientCut(reader.stream[old(reader.pos)..])
    ensures r.Ok? ==> reader.pos == old(reader.pos) + r.value.consumed
  {
    ghost var s := reader.stream[reader.pos..];
    var head := reader.ReadExactly(HEADER_LEN);
    if head == None {
      return Err(Incomplete);
    }
    var h := head.value;
    assert h == s[..HEADER_LEN] && h[..4] == s[..4] && h[8..12] == s[8..12];
    if h[..4] != MAGIC {
      return Err(ClientError.BadMagic);
    }
    if h[4] != FRAMING_VERSION {
      return Err(BadVersion);
    }
    if !IsStable(h[5]) {
      return Err(BadType(ClassifyType(h[5])));
    }
    var n := PayloadLength(h);
    if n > MAX_PAYLOAD {
      return Err(TooLarge);
    }
    var payload: Option<seq<Byte>> := Some([]);
    if n > 0 {
      payload := reader.ReadExactly(n);
    }
    if payload == None {
      return Err(Incomplete);
    }
    assert s[HEADER_LEN..HEADER_LEN + n] == payload.value;
    r := Ok(Cut(h[5], payload.value, HEADER_LEN + n));
  }

  method RelayReadFrame(reader: StreamReader) returns (r: Option<Cut>)
    requires reader.Valid()
    modifies reader
    ensures reader.Valid()
    ensures r == RelayCut(reader.stream[old(reader.pos)..])
    ensures r.Some? ==> reader.pos == old(reader.pos) + r.value.consumed
  {
    ghost var s := reader.stream[reader.pos..];
    var header := reader.ReadExactly(HEADER_LEN);
    if header == None {
      return None;
    }
    var h := header.value;
    assert h == s[..HEADER_LEN] && h[..4] == s[..4] && h[8..12] == s[8..12];
    var n := PayloadLength(h);
    if h[..4] != MAGIC || h[4] != FRAMING_VERSION || n > MAX_PAYLOAD {
      return None;
    }
    var payload: Option<seq<Byte>> := Some([]);
    if n > 0 {
      payload := reader.ReadExactly(n);
    }
    if payload == None {
      return None;
    }
    assert s[HEADER_LEN..HEADER_LEN + n] == payload.value;
    r := Some(Cut(h[5], payload.value, HEADER_LEN + n));
  }

  // ---- agreement ----

  // Server and client agree on every stream; the relay differs exactly on a complete frame,
  // good but for a type outside the stable set, which it alone accepts.
  lemma ReadersAgree(s: seq<Byte>)
    ensures ClientCut(s).Ok? <==> ServerCut(s).Some?
    ensures ClientCut(s).Ok? ==> ServerCut(s) == Some(ClientCut(s).value)
    ensures RelayCut(s) == ServerCut(s) <==>
            !(|s| >= HEADER_LEN && s[..4] == MAGIC && s[4] == FRAMING_VERSION && PayloadLength(s) <= MAX_PAYLOAD
              && |s| >= HEADER_LEN + PayloadLength(s) && !IsStable(s[5]))
  {
  }

  // A stable frame as its sender wrote it, followed by anything.
  predicate Written(f: Frame, tail: seq<Byte>, s: seq<Byte>) {
    Encodable(f) && IsStable(f.msgType) && s == Encode(f).value + tail
  }

  // What is wrong with a frame is named: cut off anywhere, or with any other byte in its magic, its
  // version or its type.
  lemma FaultIsNamed(f: Frame, tail: seq<Byte>, s: seq<Byte>, i: nat, b: Byte)
    requires Written(f, tail, s) && i < |Encode(f).value|
    ensures ClientCut(s[..i]) == Err(Incomplete) && RelayCut(s[..i]) == None
    ensures i < 4 && b != s[i] ==> ClientCut(s[i := b]) == Err(ClientError.BadMagic) && RelayCut(s[i := b]) == None
    ensures i == 4 && b != 1 ==> ClientCut(s[i := b]) == Err(BadVersion) && RelayCut(s[i := b]) == None
    ensures i == 5 && !IsStable(b) ==> ClientCut(s[i := b]) == Err(BadType(ClassifyType(b)))
  {
    EncodedLayout(f);
    LengthRoundTrip(|f.payload|);
    var e := Encode(f).value;
    assert s[..4] == e[..4] == MAGIC && s[8..12] == e[8..12] == PackLength(|f.payload|);
    if i >= HEADER_LEN {
      assert s[..i][..4] == s[..4] && s[..i][8..12] == s[8..12];
    }
    var t := s[i := b];
    if i < 4 {
      assert t[..4][i] == b && MAGIC[i] == s[i];
    } else if i < 6 {
      assert t[..4] == s[..4] && t[8..12] == s[8..12];
    }
  }

  // A header that announces more than 16 MiB is refused before its payload is waited for.
  lemma OversizeIsNamed(s: seq<Byte>)
    requires |s| >= 12 && s[..4] == MAGIC && s[4] == 1 && IsStable(s[5])
    requires BigEndian(s[8..12]) > 16777216
    ensures ClientCut(s) == Err(TooLarge) && RelayCut(s) == None && ServerCut(s) == None
  {
    LengthIsBigEndian(s[8..12]);
  }

  function ServerCuts(s: seq<Byte>): seq<Cut>
    decreases |s|
  {
    if ServerCut(s).None? then []
    else [ServerCut(s).value] + ServerCuts(s[ServerCut(s).value.consumed..])
  }

  function ClientCuts(s: seq<Byte>): seq<Cut>
    decreases |s|
  {
    if ClientCut(s).Err? then []
    else [ClientCut(s).value] + ClientCuts(s[ClientCut(s).value.consumed..])
  }

  function RelayCuts(s: seq<Byte>): seq<Cut>
    decreases |s|
  {
    if RelayCut(s).None? then []
    else [RelayCut(s).value] + RelayCuts(s[RelayCut(s).value.consumed..])
  }

  // A whole stream is cut at the same points by server and client, and by the relay when it
  // meets only stable types; otherwise the relay's cuts go on where the others' stop.
  lemma {:induction false} StreamsCutAlike(s: seq<Byte>)
    ensures ClientCuts(s) == ServerCuts(s)
    ensures ServerCuts(s) <= RelayCuts(s)
    ensures RelayCuts(s) == ServerCuts(s) <==> forall c :: c in RelayCuts(s) ==> IsStable(c.msgType)
    decreases |s|
  {
    ReadersAgree(s);
    if RelayCut(s).Some? {
      var c := RelayCut(s).value;
      assert RelayCuts(s)[0] == c;
      if IsStable(c.msgType) {
        StreamsCutAlike(s[c.consumed..]);
        assert RelayCuts(s)[1..] == RelayCuts(s[c.consumed..]);
        assert ServerCuts(s)[1..] == ServerCuts(s[c.consumed..]);
      } else {
        assert c in RelayCuts(s);
      }
    }
  }

  // The cuts of a stream are the frames the session parser finds in it.
  lemma {:induction false} CutsAreFrames(s: seq<Byte>)
    ensures |ServerCuts(s)| == |NativeSession.ParseStream(s)|
    ensures forall i :: 0 <= i < |ServerCuts(s)| ==>
              ServerCuts(s)[i].msgType == NativeSession.ParseStream(s)[i].msgType
              && ServerCuts(s)[i].payload == NativeSession.ParseStream(s)[i].payload
    decreases |s|
  {
    if NativeSession.OpensFrame(s) {
      CutsAreFrames(s[Decode(s).value.consumed..]);
    }
  }

  // ---- what the relay sends ----

  function MakeFrame(msgType: Byte, payload: seq<Byte>): Option<seq<Byte>> {
    if |payload| > MAX_PAYLOAD then None
    else Some(Header(FRAMING_VERSION, msgType, 0, 0, |payload|) + payload)
  }

  // The relay's encoder makes the frames of the shared codec, and every reader that accepts
  // the type reads them back whatever follows.
  lemma RelayFramesRead(msgType: Byte, payload: seq<Byte>, tail: seq<Byte>)
    ensures MakeFrame(msgType, payload).Some? <==> Encode(Frame(FRAMING_VERSION, msgType, 0, payload)).Ok?
    ensures MakeFrame(msgType, payload).Some? ==>
              var bytes := MakeFrame(msgType, payload).value;
              && Encode(Frame(FRAMING_VERSION, msgType, 0, payload)) == Ok(bytes)
              && RelayCut(bytes + tail) == Some(Cut(msgType, payload, |bytes|))
              && (IsStable(msgType) ==> ClientCut(bytes + tail) == Ok(Cut(msgType, payload, |bytes|)))
  {
    if |payload| <= MAX_PAYLOAD {
      var f := Frame(FRAMING_VERSION, msgType, 0, payload);
      DecodeEncode(f, tail);
      var s := Encode(f).value + tail;
      LengthRoundTrip(|payload|);
      assert s[8..12] == PackLength(|payload|);
    }
  }
}
