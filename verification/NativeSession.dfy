// The native server's session loop: incremental reassembly over a growing buffer, the
// INIT-first handshake, and the stop conditions, against a parser of the whole stream.
module NativeSession {
  import opened Common
  import opened Wire
  import opened Streams

  // ---- the whole-stream parser ----

  // The header that opens `s` is one the server goes on with.
  predicate GoodHeader(s: seq<Byte>)
    requires |s| >= HEADER_LEN
  {
    s[..4] == MAGIC && s[4] == FRAMING_VERSION && IsStable(s[5]) && PayloadLength(s) <= MAX_PAYLOAD
  }

  predicate OpensFrame(s: seq<Byte>) {
    |s| >= HEADER_LEN && GoodHeader(s) && |s| >= HEADER_LEN + PayloadLength(s)
  }

  // Every frame of a stream, up to the first bad header or the cut-off end.
  function ParseStream(s: seq<Byte>): seq<Frame>
    decreases |s|
  {
    if !OpensFrame(s) then []
    else
      var d := Decode(s).value;
      [d.frame] + ParseStream(s[d.consumed..])
  }

  // ---- what may be dispatched ----

  // What a dispatch answers after the frames `history`, the last being the one dispatched.
  // INIT, PING, DISCOVER and CALL run code of the node and the operator; their outcome,
  // which may depend on everything so far, is `handler`. An exception counts as false.
  type Handler = seq<Frame> -> bool

  predicate KeepOpen(history: seq<Frame>, handler: Handler)
    requires history != []
  {
    var t := history[|history| - 1].msgType;
    if t == CLOSE || t == RELAY_BIND then false
    else if t == INIT || t == PING || t == DISCOVER || t == CALL then handler(history)
    else true
  }

  // After frame `i` of `history` the session went on.
  predicate StayedOpen(history: seq<Frame>, i: nat, handler: Handler)
    requires i < |history|
  {
    KeepOpen(history[..i + 1], handler)
  }

  // The handshake: INIT comes first and only first.
  predicate InTurn(history: seq<Frame>, f: Frame) {
    (history == []) <==> f.msgType == INIT
  }

  function AdmitFrom(frames: seq<Frame>, history: seq<Frame>, handler: Handler): (r: seq<Frame>)
    ensures history <= r
  {
    if frames == [] || !InTurn(history, frames[0]) then history
    else
      var h := history + [frames[0]];
      if KeepOpen(h, handler) then AdmitFrom(frames[1..], h, handler) else h
  }

  // The frames a session dispatches when the peer sends `stream`.
  function Dispatched(stream: seq<Byte>, handler: Handler): seq<Frame> {
    AdmitFrom(ParseStream(stream), [], handler)
  }

  // ---- the session loop ----

  const PEAK_BUFFER := MAX_PAYLOAD + HEADER_LEN + READ_CHUNK - 1

  lemma OpensFrameDecodes(s: seq<Byte>)
    requires OpensFrame(s)
    ensures Decode(s).Ok? && Decode(s).value.consumed == HEADER_LEN + PayloadLength(s)
    ensures Decode(s).value.frame.msgType == s[5]
  {
  }

  // The first `n` bytes of a rest decide the header and the frame like the whole rest.
  lemma PrefixDecides(s: seq<Byte>, n: nat)
    requires HEADER_LEN <= n <= |s|
    ensures GoodHeader(s[..n]) <==> GoodHeader(s)
    ensures PayloadLength(s[..n]) == PayloadLength(s)
    ensures OpensFrame(s[..n]) ==> OpensFrame(s) && Decode(s[..n]) == Decode(s)
  {
    assert s[..n][..4] == s[..4];
    assert s[..n][8..12] == s[8..12];
    if OpensFrame(s[..n]) {
      OpensFrameDecodes(s[..n]);
      DecodeIgnoresTail(s[..n], s[n..]);
      assert s[..n] + s[n..] == s;
    }
  }

  // What a buffer holding the first `n` bytes of the rest tells about the frame that opens it.
  lemma HeaderDecides(s: seq<Byte>, n: nat)
    requires HEADER_LEN <= n <= |s|
    ensures GoodHeader(s[..n]) <==> GoodHeader(s)
    ensures PayloadLength(s[..n]) == PayloadLength(s) <= MAX_PAYLOAD || !GoodHeader(s)
    ensures !GoodHeader(s) || |s| < HEADER_LEN + PayloadLength(s) ==> !OpensFrame(s)
  {
    PrefixDecides(s, n);
  }

  lemma WholeFrame(s: seq<Byte>, n: nat)
    requires HEADER_LEN <= n <= |s| && GoodHeader(s) && n >= HEADER_LEN + PayloadLength(s)
    ensures OpensFrame(s) && Decode(s[..n]).Ok? && Decode(s[..n]) == Decode(s)
    ensures Decode(s).value.consumed == HEADER_LEN + PayloadLength(s)
  {
    PrefixDecides(s, n);
    OpensFrameDecodes(s[..n]);
  }

  // Reads until the buffer holds `want` bytes; false when the peer has closed before that.
  method Fill(reader: StreamReader, buf: seq<Byte>, ghost start: nat, want: nat)
    returns (filled: bool, more: seq<Byte>)
    requires reader.Valid() && start <= reader.pos && buf == reader.stream[start..reader.pos]
    modifies reader
    ensures reader.Valid() && start <= reader.pos && more == reader.stream[start..reader.pos]
    ensures filled ==> |more| >= want
    ensures !filled ==> reader.pos == |reader.stream| && |more| < want
    ensures |buf| >= want ==> more == buf
    ensures |more| <= |buf| || |more| <= want + READ_CHUNK - 1
  {
    more := buf;
    while |more| < want
      invariant reader.Valid() && start <= reader.pos && more == reader.stream[start..reader.pos]
      invariant |buf| >= want ==> more == buf
      invariant |more| <= |buf| || |more| <= want + READ_CHUNK - 1
      decreases |reader.stream| - reader.pos
    {
      var chunk := reader.Read(READ_CHUNK);
      if chunk == [] {
        return false, more;
      }
      more := more + chunk;
    }
    filled := true;
  }

  // One round's reading: the next frame of the rest of the stream, or None at a bad header
  // or when the peer has closed before the frame was complete.
  method NextFrame(reader: StreamReader, buf: seq<Byte>, ghost start: nat)
    returns (next: Option<Decoded>, more: seq<Byte>)
    requires reader.Valid() && start <= reader.pos && buf == reader.stream[start..reader.pos]
    requires |buf| <= READ_CHUNK - 1
    modifies reader
    ensures reader.Valid() && start <= reader.pos && more == reader.stream[start..reader.pos]
    ensures next == if OpensFrame(reader.stream[start..]) then Some(Decode(reader.stream[start..]).value) else None
    ensures next.Some? ==> next.value.consumed <= |more| < next.value.consumed + READ_CHUNK
    ensures |more| <= PEAK_BUFFER
  {
    hide OpensFrame, GoodHeader, Decode, PayloadLength;
    ghost var s := reader.stream[start..];
    var filled: bool;
    filled, more := Fill(reader, buf, start, HEADER_LEN);
    assert more == s[..reader.pos - start];
    if !filled {
      NoFrameOpens(s);
      return None, more;
    }
    HeaderDecides(s, |more|);
    if !GoodHeader(more) {
      return None, more;
    }
    var total := HEADER_LEN + PayloadLength(more);
    filled, more := Fill(reader, more, start, total);
    assert more == s[..reader.pos - start];
    if !filled {
      return None, more;
    }
    WholeFrame(s, |more|);
    next := Some(Decode(more).value);
  }

  // What will have been dispatched in the end when `rest` is still to come after `history`.
  function Remaining(rest: seq<Byte>, history: seq<Frame>, handler: Handler): seq<Frame> {
    AdmitFrom(ParseStream(rest), history, handler)
  }

  lemma Round(s: seq<Byte>, history: seq<Frame>, handler: Handler)
    ensures !OpensFrame(s) ==> Remaining(s, history, handler) == history
    ensures OpensFrame(s) ==>
              var d := Decode(s).value;
              var h := history + [d.frame];
              Remaining(s, history, handler) ==
              if !InTurn(history, d.frame) then history
              else if KeepOpen(h, handler) then Remaining(s[d.consumed..], h, handler) else h
  {
    if OpensFrame(s) {
      var d := Decode(s).value;
      assert ParseStream(s)[1..] == ParseStream(s[d.consumed..]);
    }
  }

  lemma DropFront(s: seq<Byte>, start: nat, end: nat, n: nat)
    requires start + n <= end <= |s|
    ensures s[start..end][n..] == s[start + n..end] && s[start..][n..] == s[start + n..]
  {
  }

  // What the first two reads of a connection look at.
  lemma NoFrameOpens(s: seq<Byte>)
    ensures |s| < HEADER_LEN || s[..4] != MAGIC ==> !OpensFrame(s)
  {
  }

  lemma Opening(stream: seq<Byte>, handler: Handler)
    ensures Remaining(stream, [], handler) == Dispatched(stream, handler)
  {
  }

  // The first header: magic, then the rest of it. None closes the connection.
  method ReadOpening(reader: StreamReader) returns (buf: Option<seq<Byte>>)
    requires reader.Valid() && reader.pos == 0
    modifies reader
    ensures reader.Valid()
    ensures buf == None ==> !OpensFrame(reader.stream)
    ensures buf.Some? ==> buf.value == reader.stream[0..reader.pos] && |buf.value| == HEADER_LEN
  {
    NoFrameOpens(reader.stream);
    hide OpensFrame;
    var magic := reader.ReadExactly(4);
    if magic == None || magic.value != MAGIC {
      return None;
    }
    var rest := reader.ReadExactly(HEADER_LEN - 4);
    if rest == None {
      return None;
    }
    buf := Some(magic.value + rest.value);
  }

  // However the network cuts the stream into reads, exactly the frames of the whole-stream
  // parser that the handshake and the handlers let through are dispatched. `peak` is the
  // longest buffer ever held, `leftover` the longest one carried into another round.
  method Session(reader: StreamReader, handler: Handler)
    returns (dispatched: seq<Frame>, peak: nat, leftover: nat)
    requires reader.Valid() && reader.pos == 0
    modifies reader
    ensures dispatched == Dispatched(reader.stream, handler)
    ensures peak <= PEAK_BUFFER && leftover <= READ_CHUNK - 1
  {
    hide Remaining, OpensFrame, Decode, PayloadLength, KeepOpen;
    dispatched, peak, leftover := [], 0, 0;
    Round(reader.stream, [], handler);
    assert Remaining(reader.stream, [], handler) == Dispatched(reader.stream, handler) by {
      Opening(reader.stream, handler);
    }
    hide Dispatched;
    var opening := ReadOpening(reader);
    if opening == None {
      return;
    }
    var buf := opening.value;
    var initialized := false;
    ghost var start := 0;
    assert reader.stream[0..] == reader.stream;

    while true
      invariant reader.Valid() && start <= reader.pos && buf == reader.stream[start..reader.pos]
      invariant initialized <==> dispatched != []
      invariant Remaining(reader.stream[start..], dispatched, handler) == Dispatched(reader.stream, handler)
      invariant |buf| <= READ_CHUNK - 1
      invariant peak <= PEAK_BUFFER && leftover <= READ_CHUNK - 1
      decreases |reader.stream| - start
    {
      Round(reader.stream[start..], dispatched, handler);
      var next: Option<Decoded>;
      next, buf := NextFrame(reader, buf, start);
      peak := if |buf| > peak then |buf| else peak;
      if next == None {
        return;
      }
      var d := next.value;
      OpensFrameDecodes(reader.stream[start..]);
      DropFront(reader.stream, start, reader.pos, d.consumed);
      buf := buf[d.consumed..];
      start := start + d.consumed;
      leftover := if |buf| > leftover then |buf| else leftover;
      if (!initialized && d.frame.msgType != INIT) || (initialized && d.frame.msgType == INIT) {
        return;
      }
      dispatched := dispatched + [d.frame];
      initialized := true;
      if !KeepOpen(dispatched, handler) {
        return;
      }
    }
  }

  // ---- what follows about every stream ----

  // INIT is first and only first, every type is stable, and no frame but the last may have
  // closed the session.
  ghost predicate Conversation(r: seq<Frame>, handler: Handler) {
    && (forall i :: 0 <= i < |r| ==> IsStable(r[i].msgType) && ((i == 0) == (r[i].msgType == INIT)))
    && (forall i :: 0 <= i < |r| - 1 ==> StayedOpen(r, i, handler))
  }

  lemma {:induction false} AdmittedShape(frames: seq<Frame>, history: seq<Frame>, handler: Handler)
    requires forall f :: f in frames ==> IsStable(f.msgType)
    requires Conversation(history, handler)
    requires history != [] ==> KeepOpen(history, handler)
    ensures Conversation(AdmitFrom(frames, history, handler), handler)
  {
    if frames != [] && InTurn(history, frames[0]) {
      var h := history + [frames[0]];
      forall i | 0 <= i < |h| - 1 ensures StayedOpen(h, i, handler) {
        assert h[..i + 1] == history[..i + 1];
        if i == |history| - 1 {
          assert history[..i + 1] == history;
        } else {
          assert StayedOpen(history, i, handler);
        }
      }
      if KeepOpen(h, handler) {
        AdmittedShape(frames[1..], h, handler);
      }
    }
  }

  lemma {:induction false} ParsedStable(s: seq<Byte>)
    ensures forall f :: f in ParseStream(s) ==> IsStable(f.msgType)
    decreases |s|
  {
    if OpensFrame(s) {
      OpensFrameDecodes(s);
      ParsedStable(s[Decode(s).value.consumed..]);
    }
  }

  lemma DispatchedShape(stream: seq<Byte>, handler: Handler)
    ensures Conversation(Dispatched(stream, handler), handler)
  {
    ParsedStable(stream);
    AdmittedShape(ParseStream(stream), [], handler);
  }

  // Nothing is dispatched after a close or an out-of-turn frame: the admitted frames are a
  // prefix of the parsed ones, and they stop early only for one of those reasons.
  lemma {:induction false} AdmittedStops(frames: seq<Frame>, history: seq<Frame>, handler: Handler)
    ensures var r := AdmitFrom(frames, history, handler);
            var k := |r| - |history|;
            && 0 <= k <= |frames| && r == history + frames[..k]
            && (k < |frames| ==> !InTurn(r, frames[k]) || (k > 0 && !KeepOpen(r, handler)))
  {
    if frames != [] && InTurn(history, frames[0]) {
      var h := history + [frames[0]];
      if KeepOpen(h, handler) {
        AdmittedStops(frames[1..], h, handler);
        var k := |AdmitFrom(frames, history, handler)| - |h|;
        assert frames[..k + 1] == [frames[0]] + frames[1..][..k];
      }
    }
  }

  // The message types whose dispatch runs code that may end the session.
  predicate Asked(t: Byte) {
    t == 0x01 || t == 0x03 || t == 0x05 || t == 0x09
  }

  // The session went on behind the last of these frames: it was no CLOSE, and the code it ran,
  // if any, did not end the session.
  predicate WentOn(r: seq<Frame>, handler: Handler)
    requires r != []
  {
    var t := r[|r| - 1].msgType;
    t != 0x07 && (Asked(t) ==> handler(r))
  }

  predicate WentOnBehind(r: seq<Frame>, i: nat, handler: Handler)
    requires i < |r|
  {
    WentOn(r[..i + 1], handler)
  }

  // In any session: nothing is dispatched behind a CLOSE, nor behind an INIT, DISCOVER, CALL or
  // PING whose code ended the session; and the session stops short of the parsed frames only at
  // a frame out of turn, or behind one of those.
  lemma EndsExactly(stream: seq<Byte>, handler: Handler)
    ensures var r, all := Dispatched(stream, handler), ParseStream(stream);
            && r <= all
            && (forall i :: 0 <= i < |r| - 1 ==> WentOnBehind(r, i, handler))
            && (forall i :: 0 <= i < |r| ==> (r[i].msgType == 0x01) == (i == 0))
            && (|r| < |all| ==> (all[|r|].msgType == 0x01) != (r == []) || (r != [] && !WentOn(r, handler)))
  {
    var r, all := Dispatched(stream, handler), ParseStream(stream);
    ParsedStable(stream);
    DispatchedShape(stream, handler);
    AdmittedStops(all, [], handler);
    assert r == all[..|r|];
    forall f | f in all ensures IsStable(f.msgType) && f.msgType != RELAY_BIND {
    }
    forall i | 0 <= i < |r| - 1 ensures WentOnBehind(r, i, handler) {
      assert StayedOpen(r, i, handler) && r[i] == all[i];
    }
    if r != [] {
      assert r[|r| - 1] == all[|r| - 1] && all[|r| - 1] in all;
    }
  }

  lemma WentOnAt(all: seq<Frame>, n: nat, i: nat, handler: Handler)
    requires i < n <= |all| && WentOnBehind(all[..n], i, handler)
    ensures WentOn(all[..i + 1], handler)
  {
    assert all[..n][..i + 1] == all[..i + 1];
  }

  // These conditions leave no choice: they fix what a session dispatches.
  lemma EndsUniquely(all: seq<Frame>, handler: Handler, m: nat, n: nat)
    requires m <= n <= |all|
    requires forall i :: 0 <= i < n - 1 ==> WentOnBehind(all[..n], i, handler)
    requires forall i :: 0 <= i < n ==> (all[i].msgType == 0x01) == (i == 0)
    requires m < |all| ==> (all[m].msgType == 0x01) != (m == 0) || (m > 0 && !WentOn(all[..m], handler))
    ensures m == n
  {
    if 0 < m < n {
      WentOnAt(all, n, m - 1, handler);
    }
  }

  // More bytes never change what was dispatched before they arrived.
  lemma {:induction false} ParseGrows(s: seq<Byte>, tail: seq<Byte>)
    ensures ParseStream(s) <= ParseStream(s + tail)
    decreases |s|
  {
    if OpensFrame(s) {
      OpensFrameDecodes(s);
      var n := Decode(s).value.consumed;
      assert (s + tail)[..|s|] == s;
      PrefixDecides(s + tail, |s|);
      ParseGrows(s[n..], tail);
      assert (s + tail)[n..] == s[n..] + tail;
    }
  }

  lemma {:induction false} AdmitGrows(frames: seq<Frame>, more: seq<Frame>, history: seq<Frame>, handler: Handler)
    requires frames <= more
    ensures AdmitFrom(frames, history, handler) <= AdmitFrom(more, history, handler)
  {
    if frames != [] && InTurn(history, frames[0]) && KeepOpen(history + [frames[0]], handler) {
      AdmitGrows(frames[1..], more[1..], history + [frames[0]], handler);
    }
  }

  lemma DispatchGrows(s: seq<Byte>, tail: seq<Byte>, handler: Handler)
    ensures Dispatched(s, handler) <= Dispatched(s + tail, handler)
  {
    ParseGrows(s, tail);
    AdmitGrows(ParseStream(s), ParseStream(s + tail), [], handler);
  }

  // ---- the parser undoes a sender ----

  predicate Sendable(frames: seq<Frame>) {
    forall i :: 0 <= i < |frames| ==> Encodable(frames[i]) && IsStable(frames[i].msgType)
  }

  function EncodeAll(frames: seq<Frame>): seq<Byte>
    requires Sendable(frames)
  {
    if frames == [] then []
    else
      DecodeEncode(frames[0], []);
      Encode(frames[0]).value + EncodeAll(frames[1..])
  }

  lemma EncodedOpens(f: Frame, rest: seq<Byte>)
    requires Encodable(f) && IsStable(f.msgType)
    ensures Encode(f).Ok?
    ensures var s := Encode(f).value + rest;
            OpensFrame(s) && Decode(s) == Ok(Decoded(f, |Encode(f).value|)) && s[|Encode(f).value|..] == rest
  {
    DecodeEncode(f, rest);
    LengthRoundTrip(|f.payload|);
    var s := Encode(f).value + rest;
    assert s[..4] == MAGIC && s[8..12] == PackLength(|f.payload|);
  }

  lemma ParseStep(s: seq<Byte>, f: Frame, n: nat)
    requires OpensFrame(s) && Decode(s) == Ok(Decoded(f, n)) && n <= |s|
    ensures ParseStream(s) == [f] + ParseStream(s[n..])
  {
  }

  lemma Regroup(a: seq<Byte>, b: seq<Byte>, c: seq<Byte>)
    ensures a + b + c == a + (b + c)
  {
  }

  lemma EncodeStep(frames: seq<Frame>, tail: seq<Byte>)
    requires Sendable(frames) && frames != []
    ensures Sendable(frames[1..]) && Encode(frames[0]).Ok?
    ensures EncodeAll(frames) + tail == Encode(frames[0]).value + (EncodeAll(frames[1..]) + tail)
  {
    DecodeEncode(frames[0], []);
    var first, rest := Encode(frames[0]).value, EncodeAll(frames[1..]);
    assert EncodeAll(frames) == first + rest;
    hide *;
    Regroup(first, rest, tail);
  }

  // What a sender wrote, followed by a piece that opens no frame, parses back to its frames.
  lemma {:induction false} ParseUndoesEncode(frames: seq<Frame>, tail: seq<Byte>)
    requires Sendable(frames)
    requires !OpensFrame(tail)
    ensures ParseStream(EncodeAll(frames) + tail) == frames
  {
    if frames == [] {
      assert EncodeAll(frames) + tail == tail;
    } else {
      EncodeStep(frames, tail);
      var rest := EncodeAll(frames[1..]) + tail;
      EncodedOpens(frames[0], rest);
      ParseUndoesEncode(frames[1..], tail);
      hide *;
      ParseStep(EncodeAll(frames) + tail, frames[0], |Encode(frames[0]).value|);
    }
  }

  // A conforming conversation is dispatched whole.
  lemma {:induction false} ConversationAdmitted(frames: seq<Frame>, n: nat, handler: Handler)
    requires Conversation(frames, handler) && n <= |frames|
    ensures AdmitFrom(frames[n..], frames[..n], handler) == frames
    decreases |frames| - n
  {
    if n == |frames| {
      assert frames[..n] == frames;
    } else {
      assert frames[..n] + [frames[n]] == frames[..n + 1];
      assert frames[n..][1..] == frames[n + 1..];
      if n + 1 < |frames| {
        assert StayedOpen(frames, n, handler);
        ConversationAdmitted(frames, n + 1, handler);
      } else {
        assert frames[..n + 1] == frames;
      }
    }
  }

  lemma ConversationDispatched(frames: seq<Frame>, handler: Handler)
    requires Sendable(frames) && Conversation(frames, handler)
    ensures Dispatched(EncodeAll(frames), handler) == frames
  {
    ParseUndoesEncode(frames, []);
    assert EncodeAll(frames) + [] == EncodeAll(frames);
    if frames != [] {
      ConversationAdmitted(frames, 0, handler);
      assert frames[0..] == frames && frames[..0] == [];
    }
  }
}
