// What the body reader refuses: cut-off and corrupted messages, and requests whose headers do not
// select one framing.
module HttpBodyFaults {
  import opened Common
  import opened HttpBody

  // ---- a message that is cut off ----

  lemma {:induction false} LineLengthSame(s: seq<Byte>, t: seq<Byte>, limit: nat)
    requires LineLength(s, limit) > 0 && s[LineLength(s, limit) - 1] == LF
    ensures LineLength(s + t, limit) == LineLength(s, limit)
  {
    if s[0] != LF {
      assert (s + t)[1..] == s[1..] + t;
      LineLengthSame(s[1..], t, limit - 1);
    }
  }

  function AfterLine(s: seq<Byte>): seq<Byte> {
    s[|Line(s)|..]
  }

  lemma LineSame(s: seq<Byte>, t: seq<Byte>)
    requires EndsCrlf(Line(s))
    ensures Line(s + t) == Line(s) && AfterLine(s + t) == AfterLine(s) + t && |AfterLine(s)| == |s| - |Line(s)| < |s|
  {
    var n := LineLength(s, LINE_READ);
    assert Line(s)[n - 2..][1] == LF;
    LineLengthSame(s, t, LINE_READ);
  }

  // One line of a trailer section.
  lemma TrailersNext(s: seq<Byte>, seen: nat)
    ensures var line, rest := Line(s), Trailers(AfterLine(s), seen + |Line(s)|);
            Trailers(s, seen) ==
            if line == CRLF then Some(2)
            else if !EndsCrlf(line) || seen + |line| > MAX_TRAILERS then None
            else if rest.Some? then Some(|line| + rest.value) else None
  {
    hide Trailers, Line, EndsCrlf;
    TrailersRound(s, seen);
  }

  lemma CrlfEnds(s: seq<Byte>, seen: nat)
    requires Trailers(s, seen).Some?
    ensures EndsCrlf(Line(s))
  {
    hide Line;
  }

  lemma StepSame(s: seq<Byte>, u: seq<Byte>, seen: nat)
    requires Line(u) == Line(s)
    requires Trailers(AfterLine(s), seen + |Line(s)|).Some? ==>
               Trailers(AfterLine(u), seen + |Line(s)|) == Trailers(AfterLine(s), seen + |Line(s)|)
    requires Trailers(s, seen).Some?
    ensures Trailers(u, seen) == Trailers(s, seen)
  {
    hide *;
    TrailersNext(s, seen);
    TrailersNext(u, seen);
  }

  lemma {:induction false} TrailersSame(s: seq<Byte>, t: seq<Byte>, seen: nat)
    requires Trailers(s, seen).Some?
    ensures Trailers(s + t, seen) == Trailers(s, seen)
    decreases |s|
  {
    hide *;
    CrlfEnds(s, seen);
    LineSame(s, t);
    var rest, now := AfterLine(s), seen + |Line(s)|;
    if Trailers(rest, now).Some? {
      TrailersSame(rest, t, now);
    }
    StepSame(s, s + t, seen);
  }

  lemma LastSame(s: seq<Byte>, u: seq<Byte>, have: nat)
    requires NextChunk(s, have).Last? && Line(u) == Line(s)
    requires Trailers(AfterLine(s), 0).Some? ==> Trailers(AfterLine(u), 0) == Trailers(AfterLine(s), 0)
    ensures NextChunk(u, have) == NextChunk(s, have)
  {
    AfterIs(s);
    AfterIs(u);
    hide Line, ChunkSize, Trailers, EndsCrlf, AfterLine;
  }

  lemma DataSame(s: seq<Byte>, u: seq<Byte>, have: nat)
    requires NextChunk(s, have).Data? && Line(u) == Line(s) && AfterLine(s) <= AfterLine(u)
    ensures NextChunk(u, have) == NextChunk(s, have)
  {
    AfterIs(s);
    AfterIs(u);
    var n := ChunkSize(Line(s)).value;
    hide Line, ChunkSize, Trailers, EndsCrlf, AfterLine;
    SliceSame(AfterLine(s), AfterLine(u), n);
  }

  lemma NotBadEnds(s: seq<Byte>, have: nat)
    requires !NextChunk(s, have).Bad?
    ensures EndsCrlf(Line(s)) && (NextChunk(s, have).Last? ==> Trailers(AfterLine(s), 0).Some?)
  {
    AfterIs(s);
    hide Line, ChunkSize, Trailers, EndsCrlf, AfterLine;
  }

  lemma NextChunkSame(s: seq<Byte>, t: seq<Byte>, have: nat)
    requires !NextChunk(s, have).Bad?
    ensures NextChunk(s + t, have) == NextChunk(s, have)
    ensures (s + t)[NextChunk(s, have).used..] == s[NextChunk(s, have).used..] + t
  {
    hide *;
    NotBadEnds(s, have);
    LineSame(s, t);
    if NextChunk(s, have).Last? {
      TrailersSame(AfterLine(s), t, 0);
      LastSame(s, s + t, have);
    } else {
      DataSame(s, s + t, have);
    }
  }

  lemma AfterIs(s: seq<Byte>)
    ensures |Line(s)| <= |s| && AfterLine(s) == s[|Line(s)|..]
  {
  }

  lemma SliceSame(a: seq<Byte>, b: seq<Byte>, n: nat)
    requires n + 2 <= |a| && a <= b
    ensures b[..n] == a[..n] && b[n..n + 2] == a[n..n + 2]
  {
  }

  // A body that was read is read the same when more bytes follow.
  lemma {:induction false} ReadIgnoresTail(s: seq<Byte>, t: seq<Byte>, have: nat)
    requires Chunks(s, have).Ok?
    ensures Chunks(s + t, have) == Chunks(s, have)
    decreases |s|
  {
    ChunksRound(s, have);
    ChunksRound(s + t, have);
    hide NextChunk, Chunks;
    NextChunkSame(s, t, have);
    match NextChunk(s, have) {
      case Bad(_) =>
      case Last(_) =>
      case Data(bytes, used) => ReadIgnoresTail(s[used..], t, have + |bytes|);
    }
  }

  // A message cut off anywhere before its end is refused.
  lemma TruncatedRefused(m: Message, n: nat)
    requires ValidMessage(m) && |BodyOf(m.pieces)| <= MAX_BODY && n < |EncodePieces(m)|
    ensures Chunks(EncodePieces(m)[..n], 0).Err?
  {
    var s := EncodePieces(m);
    ChunkedRoundTrip(m, [], 0);
    assert s + [] == s && s[..n] + s[n..] == s;
    hide *;
    if Chunks(s[..n], 0).Ok? {
      ReadIgnoresTail(s[..n], s[n..], 0);
      ReadBudget(s[..n], 0);
    }
  }

  // ---- a message that goes wrong ----

  predicate ValidPieces(pieces: seq<Piece>) {
    forall p :: p in pieces ==> p.data != [] && ValidLine(p.line, |p.data|)
  }

  function Sent(pieces: seq<Piece>): seq<Byte> {
    if pieces == [] then [] else EncodeLine(pieces[0].line) + pieces[0].data + CRLF + Sent(pieces[1..])
  }

  // Behind any valid chunks the reader stands where they end: a fault there is its answer.
  lemma {:induction false} FaultBehind(pieces: seq<Piece>, rest: seq<Byte>, have: nat, fault: Fault)
    requires ValidPieces(pieces) && have + |BodyOf(pieces)| <= MAX_BODY
    requires NextChunk(rest, have + |BodyOf(pieces)|) == Bad(fault)
    ensures Chunks(Sent(pieces) + rest, have) == Err(fault)
    decreases |pieces|
  {
    var s := Sent(pieces) + rest;
    ChunksRound(s, have);
    hide NextChunk, Chunks, ValidLine, EncodeLine;
    if pieces == [] {
      assert s == rest;
    } else {
      var p, later := pieces[0], Sent(pieces[1..]) + rest;
      assert p in pieces && forall q :: q in pieces[1..] ==> q in pieces;
      assert s == EncodeLine(p.line) + p.data + CRLF + later;
      PieceRead(p, later, have);
      FaultBehind(pieces[1..], rest, have + |p.data|, fault);
    }
  }

  // Chunk data that is not followed by a CRLF.
  lemma BadTerminator(p: Piece, end: seq<Byte>, more: seq<Byte>, have: nat)
    requires p.data != [] && ValidLine(p.line, |p.data|) && have + |p.data| <= MAX_BODY
    requires |end| == 2 && end != [13, 10]
    ensures NextChunk(EncodeLine(p.line) + p.data + end + more, have) == Bad(MalformedTerminator)
  {
    hide Line, ChunkSize, EncodeLine, Trailers;
    var after := p.data + end + more;
    assert EncodeLine(p.line) + p.data + end + more == EncodeLine(p.line) + after;
    LineNext(p.line, |p.data|, after);
    assert after[|p.data|..|p.data| + 2] == end;
  }

  // A size line that is too long, or ends without a carriage return.
  lemma {:induction false} LongLine(content: seq<Byte>, limit: nat)
    requires NoLf(content) && |content| >= limit
    ensures LineLength(content, limit) == limit
  {
    if limit > 0 {
      LongLine(content[1..], limit - 1);
    }
  }

  lemma {:induction false} LongerLine(content: seq<Byte>, tail: seq<Byte>, limit: nat)
    requires NoLf(content) && |content| >= limit
    ensures LineLength(content + tail, limit) == limit
  {
    if limit > 0 {
      assert (content + tail)[1..] == content[1..] + tail;
      LongerLine(content[1..], tail, limit - 1);
    }
  }

  lemma BadHeader(content: seq<Byte>, tail: seq<Byte>, have: nat)
    requires NoLf(content)
    requires |content| > 8191 || content == [] || content[|content| - 1] != CR
    ensures |content| > 8191 ==> NextChunk(content + [CR, LF] + tail, have) == Bad(MalformedHeader)
    ensures content != [] && content[|content| - 1] != CR ==>
              NextChunk(content + [LF] + tail, have) == Bad(MalformedHeader)
  {
    hide Trailers, ChunkSize;
    if |content| > 8191 {
      var s := content + [CR, LF] + tail;
      if |content| == 8192 {
        assert s == (content + [CR]) + [LF] + tail;
        LineIs(content + [CR], tail, LINE_READ);
      } else if |content| == 8193 {
        assert s == (content + [CR]) + ([LF] + tail);
        LongerLine(content + [CR], [LF] + tail, LINE_READ);
        assert s[8193] == CR;
      } else {
        assert s == content + ([CR, LF] + tail);
        LongerLine(content, [CR, LF] + tail, LINE_READ);
        assert s[8193] == content[8193];
      }
    }
    if content != [] && content[|content| - 1] != CR {
      var s := content + [LF] + tail;
      if |content| < LINE_READ {
        LineIs(content, tail, LINE_READ);
        assert Line(s)[|content| - 1] == content[|content| - 1];
        assert Line(s)[|Line(s)| - 2..][0] == content[|content| - 1];
      } else {
        assert s == content + ([LF] + tail);
        LongerLine(content, [LF] + tail, LINE_READ);
        assert s[8193] == content[8193];
      }
    }
  }

  // A size that is no number, such as one with a letter beyond f, and a negative one.
  predicate Foreign(b: Byte) {
    !IsHex(b) && b != 95 && b != 43 && b != 45 && b != 120 && b != 88 && !IsSpace(b) && b != SEMICOLON
  }

  lemma {:induction false} BeforeSemicolonOf(s: seq<Byte>)
    requires SEMICOLON !in s
    ensures BeforeSemicolon(s) == s
  {
    if s != [] {
      BeforeSemicolonOf(s[1..]);
    }
  }

  lemma {:induction false} StripKeeps(s: seq<Byte>, i: nat)
    requires i < |s| && !IsSpace(s[i])
    ensures s[i] in StripLeft(s) && s[i] in StripRight(s)
    decreases |s|
  {
    if IsSpace(s[0]) {
      StripKeeps(s[1..], i - 1);
      assert s[1..][i - 1] == s[i];
    }
    if IsSpace(s[|s| - 1]) {
      assert i < |s| - 1 && s[..|s| - 1][i] == s[i];
      StripKeeps(s[..|s| - 1], i);
    }
  }

  lemma BadSize(content: seq<Byte>, i: nat, tail: seq<Byte>, have: nat)
    requires NoLf(content) && SEMICOLON !in content && |content| + 2 <= MAX_HEADER_LINE
    requires i < |content| && Foreign(content[i])
    ensures NextChunk(content + CRLF + tail, have) == Bad(MalformedSize)
  {
    NextLine(content, tail);
    var line := content + CRLF;
    assert line[..|line| - 2] == content;
    BeforeSemicolonOf(content);
    StripKeeps(content, i);
    var left := StripLeft(content);
    var j :| 0 <= j < |left| && left[j] == content[i];
    StripKeeps(left, j);
    ForeignIsRefused(Strip(content), content[i]);
    hide Line, Trailers, StripLeft, StripRight, ParseInt16;
  }

  lemma ForeignIsRefused(text: seq<Byte>, b: Byte)
    requires b in text && Foreign(b)
    ensures ParseInt16(text) == None
  {
    var i :| 0 <= i < |text| && text[i] == b;
    var from := if text[0] == 43 || text[0] == 45 then 1 else 0;
    var u := text[from..];
    assert i >= from && u[i - from] == b;
    if |u| >= 2 && u[0] == 48 && (u[1] == 120 || u[1] == 88) {
      var skip := if |u| >= 3 && u[2] == UNDERSCORE then 3 else 2;
      assert i - from >= skip && u[skip..][i - from - skip] == b;
    }
  }

  lemma NegativeText(size: seq<Byte>)
    requires PlainHex(size)
    ensures NoLf([45] + size) && Strip(BeforeSemicolon([45] + size)) == [45] + size
  {
    var content := [45] + size;
    forall b | b in content ensures b != LF && b != SEMICOLON && !IsSpace(b) {
    }
    BeforeSemicolonOf(content);
    assert StripLeft(content) == content;
    assert content[|content| - 1] in content;
  }

  lemma NegativeIsRead(size: seq<Byte>, n: int)
    requires PlainHex(size) && Digits(size) && Value(size) == n
    ensures ParseInt16([45] + size) == Some(-n)
  {
    assert ([45] + size)[1..] == size;
    hide Value;
  }

  lemma NegativeSize(size: seq<Byte>, n: nat, tail: seq<Byte>, have: nat)
    requires Spells(size, n) && n > 0 && |size| + 3 <= MAX_HEADER_LINE
    ensures NextChunk([45] + size + CRLF + tail, have) == Bad(MalformedSize)
  {
    SpellingIsRead(size, n);
    PlainIsRead(size, n);
    NegativeText(size);
    hide Spells, Value, Digits, Trailers, Line;
    var content := [45] + size;
    NextLine(content, tail);
    var line := content + CRLF;
    assert line[..|line| - 2] == content;
    NegativeIsRead(size, n);
    hide ParseInt16, Strip, BeforeSemicolon;
  }

  // Trailer lines that fit into one read each.
  predicate LinesFit(trailers: seq<seq<Byte>>) {
    forall t :: t in trailers ==> t != [] && NoLf(t) && |t| <= 8190
  }

  lemma LinesSplit(trailers: seq<seq<Byte>>)
    requires LinesFit(trailers) && trailers != []
    ensures LinesFit(trailers[1..]) && trailers[0] != [] && NoLf(trailers[0]) && |trailers[0]| <= 8190
  {
    hide NoLf;
    assert trailers[0] in trailers;
  }

  lemma TrailerFirst(trailers: seq<seq<Byte>>, tail: seq<Byte>)
    requires trailers != [] && trailers[0] != [] && NoLf(trailers[0]) && |trailers[0]| <= 8190
    ensures var s := EncodeTrailers(trailers) + tail;
            && Line(s) == trailers[0] + CRLF != CRLF && EndsCrlf(Line(s))
            && AfterLine(s) == EncodeTrailers(trailers[1..]) + tail
  {
    var line, rest := trailers[0] + CRLF, EncodeTrailers(trailers[1..]) + tail;
    assert EncodeTrailers(trailers) + tail == line + rest;
    hide Line, EncodeTrailers, NoLf;
    NextLine(trailers[0], rest);
    assert |line| > 2;
  }

  // A last chunk whose trailers take more than 8192 bytes.
  lemma {:induction false} LongTrailers(trailers: seq<seq<Byte>>, tail: seq<Byte>, seen: nat)
    requires LinesFit(trailers) && seen <= MAX_TRAILERS < seen + TrailerSize(trailers)
    ensures Trailers(EncodeTrailers(trailers) + tail, seen) == None
    decreases |trailers|
  {
    hide LinesFit, Trailers, Line, EncodeTrailers, EndsCrlf, AfterLine, NoLf;
    LinesSplit(trailers);
    TrailerFirst(trailers, tail);
    var s := EncodeTrailers(trailers) + tail;
    TrailersNext(s, seen);
    if seen + |Line(s)| <= MAX_TRAILERS {
      LongTrailers(trailers[1..], tail, seen + |Line(s)|);
    }
  }

  lemma LongTrailersRefused(last: SizeLine, trailers: seq<seq<Byte>>, tail: seq<Byte>, have: nat)
    requires ValidLine(last, 0) && LinesFit(trailers) && TrailerSize(trailers) > MAX_TRAILERS
    ensures NextChunk(EncodeLine(last) + (EncodeTrailers(trailers) + tail), have) == Bad(MalformedTrailer)
  {
    hide Line, ChunkSize, EncodeLine, Trailers, EncodeTrailers;
    LineNext(last, 0, EncodeTrailers(trailers) + tail);
    LongTrailers(trailers, tail, 0);
  }

  // ---- headers ----

  // Values as a sender gives them, in one header line or in several.
  predicate Plain(v: string) {
    v != "" && ',' !in v && !IsBlank(v[0]) && !IsBlank(v[|v| - 1])
  }

  function Join(vs: seq<string>): string
    requires vs != []
  {
    if |vs| == 1 then vs[0] else vs[0] + "," + ([' '] + Join(vs[1..]))
  }

  lemma {:induction false} SplitFirst(v: string, rest: string)
    requires ',' !in v
    ensures SplitCommas(v + "," + rest) == [v] + SplitCommas(rest)
  {
    if v == "" {
      assert v + "," + rest == "," + rest && ("," + rest)[1..] == rest;
    } else {
      assert (v + "," + rest)[1..] == v[1..] + "," + rest;
      SplitFirst(v[1..], rest);
      assert [v[0]] + v[1..] == v;
    }
  }

  lemma TrimPlain(v: string)
    requires Plain(v)
    ensures TrimRight(TrimLeft(v)) == v && TrimRight(TrimLeft([' '] + v)) == v
  {
    assert ([' '] + v)[1..] == v;
    assert TrimLeft(v) == v && TrimRight(v) == v && TrimLeft([' '] + v) == TrimLeft(v);
  }

  function Front(blank: bool): string {
    if blank then [' '] else []
  }

  lemma OneSplits(v: string, blank: bool)
    requires Plain(v)
    ensures ',' !in Front(blank) + v && TrimAll(SplitCommas(Front(blank) + v)) == [v]
    ensures TrimRight(TrimLeft(Front(blank) + v)) == v
  {
    TrimPlain(v);
    assert !blank ==> Front(blank) + v == v;
    Unsplit(Front(blank) + v);
    assert TrimAll([Front(blank) + v]) == [TrimRight(TrimLeft(Front(blank) + v))];
    hide TrimLeft, TrimRight, SplitCommas;
  }

  lemma TrimCons(w: string, rest: seq<string>)
    ensures TrimAll([w] + rest) == [TrimRight(TrimLeft(w))] + TrimAll(rest)
  {
    hide TrimLeft, TrimRight;
  }

  lemma MoreSplit(v: string, rest: string, blank: bool)
    requires Plain(v)
    ensures TrimAll(SplitCommas(Front(blank) + (v + "," + rest))) == [v] + TrimAll(SplitCommas(rest))
  {
    hide *;
    OneSplits(v, blank);
    var w := Front(blank) + v;
    assert Front(blank) + (v + "," + rest) == w + "," + rest;
    SplitFirst(w, rest);
    TrimCons(w, SplitCommas(rest));
  }

  lemma {:induction false} JoinedIsSplit(vs: seq<string>, blank: bool)
    requires vs != [] && forall v :: v in vs ==> Plain(v)
    ensures TrimAll(SplitCommas(Front(blank) + Join(vs))) == vs
    decreases |vs|
  {
    assert vs[0] in vs && vs == [vs[0]] + vs[1..];
    hide TrimAll, SplitCommas, Plain;
    if |vs| == 1 {
      OneSplits(vs[0], blank);
    } else {
      assert forall w :: w in vs[1..] ==> w in vs;
      MoreSplit(vs[0], Front(true) + Join(vs[1..]), blank);
      JoinedIsSplit(vs[1..], true);
    }
  }

  lemma FirstLine(v: string, vs: seq<string>)
    requires Plain(v)
    ensures HeaderValues([v] + vs) == [v] + HeaderValues(vs)
  {
    OneSplits(v, false);
    assert Front(false) + v == v && ([v] + vs)[1..] == vs;
    hide TrimAll, SplitCommas, Plain;
  }

  // Values joined by commas in one line, or each in its own line, are the same values.
  lemma {:induction false} HeaderLinesAgree(vs: seq<string>)
    requires vs != [] && forall v :: v in vs ==> Plain(v)
    ensures HeaderValues([Join(vs)]) == vs && HeaderValues(vs) == vs
  {
    JoinedIsSplit(vs, false);
    assert Front(false) + Join(vs) == Join(vs);
    assert HeaderValues([Join(vs)][1..]) == [] && HeaderValues([]) == [];
    assert vs[0] in vs && vs == [vs[0]] + vs[1..];
    assert forall w :: w in vs[1..] ==> w in vs;
    hide TrimAll, SplitCommas, Plain, Join;
    FirstLine(vs[0], vs[1..]);
    if |vs| > 1 {
      HeaderLinesAgree(vs[1..]);
    }
  }

  // What each refusal of the lengths means.
  lemma LengthsRefused(h: Headers)
    ensures var lengths := HeaderValues(h.contentLength);
            var garbled := exists v :: v in lengths && !IsDecimal(v);
            var endless := exists v :: v in lengths && |v| > 4300;
            && (ContentLength(h) == Err(BadContentLength) <==> garbled)
            && (ContentLength(h) == Err(UncaughtValueError) <==> !garbled && endless)
            && (!garbled && !endless ==>
                  (ContentLength(h) == Err(ConflictingLength) <==>
                   exists v, w :: v in lengths && w in lengths && DecimalValue(v) != DecimalValue(w)))
            && (ContentLength(h).Err? ==>
                  ContentLength(h).error in {BadContentLength, UncaughtValueError, ConflictingLength})
  {
    hide HeaderValues, DecimalValue;
    var lengths := HeaderValues(h.contentLength);
    if lengths != [] {
      assert lengths[0] in lengths;
      assert (exists v :: v in lengths && !IsDecimal(v)) || IsDecimal(lengths[0]);
    }
    hide IsDecimal;
  }

  // What each refusal of the headers means, in the order in which they are looked for.
  lemma HeadersRefused(h: Headers)
    ensures var encodings, lengths := HeaderValues(h.contentEncoding), HeaderValues(h.contentLength);
            var transfer := HeaderValues(h.transferEncoding);
            var encoded := exists v :: v in encodings && Lower(v) != "identity";
            var sized := ContentLength(h);
            && (FramingOf(h) == Err(BadContentEncoding) <==> encoded)
            && (!encoded && sized.Err? ==> FramingOf(h) == Err(sized.error))
            && (!encoded && sized.Ok? ==>
                  && (FramingOf(h) == Err(BothFramings) <==> transfer != [] && lengths != [])
                  && (FramingOf(h) == Err(BadTransferEncoding) <==>
                      transfer != [] && lengths == [] && !(|transfer| == 1 && Lower(transfer[0]) == "chunked"))
                  && (FramingOf(h) == Err(TooLarge) <==>
                      transfer == [] && lengths != [] && sized.value.value > 1048576))
  {
    hide HeaderValues, LowerAll, ContentLength;
    LengthsRefused(h);
    LengthIs(h, 0);
    TransferIs(HeaderValues(h.transferEncoding));
    hide Lower;
  }

  // Of the codings only identity is taken, and only chunked of the transfer codings, in letters
  // of either case.
  lemma CodingsAre(encoding: string, transfer: string)
    requires Plain(encoding) && Plain(transfer)
    ensures FramingOf(Headers([encoding], [], [transfer])) ==
            if Lower(encoding) != "identity" then Err(BadContentEncoding)
            else if Lower(transfer) != "chunked" then Err(BadTransferEncoding)
            else Ok(Chunked)
    ensures Lower("CHUNKED") == "chunked"
  {
    var h := Headers([encoding], [], [transfer]);
    OneIsItself(encoding);
    OneIsItself(transfer);
    assert HeaderValues(h.contentLength) == [] && encoding in [encoding];
    assert Lower("CHUNKED") == "chunked";
    hide HeaderValues, Lower, FramingOf, ContentLength, Plain;
    LengthIs(h, 0);
    HeadersRefused(h);
    FramingIsUnambiguous(h, 0);
    hide IdentityOnly;
    IdentityIs(h, encoding);
  }

  lemma IdentityIs(h: Headers, encoding: string)
    requires HeaderValues(h.contentEncoding) == [encoding]
    ensures IdentityOnly(h) <==> Lower(encoding) == "identity"
  {
    hide HeaderValues, Lower;
    assert encoding in [encoding];
  }

  lemma OneIsItself(v: string)
    requires Plain(v)
    ensures HeaderValues([v]) == [v]
  {
    HeaderLinesAgree([v]);
  }
}
