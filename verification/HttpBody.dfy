// The body reader of the HTTP task binding: a chunked-transfer decoder (section 7.1 of
// RFC 9112) with line, trailer and body budgets, and the choice between the two framings.
module HttpBody {
  import opened Common

  const MAX_BODY := 1_048_576
  const LINE_READ := 8194      // what one readline asks for
  const MAX_HEADER_LINE := 8193
  const MAX_TRAILERS := 8192
  const MAX_INT_DIGITS := 4300 // Python's limit on decimal conversion

  const CR: Byte := 13
  const LF: Byte := 10
  const SEMICOLON: Byte := 59
  const CRLF: seq<Byte> := [13, 10]

  datatype Fault =
    | MalformedHeader | MalformedSize | MalformedTrailer | MalformedTerminator | EndedEarly | TooLarge
    | BadContentEncoding | BadContentLength | ConflictingLength | BothFramings | BadTransferEncoding
    | UncaughtValueError

  // ---- the byte stream of a request ----

  predicate NoLf(s: seq<Byte>) {
    LF !in s
  }

  // The length of the line readline(limit) returns at the head of `s`.
  function LineLength(s: seq<Byte>, limit: nat): (n: nat)
    ensures n <= |s| && n <= limit
    ensures forall i :: 0 <= i < n - 1 ==> s[i] != LF
    ensures n == |s| || n == limit || (n > 0 && s[n - 1] == LF)
  {
    if s == [] || limit == 0 then 0
    else if s[0] == LF then 1
    else 1 + LineLength(s[1..], limit - 1)
  }

  function Line(s: seq<Byte>): seq<Byte> {
    s[..LineLength(s, LINE_READ)]
  }

  lemma {:induction false} LineIs(content: seq<Byte>, tail: seq<Byte>, limit: nat)
    requires NoLf(content) && |content| < limit
    ensures LineLength(content + [LF] + tail, limit) == |content| + 1
  {
    var s := content + [LF] + tail;
    if content != [] {
      assert s[1..] == content[1..] + [LF] + tail;
      LineIs(content[1..], tail, limit - 1);
    }
  }

  predicate EndsCrlf(line: seq<Byte>) {
    |line| >= 2 && line[|line| - 2..] == CRLF
  }

  class BinaryReader {
    const data: seq<Byte>
    var pos: nat

    ghost predicate Valid()
      reads this
    {
      pos <= |data|
    }

    ghost function Rest(): seq<Byte>
      requires Valid()
      reads this
    {
      data[pos..]
    }

    method Read(count: nat) returns (r: seq<Byte>)
      requires Valid()
      modifies this
      ensures Valid() && old(pos) <= pos
      ensures r == if count <= |old(Rest())| then old(Rest())[..count] else old(Rest())
      ensures Rest() == old(Rest())[|r|..] && pos == old(pos) + |r|
    {
      var end := if pos + count <= |data| then pos + count else |data|;
      r := data[pos..end];
      pos := end;
    }

    method ReadLine() returns (line: seq<Byte>)
      requires Valid()
      modifies this
      ensures Valid() && old(pos) <= pos
      ensures line == Line(old(Rest()))
      ensures Rest() == old(Rest())[|line|..] && pos == old(pos) + |line|
    {
      var n := LineLength(data[pos..], LINE_READ);
      line := data[pos..pos + n];
      pos := pos + n;
    }

    // None is the error for a body that ended before its declared length.
    method ReadExact(count: nat) returns (r: Option<seq<Byte>>)
      requires Valid()
      modifies this
      ensures Valid() && old(pos) <= pos
      ensures r.Some? <==> count <= |old(Rest())|
      ensures r.Some? ==> r.value == old(Rest())[..count] && Rest() == old(Rest())[count..] && pos == old(pos) + count
    {
      var got := Read(count);
      r := if |got| == count then Some(got) else None;
    }
  }

  // ---- chunk sizes: Python's int(text, 16) ----

  predicate IsSpace(b: Byte) {
    b == 32 || 9 <= b <= 13
  }

  function StripLeft(s: seq<Byte>): seq<Byte> {
    if s != [] && IsSpace(s[0]) then StripLeft(s[1..]) else s
  }

  function StripRight(s: seq<Byte>): seq<Byte> {
    if s != [] && IsSpace(s[|s| - 1]) then StripRight(s[..|s| - 1]) else s
  }

  function Strip(s: seq<Byte>): seq<Byte> {
    StripRight(StripLeft(s))
  }

  function BeforeSemicolon(s: seq<Byte>): seq<Byte> {
    if s == [] || s[0] == SEMICOLON then [] else [s[0]] + BeforeSemicolon(s[1..])
  }

  predicate IsHex(b: Byte) {
    48 <= b <= 57 || 65 <= b <= 70 || 97 <= b <= 102
  }

  function HexDigit(b: Byte): nat
    requires IsHex(b)
  {
    if b <= 57 then b - 48 else if b <= 70 then b - 55 else b - 87
  }

  const UNDERSCORE: Byte := 95

  // Hex digits with single underscores between them.
  predicate Digits(s: seq<Byte>) {
    && s != [] && s[0] != UNDERSCORE && s[|s| - 1] != UNDERSCORE
    && (forall i :: 0 <= i < |s| ==> IsHex(s[i]) || s[i] == UNDERSCORE)
    && (forall i :: 0 < i < |s| ==> s[i] != UNDERSCORE || s[i - 1] != UNDERSCORE)
  }

  function Value(s: seq<Byte>): nat
    requires forall i :: 0 <= i < |s| ==> IsHex(s[i]) || s[i] == UNDERSCORE
  {
    if s == [] then 0
    else
      var last := s[|s| - 1];
      if last == UNDERSCORE then Value(s[..|s| - 1]) else Value(s[..|s| - 1]) * 16 + HexDigit(last)
  }

  function ParseInt16(text: seq<Byte>): Option<int> {
    var negative := text != [] && text[0] == 45;
    var u := if text != [] && (text[0] == 43 || text[0] == 45) then text[1..] else text;
    var v :=
      if |u| >= 2 && u[0] == 48 && (u[1] == 120 || u[1] == 88) then
        (if |u| >= 3 && u[2] == UNDERSCORE then u[3..] else u[2..])
      else u;
    if !Digits(v) then None
    else
      var n: int := Value(v);
      Some(if negative then -n else n)
  }

  function ChunkSize(line: seq<Byte>): Option<int>
    requires EndsCrlf(line)
  {
    ParseInt16(Strip(BeforeSemicolon(line[..|line| - 2])))
  }

  // ---- what the decoder computes, on the rest of a stream ----

  datatype Body = Body(bytes: seq<Byte>, used: nat)

  // The trailer section and the final CRLF: how many bytes they take, `seen` before this point.
  function Trailers(s: seq<Byte>, seen: nat): (t: Option<nat>)
    ensures t.Some? ==> 2 <= t.value <= |s|
    decreases |s|
  {
    var line := Line(s);
    if line == CRLF then Some(2)
    else if !EndsCrlf(line) || seen + |line| > MAX_TRAILERS then None
    else
      var rest := Trailers(s[|line|..], seen + |line|);
      if rest.Some? then Some(|line| + rest.value) else None
  }

  // One chunk: an error, the last chunk with its trailers, or data and more to come.
  datatype Chunk = Bad(fault: Fault) | Last(used: nat) | Data(bytes: seq<Byte>, used: nat)

  function NextChunk(s: seq<Byte>, have: nat): (c: Chunk)
    ensures !c.Bad? ==> c.used <= |s|
    ensures c.Data? ==> 0 < |c.bytes| < c.used && have + |c.bytes| <= MAX_BODY
  {
    var line := Line(s);
    if !EndsCrlf(line) || |line| > MAX_HEADER_LINE then Bad(MalformedHeader)
    else
      var size := ChunkSize(line);
      if size.None? || size.value < 0 then Bad(MalformedSize)
      else
        var after := s[|line|..];
        if size.value == 0 then
          var t := Trailers(after, 0);
          if t.Some? then Last(|line| + t.value) else Bad(MalformedTrailer)
        else if have + size.value > MAX_BODY then Bad(TooLarge)
        else if |after| < size.value + 2 then Bad(EndedEarly)
        else if after[size.value..size.value + 2] != CRLF then Bad(MalformedTerminator)
        else Data(after[..size.value], |line| + size.value + 2)
  }

  // The body still to come when `have` bytes of it are already held.
  function Chunks(s: seq<Byte>, have: nat): Result<Body, Fault>
    decreases |s|
  {
    match NextChunk(s, have)
    case Bad(fault) => Err(fault)
    case Last(used) => Ok(Body([], used))
    case Data(bytes, used) => Append(bytes, used, Chunks(s[used..], have + |bytes|))
  }

  function Append(head: seq<Byte>, used: nat, r: Result<Body, Fault>): Result<Body, Fault> {
    if r.Err? then r else Ok(Body(head + r.value.bytes, used + r.value.used))
  }

  lemma TrailersRound(s: seq<Byte>, seen: nat)
    ensures var line := Line(s);
            && (line == CRLF ==> Trailers(s, seen) == Some(2))
            && (line != CRLF && (!EndsCrlf(line) || seen + |line| > MAX_TRAILERS) ==> Trailers(s, seen) == None)
            && (line != CRLF && EndsCrlf(line) && seen + |line| <= MAX_TRAILERS ==>
                  var rest := Trailers(s[|line|..], seen + |line|);
                  Trailers(s, seen) == if rest.Some? then Some(|line| + rest.value) else None)
  {
  }

  lemma AppendAppend(a: seq<Byte>, m: nat, b: seq<Byte>, n: nat, r: Result<Body, Fault>)
    ensures Append(a, m, Append(b, n, r)) == Append(a + b, m + n, r)
  {
    if r.Ok? {
      assert a + (b + r.value.bytes) == a + b + r.value.bytes;
    }
  }

  // ---- the decoder ----

  method ReadTrailers(reader: BinaryReader) returns (ok: bool, seen: nat)
    requires reader.Valid()
    modifies reader
    ensures reader.Valid() && old(reader.pos) <= reader.pos
    ensures ok <==> Trailers(old(reader.Rest()), 0).Some?
    ensures ok ==> seen == Trailers(old(reader.Rest()), 0).value
    ensures reader.pos == old(reader.pos) + seen
  {
    hide Trailers, Line;
    seen := 0;
    ghost var all := Trailers(reader.Rest(), 0);
    while true
      invariant reader.Valid() && old(reader.pos) + seen == reader.pos
      invariant var now := Trailers(reader.Rest(), seen);
                all == if now.Some? then Some(seen + now.value) else None
      decreases |reader.data| - reader.pos
    {
      TrailersRound(reader.Rest(), seen);
      var line := reader.ReadLine();
      seen := seen + |line|;
      if line == CRLF {
        return true, seen;
      }
      if !EndsCrlf(line) || seen > MAX_TRAILERS {
        return false, seen;
      }
    }
  }

  // Reads one chunk. `got` is the data it had got when it returned: all of it before the
  // terminator is looked at.
  method ReadChunk(reader: BinaryReader, have: nat) returns (c: Chunk, got: seq<Byte>)
    requires reader.Valid() && have <= MAX_BODY
    modifies reader
    ensures reader.Valid() && old(reader.pos) <= reader.pos
    ensures c == NextChunk(old(reader.Rest()), have)
    ensures !c.Bad? ==> reader.pos == old(reader.pos) + c.used
    ensures have + |got| <= MAX_BODY
    ensures got == if c.Data? then c.bytes else if c.Bad? then got else []
  {
    hide Trailers, Line, ChunkSize;
    got := [];
    ghost var s := reader.Rest();
    var line := reader.ReadLine();
    if !EndsCrlf(line) || |line| > MAX_HEADER_LINE {
      return Bad(MalformedHeader), got;
    }
    var size := ChunkSize(line);
    if size.None? || size.value < 0 {
      return Bad(MalformedSize), got;
    }
    if size.value == 0 {
      var ok, seen := ReadTrailers(reader);
      return if ok then Last(|line| + seen) else Bad(MalformedTrailer), got;
    }
    if have + size.value > MAX_BODY {
      return Bad(TooLarge), got;
    }
    var data := reader.ReadExact(size.value);
    if data == None {
      return Bad(EndedEarly), got;
    }
    got := data.value;
    var terminator := reader.ReadExact(2);
    if terminator == None {
      return Bad(EndedEarly), got;
    }
    if terminator.value != CRLF {
      return Bad(MalformedTerminator), got;
    }
    c := Data(got, |line| + size.value + 2);
  }

  lemma ChunksRound(s: seq<Byte>, have: nat)
    ensures Chunks(s, have) ==
            match NextChunk(s, have)
            case Bad(fault) => Err(fault)
            case Last(used) => Ok(Body([], used))
            case Data(bytes, used) => Append(bytes, used, Chunks(s[used..], have + |bytes|))
  {
  }

  // `held` is the size of the accumulated body, on success and on failure: it only grows, so
  // its bound is one for every moment of the read.
  method ReadChunked(reader: BinaryReader) returns (r: Result<seq<Byte>, Fault>, held: nat)
    requires reader.Valid()
    modifies reader
    ensures reader.Valid() && held <= MAX_BODY
    ensures var spec := Chunks(old(reader.Rest()), 0);
            && (spec.Err? ==> r == Err(spec.error))
            && (spec.Ok? ==> r == Ok(spec.value.bytes) && reader.pos == old(reader.pos) + spec.value.used)
  {
    hide NextChunk, Chunks;
    var body: seq<Byte> := [];
    ghost var all, start := Chunks(reader.Rest(), 0), reader.pos;
    AppendNothing(all);
    while true
      invariant reader.Valid() && start <= reader.pos && |body| <= MAX_BODY
      invariant all == Append(body, reader.pos - start, Chunks(reader.Rest(), |body|))
      decreases |reader.data| - reader.pos
    {
      ChunksRound(reader.Rest(), |body|);
      ghost var s, p := reader.Rest(), reader.pos;
      var c, got := ReadChunk(reader, |body|);
      held := |body| + |got|;
      match c {
        case Bad(fault) =>
          return Err(fault), held;
        case Last(used) =>
          assert body + [] == body;
          return Ok(body), held;
        case Data(bytes, used) =>
          assert reader.Rest() == s[used..];
          AppendAppend(body, p - start, bytes, used, Chunks(reader.Rest(), held));
          body := body + bytes;
      }
    }
  }

  lemma AppendNothing(r: Result<Body, Fault>)
    ensures Append([], 0, r) == r
  {
    if r.Ok? {
      assert [] + r.value.bytes == r.value.bytes;
    }
  }

  // ---- budgets ----

  lemma {:induction false} TrailersBudget(s: seq<Byte>, seen: nat)
    requires seen <= MAX_TRAILERS
    ensures Trailers(s, seen).Some? ==> Trailers(s, seen).value + seen <= MAX_TRAILERS + 2
    decreases |s|
  {
    var line := Line(s);
    if line != CRLF && EndsCrlf(line) && seen + |line| <= MAX_TRAILERS {
      TrailersBudget(s[|line|..], seen + |line|);
    }
  }

  // A successful read stays within the body cap and uses at most 8196 bytes for each byte of
  // the body, and 16387 more: every chunk brings at least one byte.
  lemma {:induction false} ReadBudget(s: seq<Byte>, have: nat)
    requires have <= MAX_BODY
    ensures Chunks(s, have).Ok? ==>
              var b := Chunks(s, have).value;
              have + |b.bytes| <= MAX_BODY && b.used <= |s| && b.used <= 8196 * |b.bytes| + 16387
    decreases |s|
  {
    hide Chunks, Line;
    ChunksRound(s, have);
    ChunkBudget(s, have);
    match NextChunk(s, have) {
      case Bad(_) =>
      case Last(used) =>
      case Data(bytes, used) =>
        hide NextChunk;
        ReadBudget(s[used..], have + |bytes|);
    }
  }

  lemma ChunkBudget(s: seq<Byte>, have: nat)
    ensures NextChunk(s, have).Data? ==> NextChunk(s, have).used <= |NextChunk(s, have).bytes| + 8195
    ensures NextChunk(s, have).Last? ==> NextChunk(s, have).used <= 16387
  {
    hide Trailers, ChunkSize;
    TrailersBudget(s[|Line(s)|..], 0);
  }

  // ---- a sender ----

  predicate PlainHex(s: seq<Byte>) {
    s != [] && forall i :: 0 <= i < |s| ==> IsHex(s[i])
  }

  // What may follow a chunk size on its line: blanks, then nothing or a semicolon and anything.
  predicate Extension(s: seq<Byte>) {
    s == [] || s[0] == SEMICOLON || ((s[0] == 32 || s[0] == 9) && Extension(s[1..]))
  }

  datatype SizeLine = SizeLine(size: seq<Byte>, ext: seq<Byte>)

  // A sender's own way of printing a size in hexadecimal.
  function HexChar(digit: nat): Byte
    requires digit < 16
  {
    if digit < 10 then 48 + digit else 87 + digit
  }

  function Hex(n: nat): (h: seq<Byte>)
    ensures |h| > 0
  {
    (if n < 16 then [] else Hex(n / 16)) + [HexChar(n % 16)]
  }

  function LowerByte(b: Byte): Byte {
    if 65 <= b <= 90 then b + 32 else b
  }

  // s is n in hexadecimal, in letters of either case and behind any number of zeros.
  predicate Spells(s: seq<Byte>, n: nat) {
    var zeros := |s| - |Hex(n)|;
    zeros >= 0 && forall i :: 0 <= i < |s| ==> LowerByte(s[i]) == if i < zeros then 48 else Hex(n)[i - zeros]
  }

  // The decoder reads such a spelling as the number that was printed.
  lemma {:induction false} SpellingIsRead(s: seq<Byte>, n: nat)
    requires Spells(s, n)
    ensures PlainHex(s) && Value(s) == n
    decreases |s|
  {
    var h, last := Hex(n), s[|s| - 1];
    assert LowerByte(last) == h[|h| - 1] == HexChar(n % 16);
    HexCharIsRead(last, n % 16);
    if |s| == 1 {
      assert n < 16;
      assert s[..0] == [];
    } else {
      var front := s[..|s| - 1];
      assert Spells(front, n / 16) by {
        if n >= 16 {
          assert h == Hex(n / 16) + [HexChar(n % 16)];
        } else {
          assert n / 16 == 0 && Hex(0) == [48];
        }
        forall i | 0 <= i < |front| ensures front[i] == s[i] {
        }
      }
      SpellingIsRead(front, n / 16);
      assert s == front + [last];
      assert n == n / 16 * 16 + n % 16;
    }
  }

  lemma HexCharIsRead(b: Byte, digit: nat)
    requires digit < 16 && LowerByte(b) == HexChar(digit)
    ensures IsHex(b) && HexDigit(b) == digit && b != UNDERSCORE
  {
  }

  predicate ValidLine(l: SizeLine, size: nat) {
    && Spells(l.size, size)
    && Extension(l.ext) && NoLf(l.ext)
    && |l.size| + |l.ext| + 2 <= MAX_HEADER_LINE
  }

  function EncodeLine(l: SizeLine): seq<Byte> {
    l.size + l.ext + CRLF
  }

  datatype Piece = Piece(line: SizeLine, data: seq<Byte>)

  datatype Message = Message(pieces: seq<Piece>, last: SizeLine, trailers: seq<seq<Byte>>)

  function TrailerSize(trailers: seq<seq<Byte>>): nat {
    if trailers == [] then 0 else |trailers[0]| + 2 + TrailerSize(trailers[1..])
  }

  predicate ValidMessage(m: Message) {
    && (forall p :: p in m.pieces ==> p.data != [] && ValidLine(p.line, |p.data|))
    && ValidLine(m.last, 0)
    && (forall t :: t in m.trailers ==> t != [] && NoLf(t))
    && TrailerSize(m.trailers) <= MAX_TRAILERS
  }

  function BodyOf(pieces: seq<Piece>): seq<Byte> {
    if pieces == [] then [] else pieces[0].data + BodyOf(pieces[1..])
  }

  function EncodeTrailers(trailers: seq<seq<Byte>>): seq<Byte> {
    if trailers == [] then CRLF else trailers[0] + CRLF + EncodeTrailers(trailers[1..])
  }

  function EncodePieces(m: Message): seq<Byte>
    decreases |m.pieces|
  {
    if m.pieces == [] then EncodeLine(m.last) + EncodeTrailers(m.trailers)
    else EncodeLine(m.pieces[0].line) + m.pieces[0].data + CRLF + EncodePieces(m.(pieces := m.pieces[1..]))
  }

  // ---- the reader undoes the sender ----

  lemma {:induction false} BeforeExtension(size: seq<Byte>, ext: seq<Byte>)
    requires forall i :: 0 <= i < |size| ==> IsHex(size[i])
    ensures BeforeSemicolon(size + ext) == size + BeforeSemicolon(ext)
  {
    if size == [] {
      assert size + ext == ext;
    } else {
      assert (size + ext)[1..] == size[1..] + ext;
      BeforeExtension(size[1..], ext);
    }
  }

  lemma {:induction false} ExtensionBlanks(ext: seq<Byte>)
    requires Extension(ext)
    ensures forall b :: b in BeforeSemicolon(ext) ==> IsSpace(b)
  {
    if ext != [] && ext[0] != SEMICOLON {
      ExtensionBlanks(ext[1..]);
    }
  }

  lemma {:induction false} StripBlanks(size: seq<Byte>, blanks: seq<Byte>)
    requires PlainHex(size)
    requires forall b :: b in blanks ==> IsSpace(b)
    ensures StripRight(size + blanks) == size
  {
    var s := size + blanks;
    if blanks == [] {
      assert s == size;
    } else {
      assert s[..|s| - 1] == size + blanks[..|blanks| - 1];
      StripBlanks(size, blanks[..|blanks| - 1]);
    }
  }

  lemma SizeText(size: seq<Byte>, ext: seq<Byte>)
    requires PlainHex(size) && Extension(ext)
    ensures Strip(BeforeSemicolon(size + ext)) == size
  {
    var blanks := BeforeSemicolon(ext);
    BeforeExtension(size, ext);
    ExtensionBlanks(ext);
    StripBlanks(size, blanks);
    assert StripLeft(size + blanks) == size + blanks;
  }

  lemma PlainIsRead(s: seq<Byte>, n: nat)
    requires Spells(s, n)
    ensures PlainHex(s) && Digits(s) && ParseInt16(s) == Some(n)
  {
    SpellingIsRead(s, n);
    hide Spells, Value;
  }

  lemma SizeParses(l: SizeLine, size: nat)
    requires ValidLine(l, size)
    ensures EndsCrlf(EncodeLine(l)) && ChunkSize(EncodeLine(l)) == Some(size)
  {
    PlainIsRead(l.size, size);
    SizeText(l.size, l.ext);
    var e := EncodeLine(l);
    hide Spells, PlainHex, ParseInt16, Strip, BeforeSemicolon, Extension, Digits;
    assert e[..|e| - 2] == l.size + l.ext && e[|e| - 2..] == CRLF;
  }

  // The next line of a stream that continues with `content` and a CRLF.
  lemma NextLine(content: seq<Byte>, tail: seq<Byte>)
    requires NoLf(content) && |content| + 2 <= MAX_HEADER_LINE
    ensures Line(content + CRLF + tail) == content + CRLF
    ensures EndsCrlf(content + CRLF)
    ensures (content + CRLF + tail)[|content| + 2..] == tail
  {
    assert content + CRLF + tail == (content + [CR]) + [LF] + tail;
    LineIs(content + [CR], tail, LINE_READ);
    assert (content + CRLF + tail)[..|content| + 2] == content + CRLF;
  }

  lemma {:induction false} TrailersRead(trailers: seq<seq<Byte>>, tail: seq<Byte>, seen: nat)
    requires forall t :: t in trailers ==> t != [] && NoLf(t)
    requires seen + TrailerSize(trailers) <= MAX_TRAILERS
    ensures |EncodeTrailers(trailers)| == TrailerSize(trailers) + 2
    ensures Trailers(EncodeTrailers(trailers) + tail, seen) == Some(|EncodeTrailers(trailers)|)
    decreases |trailers|
  {
    hide Trailers, Line;
    var s := EncodeTrailers(trailers) + tail;
    if trailers == [] {
      NextLine([], tail);
      assert [] + CRLF + tail == s && [] + CRLF == CRLF;
      TrailersRound(s, seen);
    } else {
      var t, rest := trailers[0], EncodeTrailers(trailers[1..]) + tail;
      assert s == t + CRLF + rest;
      NextLine(t, rest);
      assert forall u :: u in trailers[1..] ==> u in trailers;
      TrailersRead(trailers[1..], tail, seen + |t| + 2);
      TrailersRound(s, seen);
      assert t + CRLF != CRLF;
    }
  }

  lemma LineNext(l: SizeLine, size: nat, tail: seq<Byte>)
    requires ValidLine(l, size)
    ensures Line(EncodeLine(l) + tail) == EncodeLine(l)
    ensures EndsCrlf(EncodeLine(l)) && |EncodeLine(l)| <= MAX_HEADER_LINE && ChunkSize(EncodeLine(l)) == Some(size)
    ensures (EncodeLine(l) + tail)[|EncodeLine(l)|..] == tail
  {
    SpellingIsRead(l.size, size);
    forall i | 0 <= i < |l.size| ensures l.size[i] != LF {
    }
    NextLine(l.size + l.ext, tail);
    assert EncodeLine(l) + tail == (l.size + l.ext) + CRLF + tail;
    SizeParses(l, size);
  }

  lemma PieceRead(p: Piece, tail: seq<Byte>, have: nat)
    requires p.data != [] && ValidLine(p.line, |p.data|) && have + |p.data| <= MAX_BODY
    ensures NextChunk(EncodeLine(p.line) + p.data + CRLF + tail, have) ==
        Data(p.data, |EncodeLine(p.line)| + |p.data| + 2)
    ensures (EncodeLine(p.line) + p.data + CRLF + tail)[|EncodeLine(p.line)| + |p.data| + 2..] == tail
  {
    hide Line, ChunkSize, EncodeLine, Trailers;
    var after := p.data + CRLF + tail;
    assert EncodeLine(p.line) + p.data + CRLF + tail == EncodeLine(p.line) + after;
    LineNext(p.line, |p.data|, after);
    assert after[..|p.data|] == p.data && after[|p.data|..|p.data| + 2] == CRLF;
  }

  lemma PieceTooLarge(p: Piece, after: seq<Byte>, have: nat)
    requires p.data != [] && ValidLine(p.line, |p.data|) && have + |p.data| > MAX_BODY
    ensures NextChunk(EncodeLine(p.line) + after, have) == Bad(TooLarge)
  {
    hide Line, ChunkSize, EncodeLine, Trailers;
    LineNext(p.line, |p.data|, after);
  }

  lemma EndRead(m: Message, tail: seq<Byte>, have: nat)
    requires ValidMessage(m) && m.pieces == []
    ensures NextChunk(EncodePieces(m) + tail, have) == Last(|EncodePieces(m)|)
  {
    hide Line, ChunkSize, EncodeLine, Trailers, EncodeTrailers;
    var after := EncodeTrailers(m.trailers) + tail;
    assert EncodePieces(m) + tail == EncodeLine(m.last) + after;
    LineNext(m.last, 0, after);
    TrailersRead(m.trailers, tail, 0);
  }

  // Whatever the split, sizes, extensions and trailers, the reader returns the body sent and
  // stops exactly after the final CRLF, whatever follows it.
  lemma {:induction false} ChunkedRoundTrip(m: Message, tail: seq<Byte>, have: nat)
    requires ValidMessage(m) && have + |BodyOf(m.pieces)| <= MAX_BODY
    ensures Chunks(EncodePieces(m) + tail, have) == Ok(Body(BodyOf(m.pieces), |EncodePieces(m)|))
    decreases |m.pieces|
  {
    hide NextChunk, Chunks, ValidLine, EncodeLine;
    var s := EncodePieces(m) + tail;
    ChunksRound(s, have);
    if m.pieces == [] {
      EndRead(m, tail, have);
    } else {
      var p, n := m.pieces[0], m.(pieces := m.pieces[1..]);
      var rest := EncodePieces(n) + tail;
      assert s == EncodeLine(p.line) + p.data + CRLF + rest;
      PieceRead(p, rest, have);
      assert p in m.pieces && forall q :: q in n.pieces ==> q in m.pieces;
      ChunkedRoundTrip(n, tail, have + |p.data|);
    }
  }

  // A body over the cap is refused with 413, however it is split.
  lemma {:induction false} OversizeRefused(m: Message, tail: seq<Byte>, have: nat)
    requires ValidMessage(m) && have <= MAX_BODY < have + |BodyOf(m.pieces)|
    ensures Chunks(EncodePieces(m) + tail, have) == Err(TooLarge)
    decreases |m.pieces|
  {
    hide NextChunk, Chunks, ValidLine, EncodeLine;
    var s := EncodePieces(m) + tail;
    ChunksRound(s, have);
    var p, n := m.pieces[0], m.(pieces := m.pieces[1..]);
    assert p in m.pieces;
    var rest := EncodePieces(n) + tail;
    assert s == EncodeLine(p.line) + p.data + CRLF + rest;
    if have + |p.data| <= MAX_BODY {
      PieceRead(p, rest, have);
      OversizeRefused(n, tail, have + |p.data|);
    } else {
      assert s == EncodeLine(p.line) + (p.data + CRLF + rest);
      PieceTooLarge(p, p.data + CRLF + rest, have);
    }
  }

  // ---- the budget is attained ----

  const PAD: seq<Byte> := seq(8190, _ => SEMICOLON)

  // One byte a chunk, every line and the trailers as long as they may be.
  function Widest(body: seq<Byte>): Message {
    Message(seq(|body|, i requires 0 <= i < |body| => Piece(SizeLine([49], PAD), [body[i]])), SizeLine([48], PAD),
      [PAD])
  }

  lemma WidestIsValid(body: seq<Byte>)
    ensures ValidMessage(Widest(body))
  {
    assert Hex(1) == [49] && Hex(0) == [48];
    var m := Widest(body);
    assert ValidLine(SizeLine([49], PAD), 1) && ValidLine(SizeLine([48], PAD), 0);
    assert [PAD][1..] == [];
  }

  lemma {:induction false} WidestCost(body: seq<Byte>)
    ensures BodyOf(Widest(body).pieces) == body
    ensures |EncodePieces(Widest(body))| == 8196 * |body| + 16387
  {
    var m := Widest(body);
    if body == [] {
      assert [PAD][1..] == [] && EncodeTrailers([]) == CRLF;
      assert |EncodeTrailers([PAD])| == 8194;
      assert m.pieces == [];
    } else {
      var n := Widest(body[1..]);
      assert m.(pieces := m.pieces[1..]) == n;
      WidestCost(body[1..]);
    }
  }

  // Every body within the cap can be sent in a way that uses the whole budget.
  lemma BudgetIsTight(body: seq<Byte>)
    requires |body| <= MAX_BODY
    ensures exists s :: Chunks(s, 0) == Ok(Body(body, 8196 * |body| + 16387))
  {
    var s := EncodePieces(Widest(body));
    WidestIsValid(body);
    WidestCost(body);
    ChunkedRoundTrip(Widest(body), [], 0);
    assert s + [] == s;
    assert Chunks(s, 0) == Ok(Body(body, 8196 * |body| + 16387));
  }

  // ---- choosing the framing ----

  // The raw values of the three headers that matter, as received.
  datatype Headers = Headers(contentEncoding: seq<string>, contentLength: seq<string>, transferEncoding: seq<string>)

  function TrimLeft(s: string): string {
    if s != "" && IsBlank(s[0]) then TrimLeft(s[1..]) else s
  }

  function TrimRight(s: string): string {
    if s != "" && IsBlank(s[|s| - 1]) then TrimRight(s[..|s| - 1]) else s
  }

  function Lower(s: string): string {
    seq(|s|, i requires 0 <= i < |s| => if 'A' <= s[i] <= 'Z' then s[i] - 'A' + 'a' else s[i])
  }

  function LowerAll(ss: seq<string>): seq<string> {
    seq(|ss|, i requires 0 <= i < |ss| => Lower(ss[i]))
  }

  function SplitCommas(s: string): (parts: seq<string>)
    ensures |parts| > 0
  {
    if s == "" then [""]
    else
      var rest := SplitCommas(s[1..]);
      if s[0] == ',' then [""] + rest else [[s[0]] + rest[0]] + rest[1..]
  }

  function TrimAll(ss: seq<string>): seq<string> {
    seq(|ss|, i requires 0 <= i < |ss| => TrimRight(TrimLeft(ss[i])))
  }

  function HeaderValues(raw: seq<string>): seq<string> {
    if raw == [] then [] else TrimAll(SplitCommas(raw[0])) + HeaderValues(raw[1..])
  }

  predicate IsDecimal(s: string) {
    s != "" && forall i :: 0 <= i < |s| ==> '0' <= s[i] <= '9'
  }

  function DecimalValue(s: string): nat
    requires forall i :: 0 <= i < |s| ==> '0' <= s[i] <= '9'
  {
    if s == "" then 0 else DecimalValue(s[..|s| - 1]) * 10 + (s[|s| - 1] as int - '0' as int)
  }

  function ContentLength(h: Headers): Result<Option<nat>, Fault> {
    var values := HeaderValues(h.contentLength);
    if values == [] then Ok(None)
    else if assert values[0] in values; exists v :: v in values && !IsDecimal(v) then Err(BadContentLength)
    else if exists v :: v in values && |v| > MAX_INT_DIGITS then Err(UncaughtValueError)
    else if exists v :: v in values && DecimalValue(v) != DecimalValue(values[0]) then Err(ConflictingLength)
    else Ok(Some(DecimalValue(values[0])))
  }

  predicate IdentityOnly(h: Headers) {
    forall v :: v in HeaderValues(h.contentEncoding) ==> Lower(v) == "identity"
  }

  datatype Framing = Chunked | Exactly(length: nat) | Nothing

  function FramingOf(h: Headers): Result<Framing, Fault> {
    if !IdentityOnly(h) then Err(BadContentEncoding)
    else
      var length := ContentLength(h);
      var transfer := LowerAll(HeaderValues(h.transferEncoding));
      if length.Err? then Err(length.error)
      else if transfer != [] && length.value.Some? then Err(BothFramings)
      else if transfer != [] then (if transfer == ["chunked"] then Ok(Chunked) else Err(BadTransferEncoding))
      else if length.value.None? then Ok(Nothing)
      else if length.value.value > MAX_BODY then Err(TooLarge)
      else Ok(Exactly(length.value.value))
  }

  function ReadRequest(h: Headers, s: seq<Byte>): Result<Body, Fault> {
    match FramingOf(h)
    case Err(fault) => Err(fault)
    case Ok(Chunked) => Chunks(s, 0)
    case Ok(Nothing) => Ok(Body([], 0))
    case Ok(Exactly(n)) => if n <= |s| then Ok(Body(s[..n], n)) else Err(EndedEarly)
  }

  method ReadTaskRequestBody(h: Headers, reader: BinaryReader) returns (r: Result<seq<Byte>, Fault>)
    requires reader.Valid()
    modifies reader
    ensures reader.Valid()
    ensures var spec := ReadRequest(h, old(reader.Rest()));
            && (spec.Err? ==> r == Err(spec.error))
            && (spec.Ok? ==> r == Ok(spec.value.bytes) && reader.pos == old(reader.pos) + spec.value.used)
  {
    hide Chunks, FramingOf;
    var framing := FramingOf(h);
    match framing {
      case Err(fault) =>
        r := Err(fault);
      case Ok(Chunked) =>
        var held;
        r, held := ReadChunked(reader);
      case Ok(Nothing) =>
        r := Ok([]);
      case Ok(Exactly(n)) =>
        var data := reader.ReadExact(n);
        r := if data == None then Err(EndedEarly) else Ok(data.value);
    }
  }

  // Every length value given is a short enough decimal for `n`.
  ghost predicate LengthsSay(lengths: seq<string>, n: nat) {
    lengths != [] && forall v :: v in lengths ==> IsDecimal(v) && |v| <= MAX_INT_DIGITS && DecimalValue(v) == n
  }

  lemma LengthIs(h: Headers, n: nat)
    ensures ContentLength(h) == Ok(Some(n)) <==> LengthsSay(HeaderValues(h.contentLength), n)
    ensures ContentLength(h) == Ok(None) <==> HeaderValues(h.contentLength) == []
  {
    hide HeaderValues;
    var lengths := HeaderValues(h.contentLength);
    if lengths != [] {
      assert lengths[0] in lengths;
    }
  }

  lemma TransferIs(transfer: seq<string>)
    ensures LowerAll(transfer) == ["chunked"] <==> |transfer| == 1 && Lower(transfer[0]) == "chunked"
    ensures LowerAll(transfer) == [] <==> transfer == []
  {
    hide Lower;
    assert |LowerAll(transfer)| == |transfer|;
    if |transfer| == 1 {
      assert LowerAll(transfer) == [Lower(transfer[0])];
    }
  }

  // No request is read two ways: each framing is chosen exactly under its own condition, and
  // a request that names both is refused.
  lemma FramingIsUnambiguous(h: Headers, n: nat)
    ensures var lengths := HeaderValues(h.contentLength);
            var transfer := HeaderValues(h.transferEncoding);
            && (FramingOf(h) == Ok(Chunked) <==>
                IdentityOnly(h) && lengths == [] && |transfer| == 1 && Lower(transfer[0]) == "chunked")
            && (FramingOf(h) == Ok(Nothing) <==> IdentityOnly(h) && lengths == [] && transfer == [])
            && (FramingOf(h) == Ok(Exactly(n)) <==>
                IdentityOnly(h) && transfer == [] && LengthsSay(lengths, n) && n <= MAX_BODY)
            && (lengths != [] && transfer != [] ==> FramingOf(h).Err?)
  {
    hide HeaderValues, LowerAll, ContentLength, IdentityOnly, LengthsSay;
    LengthIs(h, n);
    TransferIs(HeaderValues(h.transferEncoding));
  }

  // A message sent chunked and its body sent with a length are read as the same bytes, each
  // leaving the stream right behind what was sent.
  lemma FramingsAgree(chunked: Headers, sized: Headers, m: Message, tail: seq<Byte>)
    requires ValidMessage(m) && |BodyOf(m.pieces)| <= MAX_BODY
    requires FramingOf(chunked) == Ok(Chunked) && FramingOf(sized) == Ok(Exactly(|BodyOf(m.pieces)|))
    ensures ReadRequest(chunked, EncodePieces(m) + tail) == Ok(Body(BodyOf(m.pieces), |EncodePieces(m)|))
    ensures ReadRequest(sized, BodyOf(m.pieces) + tail) == Ok(Body(BodyOf(m.pieces), |BodyOf(m.pieces)|))
  {
    ChunkedRoundTrip(m, tail, 0);
    assert (BodyOf(m.pieces) + tail)[..|BodyOf(m.pieces)|] == BodyOf(m.pieces);
  }

  // ---- the length header a sender writes ----

  function Decimal(n: nat): string {
    (if n < 10 then "" else Decimal(n / 10)) + [(n % 10 + 48) as char]
  }

  lemma {:induction false} DecimalIsRead(n: nat)
    ensures IsDecimal(Decimal(n)) && DecimalValue(Decimal(n)) == n
  {
    var front := if n < 10 then "" else Decimal(n / 10);
    var last := (n % 10 + 48) as char;
    assert Decimal(n) == front + [last];
    if n >= 10 {
      DecimalIsRead(n / 10);
    }
    assert '0' <= last <= '9' && last as int - '0' as int == n % 10;
    DecimalStep(front, last);
  }

  lemma DecimalStep(front: string, last: char)
    requires forall i :: 0 <= i < |front| ==> '0' <= front[i] <= '9'
    requires '0' <= last <= '9'
    ensures IsDecimal(front + [last])
    ensures DecimalValue(front + [last]) == DecimalValue(front) * 10 + (last as int - '0' as int)
  {
    assert (front + [last])[..|front|] == front;
  }

  lemma DecimalShort(n: nat)
    ensures n < 10_000_000 ==> |Decimal(n)| <= 7
  {
    var a := n / 10;
    var b := a / 10;
    var c := b / 10;
    var d := c / 10;
    var e := d / 10;
    if n < 10_000_000 {
      assert e / 10 < 10;
      assert |Decimal(e / 10)| == 1;
      assert |Decimal(e)| <= 2 && |Decimal(d)| <= 3 && |Decimal(c)| <= 4 && |Decimal(b)| <= 5 && |Decimal(a)| <= 6;
    }
  }

  lemma {:induction false} Unsplit(s: string)
    requires ',' !in s
    ensures SplitCommas(s) == [s]
  {
    if s != "" {
      Unsplit(s[1..]);
      assert [s[0]] + s[1..] == s;
    }
  }

  lemma LowerChunked()
    ensures Lower("chunked") == "chunked"
  {
  }

  lemma OneValue(v: string)
    requires ',' !in v && v != "" && !IsBlank(v[0]) && !IsBlank(v[|v| - 1])
    ensures HeaderValues([v]) == [v] && HeaderValues([]) == []
  {
    Unsplit(v);
    assert TrimLeft(v) == v && TrimRight(v) == v;
    assert TrimAll([v]) == [v];
    assert [v][1..] == [] && HeaderValues([]) == [];
  }

  // The header printed for a length within the cap selects exactly that length.
  lemma LengthHeaderRoundTrip(n: nat)
    requires n <= MAX_BODY
    ensures FramingOf(Headers([], [Decimal(n)], [])) == Ok(Exactly(n))
    ensures FramingOf(Headers([], [], ["chunked"])) == Ok(Chunked)
  {
    hide FramingOf, HeaderValues, Decimal, DecimalValue, Lower;
    var d := Decimal(n);
    DecimalIsRead(n);
    DecimalShort(n);
    OneValue(d);
    FramingIsUnambiguous(Headers([], [d], []), n);
    OneValue("chunked");
    LowerChunked();
    FramingIsUnambiguous(Headers([], [], ["chunked"]), 0);
  }
}
