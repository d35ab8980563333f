// The streaming lifecycle: the RESPONSE payload codec, the validator of a RESPONSE history,
// and the provider's emitter, which must satisfy it.
module Lifecycle {
  import opened Common

  // A decoded CBOR value. Composite stands for what cannot be hashed and is not a map.
  datatype Value =
    | Null
    | Bool(b: bool)
    | Int(n: int)
    | Float(r: real)
    | Text(s: string)
    | Composite(items: seq<Value>)
    | Map(entries: map<int, Value>)

  function Number(v: Value): Option<real> {
    match v
    case Bool(b) => Some(if b then 1.0 else 0.0)
    case Int(n) => Some(n as real)
    case Float(r) => Some(r)
    case _ => None
  }

  // Python's ==: numbers, booleans among them, compare by value.
  predicate PyEq(a: Value, b: Value) {
    if Number(a).Some? && Number(b).Some? then Number(a) == Number(b) else a == b
  }

  predicate Hashable(v: Value) {
    !v.Composite? && !v.Map?
  }

  function Get(m: map<int, Value>, key: int): Value {
    if key in m then m[key] else Null
  }

  // ---- the frame a reader sees ----

  datatype Stage = Stage(taskId: Value, sequence: Value, event: Value, isFinal: Value)

  datatype LifecycleFrame = LifecycleFrame(
    sessionId: Value, callId: Value, status: Value, result: Value, error: Option<(Value, Value)>,
    tokensUsed: Value, isFinal: Value, stage: Stage)

  datatype DecodeError = NotAMap | MissingLifecycle

  function DecodeResponse(raw: Value): Result<LifecycleFrame, DecodeError> {
    if !raw.Map? then Err(NotAMap)
    else if !Get(raw.entries, 13).Map? then Err(MissingLifecycle)
    else
      var m, l := raw.entries, Get(raw.entries, 13).entries;
      var error := if Get(m, 6).Map? then Some((Get(Get(m, 6).entries, 1), Get(Get(m, 6).entries, 2))) else None;
      Ok(LifecycleFrame(Get(m, 2), Get(m, 3), Get(m, 4), Get(m, 5), error, Get(m, 7), Get(m, 12),
                        Stage(Get(l, 1), Get(l, 2), Get(l, 3), Get(l, 4))))
  }

  datatype Ids = Ids(sessionId: string, callId: string, taskId: string)

  // The event a streaming handler yields, already split into its fields. `encodable` is false
  // when converting or encoding one of the fields raises.
  datatype Event = Event(
    status: string, result: Option<Value>, errorCode: Option<string>, errorMessage: Option<string>,
    tokensUsed: Option<int>, event: Option<string>, encodable: bool)

  predicate KnownStatus(status: string) {
    status == "partial" || status == "success" || status == "error" || status == "timeout"
  }

  // The name sent: the event's own unless absent or empty.
  function EventName(status: string, event: Option<string>): string
    requires KnownStatus(status)
  {
    if event.Some? && event.value != "" then event.value
    else if status == "partial" then "partial"
    else if status == "success" then "completed"
    else if status == "error" then "failed"
    else "timed_out"
  }

  function OrElse(s: Option<string>, default: string): string {
    if s.Some? && s.value != "" then s.value else default
  }

  function EncodeResponse(ids: Ids, sequence: nat, e: Event): Value
    requires KnownStatus(e.status)
  {
    var isFinal := e.status != "partial";
    var payload := map[
      1 := Int(1), 2 := Text(ids.sessionId), 3 := Text(ids.callId), 4 := Text(e.status), 12 := Bool(isFinal),
      13 := Map(map[1 := Text(ids.taskId), 2 := Int(sequence), 3 := Text(EventName(e.status, e.event)),
        4 := Bool(isFinal)])];
    var payload := if e.result.Some? && e.result.value != Null then payload[5 := e.result.value] else payload;
    var payload :=
      if e.errorCode.Some? || e.errorMessage.Some? then
        payload[6 := Map(map[1 := Text(OrElse(e.errorCode, "stream_error")),
          2 := Text(OrElse(e.errorMessage, "stream failed"))])]
      else payload;
    Map(if e.tokensUsed.Some? then payload[7 := Int(e.tokensUsed.value)] else payload)
  }

  // What a reader gets for an event, field by field.
  function FrameOf(ids: Ids, sequence: nat, e: Event): LifecycleFrame
    requires KnownStatus(e.status)
  {
    var isFinal := Bool(e.status != "partial");
    LifecycleFrame(
      Text(ids.sessionId), Text(ids.callId), Text(e.status),
      if e.result.Some? then e.result.value else Null,
      if e.errorCode.Some? || e.errorMessage.Some?
      then Some((Text(OrElse(e.errorCode, "stream_error")), Text(OrElse(e.errorMessage, "stream failed")))) else None,
      if e.tokensUsed.Some? then Int(e.tokensUsed.value) else Null,
      isFinal,
      Stage(Text(ids.taskId), Int(sequence), Text(EventName(e.status, e.event)), isFinal))
  }

  // The reader undoes the writer, for every event it can be given.
  lemma DecodeEncodeResponse(ids: Ids, sequence: nat, e: Event)
    requires KnownStatus(e.status)
    ensures DecodeResponse(EncodeResponse(ids, sequence, e)) == Ok(FrameOf(ids, sequence, e))
  {
    var m := EncodeResponse(ids, sequence, e).entries;
    assert Get(m, 13).entries[2] == Int(sequence);
  }

  // The keys on the wire: 1 the version, 2 the session, 3 the call, 4 the status, 12 the terminal
  // flag, and under 13 the stage: 1 the task, 2 the number, 3 the name, 4 the terminal flag again.
  lemma WireKeys(ids: Ids, sequence: nat, e: Event)
    requires KnownStatus(e.status)
    ensures EncodeResponse(ids, sequence, e).Map?
    ensures var m := EncodeResponse(ids, sequence, e).entries;
            && {1, 2, 3, 4, 12, 13} <= m.Keys
            && m[1] == Int(1) && m[2] == Text(ids.sessionId) && m[3] == Text(ids.callId) && m[4] == Text(e.status)
            && m[12] == Bool(e.status == "success" || e.status == "error" || e.status == "timeout")
            && m[13].Map? && {1, 2, 3, 4} <= m[13].entries.Keys
            && m[13].entries[1] == Text(ids.taskId) && m[13].entries[2] == Int(sequence)
            && m[13].entries[3] == Text(EventName(e.status, e.event)) && m[13].entries[4] == m[12]
  {
    hide OrElse, EventName;
  }

  // And only if there is one: 5 the result, 6 the error as {1: code, 2: message}, 7 the tokens.
  lemma OptionalKeys(ids: Ids, sequence: nat, e: Event)
    requires KnownStatus(e.status)
    ensures var m := EncodeResponse(ids, sequence, e).entries;
            && (5 in m <==> e.result.Some? && e.result.value != Null) && (5 in m ==> m[5] == e.result.value)
            && (6 in m <==> e.errorCode.Some? || e.errorMessage.Some?)
            && (6 in m ==> m[6].Map? && {1, 2} <= m[6].entries.Keys)
            && (7 in m <==> e.tokensUsed.Some?) && (7 in m ==> m[7] == Int(e.tokensUsed.value))
  {
    hide OrElse, EventName;
  }

  // The texts sent: the event's own name or the default of its status, and the defaults of an error.
  lemma TextsSent(ids: Ids, sequence: nat, e: Event)
    requires KnownStatus(e.status)
    ensures e.event.Some? && e.event.value != "" ==> EventName(e.status, e.event) == e.event.value
    ensures e.event.None? || e.event.value == "" ==>
              (e.status, EventName(e.status, e.event)) in
              {("partial", "partial"), ("success", "completed"), ("error", "failed"), ("timeout", "timed_out")}
    ensures e.errorCode.Some? || e.errorMessage.Some? ==>
              var error := EncodeResponse(ids, sequence, e).entries[6].entries;
              var code, message := e.errorCode, e.errorMessage;
              && error[1] == Text(if code.None? || code.value == "" then "stream_error" else code.value)
              && error[2] == Text(if message.None? || message.value == "" then "stream failed" else message.value)
  {
    OptionalKeys(ids, sequence, e);
  }

  // ---- the validator ----

  datatype Code =
    | ResponseAfterTerminal | SessionIdDrift | CallIdDrift | TaskIdDrift | SequenceDrift
    | FinalityDisagreement | StatusEventDisagreement | TerminalFlagMismatch | MissingTerminalResponse

  datatype Verdict = Accepted | Rejected(code: Code) | TypeError

  datatype Progress = Progress(nextSequence: nat, terminalSeen: bool)

  const FRESH := Progress(0, false)

  predicate EventAllowed(status: string, event: string) {
    || (status == "partial" && event == "partial")
    || (status == "success" && event == "completed")
    || (status == "error" && (event == "failed" || event == "cancelled"))
    || (status == "timeout" && (event == "timed_out" || event == "expired"))
  }

  // The names each status may carry.
  lemma NamesOfStatus(status: string, event: string)
    ensures EventAllowed(status, event) <==>
            (status, event) in {("partial", "partial"), ("success", "completed"), ("error", "failed"),
                                ("error", "cancelled"), ("timeout", "timed_out"), ("timeout", "expired")}
  {
  }

  function Judge(ids: Ids, p: Progress, f: LifecycleFrame): Verdict {
    if p.terminalSeen then Rejected(ResponseAfterTerminal)
    else if !PyEq(f.sessionId, Text(ids.sessionId)) then Rejected(SessionIdDrift)
    else if !PyEq(f.callId, Text(ids.callId)) then Rejected(CallIdDrift)
    else if !PyEq(f.stage.taskId, Text(ids.taskId)) then Rejected(TaskIdDrift)
    else if !PyEq(f.stage.sequence, Int(p.nextSequence)) then Rejected(SequenceDrift)
    else if !PyEq(f.isFinal, f.stage.isFinal) then Rejected(FinalityDisagreement)
    else if !f.status.Text? || !KnownStatus(f.status.s) then Rejected(StatusEventDisagreement)
    else if !Hashable(f.stage.event) then TypeError
    else if !f.stage.event.Text? || !EventAllowed(f.status.s, f.stage.event.s) then Rejected(StatusEventDisagreement)
    else if f.isFinal != Bool(f.status.s != "partial") then Rejected(TerminalFlagMismatch)
    else Accepted
  }

  function Advance(ids: Ids, p: Progress, f: LifecycleFrame): Progress {
    if Judge(ids, p, f) == Accepted then Progress(p.nextSequence + 1, f.isFinal == Bool(true)) else p
  }

  class NativeResponseSequence {
    const ids: Ids
    var nextSequence: nat
    var terminalSeen: bool

    function State(): Progress
      reads this
    {
      Progress(nextSequence, terminalSeen)
    }

    constructor (ids: Ids)
      ensures this.ids == ids && State() == FRESH
    {
      this.ids := ids;
      nextSequence, terminalSeen := 0, false;
    }

    method Accept(f: LifecycleFrame) returns (v: Verdict)
      modifies this
      ensures v == Judge(ids, old(State()), f)
      ensures State() == Advance(ids, old(State()), f)
    {
      if terminalSeen {
        return Rejected(ResponseAfterTerminal);
      }
      if !PyEq(f.sessionId, Text(ids.sessionId)) {
        return Rejected(SessionIdDrift);
      }
      if !PyEq(f.callId, Text(ids.callId)) {
        return Rejected(CallIdDrift);
      }
      if !PyEq(f.stage.taskId, Text(ids.taskId)) {
        return Rejected(TaskIdDrift);
      }
      if !PyEq(f.stage.sequence, Int(nextSequence)) {
        return Rejected(SequenceDrift);
      }
      if !PyEq(f.isFinal, f.stage.isFinal) {
        return Rejected(FinalityDisagreement);
      }
      if !f.status.Text? || !KnownStatus(f.status.s) {
        return Rejected(StatusEventDisagreement);
      }
      if !Hashable(f.stage.event) {
        return TypeError;
      }
      if !f.stage.event.Text? || !EventAllowed(f.status.s, f.stage.event.s) {
        return Rejected(StatusEventDisagreement);
      }
      if f.isFinal != Bool(f.status.s != "partial") {
        return Rejected(TerminalFlagMismatch);
      }
      nextSequence := nextSequence + 1;
      terminalSeen := f.isFinal == Bool(true);
      v := Accepted;
    }

    method Finish() returns (v: Verdict)
      ensures v == Accepted <==> terminalSeen
    {
      v := if terminalSeen then Accepted else Rejected(MissingTerminalResponse);
    }
  }

  // ---- histories the validator accepts ----

  predicate IsFinal(f: LifecycleFrame) {
    f.isFinal == Bool(true)
  }

  // What an accepted history looks like: the identities of the call, numbers 0, 1, 2, ...,
  // a name of its status on every frame, and a terminal frame nowhere but at the end.
  ghost predicate WellFormedHistory(ids: Ids, h: seq<LifecycleFrame>) {
    forall i {:trigger h[i]} :: 0 <= i < |h| ==>
      && h[i].sessionId == Text(ids.sessionId) && h[i].callId == Text(ids.callId)
      && h[i].stage.taskId == Text(ids.taskId)
      && PyEq(h[i].stage.sequence, Int(i))
      && PyEq(h[i].isFinal, h[i].stage.isFinal)
      && h[i].status.Text? && h[i].stage.event.Text? && EventAllowed(h[i].status.s, h[i].stage.event.s)
      && h[i].isFinal == Bool(h[i].status.s != "partial")
      && (IsFinal(h[i]) ==> i == |h| - 1)
  }

  function ProgressAfter(h: seq<LifecycleFrame>): Progress {
    Progress(|h|, h != [] && IsFinal(h[|h| - 1]))
  }

  // The validator, run over a history from the start: its state if it accepts every frame.
  function Validate(ids: Ids, h: seq<LifecycleFrame>): Option<Progress> {
    if h == [] then Some(FRESH)
    else
      var p := Validate(ids, h[..|h| - 1]);
      if p.Some? && Judge(ids, p.value, h[|h| - 1]) == Accepted then Some(Advance(ids, p.value, h[|h| - 1])) else None
  }

  // One more frame is accepted exactly when the longer history is well formed.
  lemma AcceptExtends(ids: Ids, h: seq<LifecycleFrame>, f: LifecycleFrame)
    requires WellFormedHistory(ids, h)
    ensures Judge(ids, ProgressAfter(h), f) == Accepted <==> WellFormedHistory(ids, h + [f])
    ensures Judge(ids, ProgressAfter(h), f) == Accepted ==> Advance(ids, ProgressAfter(h), f) == ProgressAfter(h + [f])
  {
    var g := h + [f];
    assert g[|h|] == f;
    if Judge(ids, ProgressAfter(h), f) == Accepted {
      assert forall i :: 0 <= i < |h| ==> g[i] == h[i];
    }
    if WellFormedHistory(ids, g) && h != [] {
      assert g[|h| - 1] == h[|h| - 1];
    }
  }

  lemma {:induction false} ValidateIffWellFormed(ids: Ids, h: seq<LifecycleFrame>)
    ensures Validate(ids, h).Some? <==> WellFormedHistory(ids, h)
    ensures Validate(ids, h).Some? ==> Validate(ids, h).value == ProgressAfter(h)
  {
    if h != [] {
      var g := h[..|h| - 1];
      assert g + [h[|h| - 1]] == h;
      ValidateIffWellFormed(ids, g);
      if WellFormedHistory(ids, g) {
        AcceptExtends(ids, g, h[|h| - 1]);
      } else if WellFormedHistory(ids, h) {
        forall i | 0 <= i < |g| ensures !IsFinal(g[i]) {
          assert g[i] == h[i];
        }
        assert forall i :: 0 <= i < |g| ==> g[i] == h[i];
        assert WellFormedHistory(ids, g);
      }
    }
  }

  // One thing changed in a frame that would be accepted is named; after a terminal frame every
  // frame is refused as such.
  lemma DriftIsNamed(ids: Ids, p: Progress, f: LifecycleFrame, x: Value)
    requires Judge(ids, p, f) == Accepted
    ensures !PyEq(x, f.sessionId) ==> Judge(ids, p, f.(sessionId := x)) == Rejected(SessionIdDrift)
    ensures !PyEq(x, f.callId) ==> Judge(ids, p, f.(callId := x)) == Rejected(CallIdDrift)
    ensures !PyEq(x, f.stage.taskId) ==> Judge(ids, p, f.(stage := f.stage.(taskId := x))) == Rejected(TaskIdDrift)
    ensures !PyEq(x, Int(p.nextSequence)) ==>
              Judge(ids, p, f.(stage := f.stage.(sequence := x))) == Rejected(SequenceDrift)
    ensures !PyEq(x, f.isFinal) ==>
              Judge(ids, p, f.(stage := f.stage.(isFinal := x))) == Rejected(FinalityDisagreement)
              && Judge(ids, p, f.(isFinal := x, stage := f.stage.(isFinal := x))) == Rejected(TerminalFlagMismatch)
    ensures x.Text? && !EventAllowed(f.status.s, x.s) ==>
              Judge(ids, p, f.(stage := f.stage.(event := x))) == Rejected(StatusEventDisagreement)
    ensures x.Text? && !KnownStatus(x.s) ==> Judge(ids, p, f.(status := x)) == Rejected(StatusEventDisagreement)
    ensures Judge(ids, p.(terminalSeen := true), f) == Rejected(ResponseAfterTerminal)
  {
    hide EventAllowed;
  }

  // ---- the emitter ----

  // A streaming handler's run: the events it yields, ended by an exception or by stopping.
  // A full concurrency gate raises before the first event.
  datatype HandlerStep = Yield(event: Event) | Raise

  function ErrorEvent(code: string, message: string): Event {
    Event("error", None, Some(code), Some(message), None, None, true)
  }

  const INCOMPLETE := ErrorEvent("stream_incomplete", "stream ended without a terminal response")
  const BACKEND_ERROR := ErrorEvent("backend_error", "streaming handler raised exception")

  predicate Writable(e: Event) {
    KnownStatus(e.status) && e.encodable
  }

  type WireEvent = e: Event | Writable(e) witness INCOMPLETE

  // The events that reach the wire.
  function WrittenEvents(run: seq<HandlerStep>): (w: seq<WireEvent>)
    ensures |w| > 0
  {
    if run == [] then [INCOMPLETE]
    else if run[0].Raise? || !Writable(run[0].event) then [BACKEND_ERROR]
    else if run[0].event.status != "partial" then [run[0].event]
    else [run[0].event] + WrittenEvents(run[1..])
  }

  // Step i of the handler is a partial event that reaches the wire.
  predicate Streams(run: seq<HandlerStep>, i: nat)
    requires i < |run|
  {
    run[i].Yield? && run[i].event.encodable && run[i].event.status == "partial"
  }

  // What the handler's run comes to, by index: its partial events one by one, and behind the first
  // n of them its own terminal event; or a backend error, if it raised or gave an event that
  // cannot be sent; or the note that it stopped without a terminal event.
  lemma {:induction false} WrittenIs(run: seq<HandlerStep>, n: nat)
    requires n <= |run| && (forall i :: 0 <= i < n ==> Streams(run, i)) && (n < |run| ==> !Streams(run, n))
    ensures var w := WrittenEvents(run);
            && |w| == n + 1 && (forall i :: 0 <= i < n ==> run[i].Yield? && w[i] == run[i].event)
            && (n == |run| ==>
                  w[n].status == "error" && w[n].errorCode == Some("stream_incomplete") && w[n].event.None?)
            && (n < |run| && run[n].Yield? && run[n].event.encodable && KnownStatus(run[n].event.status) ==>
                  w[n] == run[n].event)
            && (n < |run| && !(run[n].Yield? && run[n].event.encodable && KnownStatus(run[n].event.status)) ==>
                  w[n].status == "error" && w[n].errorCode == Some("backend_error") && w[n].event.None?)
  {
    if n > 0 {
      assert Streams(run, 0);
      forall i | 0 <= i < n - 1 ensures Streams(run[1..], i) {
        assert Streams(run, i + 1);
      }
      WrittenIs(run[1..], n - 1);
      assert WrittenEvents(run) == [run[0].event] + WrittenEvents(run[1..]);
    }
  }

  // The RESPONSE payloads of events, numbered from zero.
  function Payloads(ids: Ids, events: seq<WireEvent>): seq<Value> {
    seq(|events|, i requires 0 <= i < |events| => EncodeResponse(ids, i, events[i]))
  }

  // One event: refused after the terminal one, for an unknown status, or when encoding raises.
  method Emit(ids: Ids, e: Event, wire: seq<Value>, sequence: nat, terminalSent: bool)
    returns (raised: bool, wire': seq<Value>, sequence': nat, terminalSent': bool)
    ensures raised <==> terminalSent || !Writable(e)
    ensures raised ==> wire' == wire && sequence' == sequence && terminalSent' == terminalSent
    ensures !raised ==> wire' == wire + [EncodeResponse(ids, sequence, e)] && sequence' == sequence + 1
    ensures !raised ==> (terminalSent' <==> e.status != "partial")
  {
    if terminalSent || !KnownStatus(e.status) || !e.encodable {
      return true, wire, sequence, terminalSent;
    }
    return false, wire + [EncodeResponse(ids, sequence, e)], sequence + 1, e.status != "partial";
  }

  lemma NoPayloads(ids: Ids)
    ensures Payloads(ids, []) == []
  {
  }

  lemma PayloadsAppend(ids: Ids, events: seq<WireEvent>, e: WireEvent)
    ensures Payloads(ids, events + [e]) == Payloads(ids, events) + [EncodeResponse(ids, |events|, e)]
  {
  }

  // What is still to be written before handler step i.
  ghost function Rest(run: seq<HandlerStep>, i: nat, raised: bool, terminalSent: bool): seq<WireEvent>
    requires i <= |run|
  {
    if terminalSent then [] else if raised then [BACKEND_ERROR] else WrittenEvents(run[i..])
  }

  lemma RestStarts(run: seq<HandlerStep>)
    ensures Rest(run, 0, false, false) == WrittenEvents(run)
  {
    assert run[0..] == run;
  }

  lemma RestRaises(run: seq<HandlerStep>, i: nat, terminalSent: bool)
    requires i < |run| && (run[i].Raise? || terminalSent || !Writable(run[i].event))
    ensures Rest(run, i, false, terminalSent) == Rest(run, i + 1, true, terminalSent)
  {
  }

  lemma RestWrites(run: seq<HandlerStep>, i: nat)
    requires i < |run| && run[i].Yield? && Writable(run[i].event)
    ensures Rest(run, i, false, false) == [run[i].event] + Rest(run, i + 1, false, run[i].event.status != "partial")
  {
    assert run[i..][1..] == run[i + 1..];
  }

  lemma RestEnds(run: seq<HandlerStep>, raised: bool, terminalSent: bool, i: nat)
    requires i <= |run| && (raised || i == |run|)
    ensures Rest(run, i, raised, terminalSent) == if terminalSent then []
        else [if raised then BACKEND_ERROR else INCOMPLETE]
  {
  }

  // The emitter of one opted-in CALL, for every behaviour of its handler.
  method OnStreamCall(ids: Ids, run: seq<HandlerStep>) returns (wire: seq<Value>)
    ensures wire == Payloads(ids, WrittenEvents(run))
  {
    NoPayloads(ids);
    RestStarts(run);
    hide Payloads, EncodeResponse, WrittenEvents, Rest;
    wire := [];
    var sequence, terminalSent, raised, i := 0, false, false, 0;
    ghost var done: seq<WireEvent> := [];
    while i < |run| && !raised
      invariant 0 <= i <= |run| && sequence == |done|
      invariant wire == Payloads(ids, done)
      invariant WrittenEvents(run) == done + Rest(run, i, raised, terminalSent)
    {
      if run[i].Raise? {
        RestRaises(run, i, terminalSent);
        raised := true;
      } else {
        if terminalSent || !Writable(run[i].event) {
          RestRaises(run, i, terminalSent);
        } else {
          RestWrites(run, i);
          PayloadsAppend(ids, done, run[i].event);
          done := done + [run[i].event];
        }
        raised, wire, sequence, terminalSent := Emit(ids, run[i].event, wire, sequence, terminalSent);
      }
      i := i + 1;
    }
    RestEnds(run, raised, terminalSent, i);
    assert terminalSent ==> WrittenEvents(run) == done;
    PayloadsAppend(ids, done, INCOMPLETE);
    PayloadsAppend(ids, done, BACKEND_ERROR);
    if !raised && !terminalSent {
      raised, wire, sequence, terminalSent := Emit(ids, INCOMPLETE, wire, sequence, terminalSent);
    } else if raised && !terminalSent {
      raised, wire, sequence, terminalSent := Emit(ids, BACKEND_ERROR, wire, sequence, terminalSent);
    }
  }

  // ---- emitter against validator ----

  // What the client decodes from an emitted call.
  function Received(ids: Ids, run: seq<HandlerStep>): (h: seq<LifecycleFrame>)
    ensures |h| == |WrittenEvents(run)|
    ensures forall i :: 0 <= i < |h| ==> h[i] == FrameOf(ids, i, WrittenEvents(run)[i])
  {
    var w := WrittenEvents(run);
    seq(|w|, i requires 0 <= i < |w| => FrameOf(ids, i, w[i]))
  }

  lemma ReceivedIsDecoded(ids: Ids, run: seq<HandlerStep>)
    ensures var wire := Payloads(ids, WrittenEvents(run));
            |wire| == |Received(ids, run)|
            && forall i :: 0 <= i < |wire| ==> DecodeResponse(wire[i]) == Ok(Received(ids, run)[i])
  {
    var w := WrittenEvents(run);
    forall i | 0 <= i < |w| ensures DecodeResponse(Payloads(ids, w)[i]) == Ok(Received(ids, run)[i]) {
      DecodeEncodeResponse(ids, i, w[i]);
    }
  }

  // Exactly the last written event is terminal, whatever the handler does.
  ghost predicate LastTerminal(w: seq<WireEvent>) {
    w != [] && forall i :: 0 <= i < |w| ==> ((w[i].status != "partial") == (i == |w| - 1))
  }

  lemma {:induction false} ExactlyLastTerminal(run: seq<HandlerStep>)
    ensures LastTerminal(WrittenEvents(run))
  {
    if run != [] && run[0].Yield? && Writable(run[0].event) && run[0].event.status == "partial" {
      ExactlyLastTerminal(run[1..]);
    }
  }

  // A name the handler gave must be one of its status; no name, or an empty one, always is.
  predicate NameAllowed(e: Event) {
    KnownStatus(e.status) ==>
      e.event.None? || e.event.value == "" || EventAllowed(e.status, e.event.value)
  }

  // The client accepts the whole of an emitted call, ending in its one terminal frame, exactly
  // when every event that reached the wire had an allowed name.
  lemma EmitterSatisfiesValidator(ids: Ids, run: seq<HandlerStep>)
    ensures var h := Received(ids, run);
            && (forall i :: 0 <= i < |h| ==> (IsFinal(h[i]) <==> i == |h| - 1) && h[i].stage.sequence == Int(i))
            && (Validate(ids, h).Some? <==> forall e :: e in WrittenEvents(run) ==> NameAllowed(e))
            && (Validate(ids, h).Some? ==> Validate(ids, h).value == Progress(|h|, true))
  {
    var h, w := Received(ids, run), WrittenEvents(run);
    ExactlyLastTerminal(run);
    ValidateIffWellFormed(ids, h);
    HistoryIffNames(ids, run);
  }

  lemma HistoryIffNames(ids: Ids, run: seq<HandlerStep>)
    ensures WellFormedHistory(ids, Received(ids, run)) <==> forall e :: e in WrittenEvents(run) ==> NameAllowed(e)
  {
    var h, w := Received(ids, run), WrittenEvents(run);
    ExactlyLastTerminal(run);
    forall i | 0 <= i < |h|
      ensures EventAllowed(h[i].status.s, h[i].stage.event.s) <==> NameAllowed(w[i])
    {
      assert w[i] in w;
    }
    if WellFormedHistory(ids, h) {
      forall e | e in w ensures NameAllowed(e) {
        var i :| 0 <= i < |w| && w[i] == e;
        assert h[i].stage.event == Text(EventName(e.status, e.event));
      }
    }
  }

  // In particular when every event the handler yields has one.
  lemma {:induction false} AllowedNamesAccepted(ids: Ids, run: seq<HandlerStep>)
    requires forall s :: s in run && s.Yield? ==> NameAllowed(s.event)
    ensures forall e :: e in WrittenEvents(run) ==> NameAllowed(e)
    ensures Validate(ids, Received(ids, run)) == Some(Progress(|Received(ids, run)|, true))
  {
    if run != [] && run[0].Yield? && Writable(run[0].event) && run[0].event.status == "partial" {
      AllowedNamesAccepted(ids, run[1..]);
      assert run[0] in run;
    }
    EmitterSatisfiesValidator(ids, run);
  }
}
