// One request thread's way through a task: every exit of the nested try blocks, what it counts
// in the metrics, and what it gives back.
module TaskRun {
  import opened Common
  import opened Metrics
  import opened Slots

  // A RuntimeError that mentions a shutdown or a closed loop, any other RuntimeError, any other
  // Exception - a broken pipe, a timeout, a handler's own - and what is no Exception, such as
  // SystemExit.
  datatype Exc = Shutdown | PlainRuntime | Other | NoException

  datatype HandlerEnd = Returns | Raises(exc: Exc) | TimesOut

  datatype Cipher = Plain | NoKey | Undecryptable | Decrypted

  // All the rest of the node and the client decide: `shaping` is what building and encoding the
  // response raises, `receipt` what scheduling the receipt raises. `breaks(k)` says whether
  // writing response k raises, as when the client has hung up.
  datatype Env = Env(
    window: int, nonceFresh: bool, taskNew: bool, cipher: Cipher, wantsCipher: bool,
    loopClosed: bool, handler: HandlerEnd, shaping: Option<Exc>, tooLarge: bool, receipt: Option<Exc>,
    breaks: nat -> bool, latency: int, lateLatency: int)

  datatype Answer =
    | WindowClosed | NoSlot | Replay | Duplicate | BadCipher
    | ShuttingDown | TooLarge | Completed | BackendError

  // How the thread's call ends: the last response written, or an exception for the server.
  datatype End = Answered(answer: Answer) | Propagates

  // ---- the code's own form ----

  // Writes response k.
  method Respond(e: Env, k: nat, answer: Answer) returns (end: End)
    ensures end == if e.breaks(k) then Propagates else Answered(answer)
  {
    end := if e.breaks(k) then Propagates else Answered(answer);
  }

  // The inner try block: the exception that leaves it, and how many responses were attempted.
  method Attempt(node: IicpNode, e: Env) returns (raised: Option<Exc>, written: nat, answer: Answer)
    modifies node
    ensures node.State() == RecordedAll(old(node.State()), TryRecords(e))
    ensures raised == TryRaises(e) && written == TryWrites(e)
    ensures raised.None? ==> answer == TryAnswer(e)
  {
    raised, written, answer := None, 0, Completed;
    if e.loopClosed {
      return if e.breaks(0) then Some(Other) else None, 1, ShuttingDown;
    }
    match e.handler {
      case TimesOut => return Some(Other), 0, Completed;
      case Raises(exc) => return Some(exc), 0, Completed;
      case Returns =>
    }
    if e.shaping.Some? {
      return e.shaping, 0, Completed;
    }
    if e.tooLarge {
      node.RecordTask(Completion(false, e.latency));
      return if e.breaks(0) then Some(Other) else None, 1, TooLarge;
    }
    node.RecordTask(Completion(true, e.latency));
    if e.breaks(0) {
      return Some(Other), 1, Completed;
    }
    return e.receipt, 1, Completed;
  }

  // The outer try block, without its finally.
  method Serve(node: IicpNode, e: Env) returns (end: End)
    modifies node
    ensures node.State() == RecordedAll(old(node.State()), Records(e))
    ensures end == EndOf(e)
  {
    if !e.nonceFresh {
      end := Respond(e, 0, Replay);
      return;
    }
    if !e.taskNew {
      end := Respond(e, 0, Duplicate);
      return;
    }
    if e.cipher == NoKey || e.cipher == Undecryptable || (e.wantsCipher && e.cipher != Decrypted) {
      end := Respond(e, 0, BadCipher);
      return;
    }
    var raised, written, answer := Attempt(node, e);
    match raised {
      case None =>
        end := Answered(answer);
      case Some(Shutdown) =>
        end := Respond(e, written, ShuttingDown);
      case Some(PlainRuntime) =>
        end := Propagates;
      case Some(NoException) =>
        end := Propagates;
      case Some(Other) =>
        RecordedAllAppends(old(node.State()), TryRecords(e), Completion(false, e.lateLatency));
        node.RecordTask(Completion(false, e.lateLatency));
        end := Respond(e, written, BackendError);
    }
  }

  // The whole task. Whatever happens inside, the finally gives the permit and the count back.
  method Task(pool: SlotPool, node: IicpNode, e: Env) returns (end: End)
    modifies pool, node
    ensures pool.permits == old(pool.permits) && pool.active == old(pool.active)
    ensures var admitted := old(pool.active) < e.window && old(pool.permits) > 0;
            && node.State() == RecordedAll(old(node.State()), if admitted then Records(e) else [])
            && (admitted ==> end == EndOf(e))
            && (!admitted ==>
                  end == if e.breaks(0) then Propagates
                         else Answered(if old(pool.active) >= e.window then WindowClosed else NoSlot))
  {
    if pool.active >= e.window {
      end := Respond(e, 0, WindowClosed);
      return;
    }
    var acquired := pool.TryAcquire();
    if !acquired {
      end := Respond(e, 0, NoSlot);
      return;
    }
    pool.Enter();
    end := Serve(node, e);
    pool.Leave();
  }

  // ---- what it counts ----

  function RecordedAll(n: Node, cs: seq<Completion>): Node {
    if cs == [] then n else Recorded(RecordedAll(n, cs[..|cs| - 1]), cs[|cs| - 1])
  }

  lemma RecordedAllAppends(n: Node, cs: seq<Completion>, c: Completion)
    ensures RecordedAll(n, cs + [c]) == Recorded(RecordedAll(n, cs), c)
  {
    assert (cs + [c])[..|cs|] == cs;
  }

  // The request gets as far as the inner try block.
  predicate Accepted(e: Env) {
    e.nonceFresh && e.taskNew && (e.cipher == Decrypted || (e.cipher == Plain && !e.wantsCipher))
  }

  // Its handler is run, and its result turned into a response.
  predicate HasResponse(e: Env) {
    !e.loopClosed && e.handler == Returns && e.shaping.None?
  }

  function TryRaises(e: Env): Option<Exc> {
    if e.loopClosed then (if e.breaks(0) then Some(Other) else None)
    else if e.handler == TimesOut then Some(Other)
    else if e.handler.Raises? then Some(e.handler.exc)
    else if e.shaping.Some? then e.shaping
    else if e.breaks(0) then Some(Other)
    else if e.tooLarge then None
    else e.receipt
  }

  function TryRecords(e: Env): seq<Completion> {
    if HasResponse(e) then [Completion(!e.tooLarge, e.latency)] else []
  }

  function TryWrites(e: Env): nat {
    if e.loopClosed || HasResponse(e) then 1 else 0
  }

  function TryAnswer(e: Env): Answer {
    if e.loopClosed then ShuttingDown else if e.tooLarge then TooLarge else Completed
  }

  function Records(e: Env): seq<Completion> {
    if !Accepted(e) then []
    else TryRecords(e) + if TryRaises(e) == Some(Other) then [Completion(false, e.lateLatency)] else []
  }

  function EndOf(e: Env): End {
    if !Accepted(e) then
      (if e.breaks(0) then Propagates
       else Answered(if !e.nonceFresh then Replay else if !e.taskNew then Duplicate else BadCipher))
    else
      match TryRaises(e)
      case None => Answered(TryAnswer(e))
      case Some(PlainRuntime) => Propagates
      case Some(NoException) => Propagates
      case Some(Shutdown) => if e.breaks(TryWrites(e)) then Propagates else Answered(ShuttingDown)
      case Some(Other) => if e.breaks(TryWrites(e)) then Propagates else Answered(BackendError)
  }

  // The handler was run to an outcome that is not the shutting down of the node: it returned
  // and its result became a response, or it failed with an Exception other than a RuntimeError.
  predicate ReachesOutcome(e: Env) {
    && !e.loopClosed
    && (HasResponse(e) || e.handler == TimesOut || e.handler == Raises(Other)
        || (e.handler == Returns && e.shaping == Some(Other)))
  }

  // What happens after the first counting raises once more: writing the response to a client
  // that has gone, or scheduling the receipt.
  predicate FailsAfterwards(e: Env) {
    HasResponse(e) && (e.breaks(0) || (!e.tooLarge && e.receipt == Some(Other)))
  }

  // How often one admitted task is counted, exactly. A task is counted once when it reached its
  // outcome and nothing failed afterwards, twice when something did; a refusal, a shutdown, a
  // plain RuntimeError of the handler or a SystemExit is not counted, except that a refusal of
  // the closed loop that cannot be written counts as a failure.
  lemma CountedExactly(e: Env)
    ensures |Records(e)| == 2 <==> Accepted(e) && FailsAfterwards(e)
    ensures |Records(e)| == 1 <==>
            Accepted(e) && !FailsAfterwards(e) && (ReachesOutcome(e) || (e.loopClosed && e.breaks(0)))
    ensures |Records(e)| <= 2
    ensures |Records(e)| == 2 ==> !Records(e)[1].ok
  {
  }

  // While the loop is open and the receipt can be scheduled: exactly once if and only if the
  // handler reached its outcome and, when there is a response of its own, that was written.
  lemma CountedOnceIff(e: Env)
    requires Accepted(e) && !e.loopClosed && e.receipt != Some(Other)
    ensures |Records(e)| == 1 <==> ReachesOutcome(e) && (HasResponse(e) ==> !e.breaks(0))
  {
    CountedExactly(e);
  }

  // A task is counted as succeeded, and nothing else, exactly when its client was answered so
  // and the receipt did not fail with an Exception other than a RuntimeError.
  lemma SucceedsOnlyIff(e: Env)
    ensures (Records(e) != [] && forall c :: c in Records(e) ==> c.ok) <==>
            Accepted(e) && HasResponse(e) && !e.tooLarge && !e.breaks(0) && e.receipt != Some(Other)
  {
    if Accepted(e) && TryRaises(e) == Some(Other) {
      assert Completion(false, e.lateLatency) in Records(e);
    } else if Records(e) != [] {
      assert Records(e)[0] in Records(e);
    }
  }

  // A client is told that its task completed exactly when the handler's response, small enough,
  // was written and the receipt scheduled; and what is recorded then is that success, with the
  // time it took.
  lemma CompletedIff(e: Env)
    ensures EndOf(e) == Answered(Completed) <==>
            && e.nonceFresh && e.taskNew
            && (e.cipher == Decrypted || (e.cipher == Plain && !e.wantsCipher))
            && !e.loopClosed && e.handler == Returns && e.shaping.None? && !e.tooLarge
            && !e.breaks(0) && e.receipt.None?
    ensures EndOf(e) == Answered(Completed) ==> Records(e) == [Completion(true, e.latency)]
  {
  }

  // What a refusal before the handler is for.
  lemma RefusalsAre(e: Env)
    requires !e.breaks(0)
    ensures EndOf(e) == Answered(Replay) <==> !e.nonceFresh
    ensures EndOf(e) == Answered(Duplicate) <==> e.nonceFresh && !e.taskNew
    ensures EndOf(e) == Answered(BadCipher) <==>
            e.nonceFresh && e.taskNew
            && (e.cipher == NoKey || e.cipher == Undecryptable || (e.wantsCipher && e.cipher == Plain))
  {
  }

  // Over any sequence of tasks the counters grow by exactly their records: the node counts as
  // many completions as its tasks recorded, whichever ways they left.
  function AllRecords(es: seq<Env>): seq<Completion> {
    if es == [] then [] else AllRecords(es[..|es| - 1]) + Records(es[|es| - 1])
  }

  function Completions(n: Node): nat {
    n.live.success + n.live.failed
  }

  lemma {:induction false} CompletionsGrow(n: Node, cs: seq<Completion>)
    ensures Completions(RecordedAll(n, cs)) == Completions(n) + |cs|
    ensures RecordedAll(n, cs).pending == n.pending
  {
    if cs != [] {
      CompletionsGrow(n, cs[..|cs| - 1]);
    }
  }

  // So as many completions are counted as there were tasks exactly when the tasks counted twice
  // and the tasks not counted at all are equal in number.
  function Twice(es: seq<Env>): nat {
    if es == [] then 0
    else Twice(es[..|es| - 1]) + if Accepted(es[|es| - 1]) && FailsAfterwards(es[|es| - 1]) then 1 else 0
  }

  predicate Uncounted(e: Env) {
    !Accepted(e) || !(ReachesOutcome(e) || (e.loopClosed && e.breaks(0)))
  }

  function Never(es: seq<Env>): nat {
    if es == [] then 0 else Never(es[..|es| - 1]) + if Uncounted(es[|es| - 1]) then 1 else 0
  }

  lemma {:induction false} TasksAndCompletions(n: Node, es: seq<Env>)
    ensures Completions(RecordedAll(n, AllRecords(es))) + Never(es) == Completions(n) + |es| + Twice(es)
  {
    CompletionsGrow(n, AllRecords(es));
    if es != [] {
      TasksAndCompletions(n, es[..|es| - 1]);
      CompletionsGrow(n, AllRecords(es[..|es| - 1]));
      CountedExactly(es[|es| - 1]);
      hide Records, FailsAfterwards, ReachesOutcome, Accepted;
    }
  }
}
