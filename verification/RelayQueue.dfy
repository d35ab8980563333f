// The relay's bounded queue between a worker's RESPONSE frames and the consumer of one
// streamed call. TCP and HTTP-poll sessions run the same code on their own dictionaries.
module RelayQueue {
  import opened Lifecycle

  const CAPACITY := 32

  datatype Failure = Invalid(code: Code) | BackpressureExceeded

  datatype Item = Frame(frame: LifecycleFrame) | Poison(failure: Failure)

  // Where the consuming generator stands: waiting for an item, suspended after having yielded
  // a frame, or done: after the terminal frame, after raising, or given up (timeout, cancel).
  datatype Consumer = Waiting | Suspended(frame: LifecycleFrame) | Finished | Raised(failure: Failure) | GaveUp

  // `delivered` and `accepted` are history: what the consumer was given, what the validator took.
  datatype Stream = Stream(
    queue: seq<Item>, progress: Progress, consumer: Consumer,
    delivered: seq<LifecycleFrame>, accepted: seq<LifecycleFrame>)

  datatype Action = Arrive(frame: LifecycleFrame) | TakeItem | Resume | GiveUp

  const START := Stream([], FRESH, Waiting, [], [])

  // The call is in the pending dictionary until its consumer has left.
  predicate Registered(s: Stream) {
    s.consumer.Waiting? || s.consumer.Suspended?
  }

  function Arrived(ids: Ids, s: Stream, f: LifecycleFrame): Stream {
    if !Registered(s) then s
    else
      match Judge(ids, s.progress, f)
      case TypeError => s
      case Rejected(code) => s.(queue := [Poison(Invalid(code))])
      case Accepted =>
        var s := s.(progress := Advance(ids, s.progress, f), accepted := s.accepted + [f]);
        if |s.queue| < CAPACITY then s.(queue := s.queue + [Frame(f)])
        else s.(queue := [Poison(BackpressureExceeded)])
  }

  function Step(ids: Ids, s: Stream, a: Action): Stream {
    match a
    case Arrive(f) => Arrived(ids, s, f)
    case TakeItem =>
      if !s.consumer.Waiting? || s.queue == [] then s
      else
        (match s.queue[0]
         case Poison(failure) => s.(queue := s.queue[1..], consumer := Raised(failure))
         case Frame(f) => s.(queue := s.queue[1..], consumer := Suspended(f), delivered := s.delivered + [f]))
    case Resume =>
      if !s.consumer.Suspended? then s
      else s.(consumer := if IsFinal(s.consumer.frame) then Finished else Waiting)
    case GiveUp => if Registered(s) then s.(consumer := GaveUp) else s
  }

  function Continue(ids: Ids, s: Stream, actions: seq<Action>): Stream {
    if actions == [] then s else Step(ids, Continue(ids, s, actions[..|actions| - 1]), actions[|actions| - 1])
  }

  function Run(ids: Ids, actions: seq<Action>): Stream {
    Continue(ids, START, actions)
  }

  // ---- the code's own form ----

  class PendingStream {
    const ids: Ids
    const sequence: NativeResponseSequence
    var queue: seq<Item>
    var consumer: Consumer
    ghost var delivered: seq<LifecycleFrame>
    ghost var accepted: seq<LifecycleFrame>

    ghost predicate Valid()
      reads this
    {
      sequence.ids == ids
    }

    ghost function State(): Stream
      reads this, sequence
    {
      Stream(queue, sequence.State(), consumer, delivered, accepted)
    }

    constructor (ids: Ids)
      ensures Valid() && fresh(sequence) && State() == START && this.ids == ids
    {
      this.ids := ids;
      sequence := new NativeResponseSequence(ids);
      queue, consumer, delivered, accepted := [], Waiting, [], [];
    }

    method PutNowait(item: Item) returns (full: bool)
      modifies this`queue
      ensures full <==> old(|queue|) >= CAPACITY
      ensures queue == if full then old(queue) else old(queue) + [item]
    {
      full := |queue| >= CAPACITY;
      if !full {
        queue := queue + [item];
      }
    }

    method OnStreamResponse(f: LifecycleFrame)
      requires Valid()
      modifies this, sequence
      ensures Valid() && State() == Step(ids, old(State()), Arrive(f))
    {
      if !consumer.Waiting? && !consumer.Suspended? {
        return;  // no longer pending
      }
      var verdict := sequence.Accept(f);
      if verdict == TypeError {
        return;  // the worker loop logs it and drops the frame
      }
      var failure := if verdict.Rejected? then Invalid(verdict.code) else BackpressureExceeded;
      if verdict == Accepted {
        accepted := accepted + [f];
        var full := PutNowait(Frame(f));
        if !full {
          return;
        }
      }
      while queue != []
        modifies this`queue
        decreases |queue|
      {
        queue := queue[1..];
      }
      var _ := PutNowait(Poison(failure));
    }

    // One step of the consuming generator, if it is able to take one.
    method Consume(a: Action)
      requires Valid() && !a.Arrive?
      modifies this
      ensures Valid() && State() == Step(ids, old(State()), a)
    {
      match a {
        case TakeItem =>
          if consumer.Waiting? && queue != [] {
            var item := queue[0];
            queue := queue[1..];
            if item.Poison? {
              consumer := Raised(item.failure);
            } else {
              consumer, delivered := Suspended(item.frame), delivered + [item.frame];
            }
          }
        case Resume =>
          if consumer.Suspended? {
            consumer := if IsFinal(consumer.frame) then Finished else Waiting;
          }
        case GiveUp =>
          if consumer.Waiting? || consumer.Suspended? {
            consumer := GaveUp;
          }
        case Arrive(_) =>
      }
    }
  }

  // ---- no loss is ever hidden ----

  predicate Clean(queue: seq<Item>) {
    forall i :: 0 <= i < |queue| ==> queue[i].Frame?
  }

  function Frames(queue: seq<Item>): seq<LifecycleFrame>
    requires Clean(queue)
  {
    seq(|queue|, i requires 0 <= i < |queue| => queue[i].frame)
  }

  // Either what was delivered and what is queued make up exactly the accepted frames, or an
  // error stands at the head of the queue and nothing later can be reached without raising it.
  ghost predicate NothingHidden(s: Stream) {
    || (Clean(s.queue) && s.delivered + Frames(s.queue) == s.accepted)
    || (s.queue != [] && s.queue[0].Poison?)
  }

  ghost predicate Inv(ids: Ids, s: Stream) {
    && |s.queue| <= CAPACITY
    && WellFormedHistory(ids, s.accepted)
    && s.progress == ProgressAfter(s.accepted)
    && s.delivered <= s.accepted
    && (Registered(s) ==> NothingHidden(s))
    && (s.consumer.Suspended? ==> s.delivered != [] && s.consumer.frame == s.delivered[|s.delivered| - 1])
    && (s.consumer.Finished? ==> s.delivered != [] && IsFinal(s.delivered[|s.delivered| - 1]))
    && (s.consumer.Waiting? ==> forall f :: f in s.delivered ==> !IsFinal(f))
  }

  lemma ArrivalKeepsInv(ids: Ids, s: Stream, f: LifecycleFrame)
    requires Inv(ids, s)
    ensures Inv(ids, Arrived(ids, s, f))
  {
    if Registered(s) && Judge(ids, s.progress, f) == Accepted {
      AcceptExtends(ids, s.accepted, f);
      hide WellFormedHistory, Judge;
      var t := Arrived(ids, s, f);
      if Clean(s.queue) && s.delivered + Frames(s.queue) == s.accepted && |s.queue| < CAPACITY {
        assert Frames(t.queue) == Frames(s.queue) + [f];
      }
    }
  }

  lemma TakeKeepsInv(ids: Ids, s: Stream)
    requires Inv(ids, s)
    ensures Inv(ids, Step(ids, s, TakeItem))
  {
    if s.consumer.Waiting? && s.queue != [] && s.queue[0].Frame? {
      var t := Step(ids, s, TakeItem);
      var f := s.queue[0].frame;
      assert Clean(s.queue) && s.delivered + Frames(s.queue) == s.accepted;
      assert Frames(s.queue) == [f] + Frames(t.queue);
      assert t.delivered + Frames(t.queue) == s.accepted;
      assert t.delivered <= s.accepted;
    }
  }

  lemma ResumeKeepsInv(ids: Ids, s: Stream)
    requires Inv(ids, s)
    ensures Inv(ids, Step(ids, s, Resume))
  {
    hide WellFormedHistory, ProgressAfter;
    if s.consumer.Suspended? && !IsFinal(s.consumer.frame) {
      var n := |s.delivered|;
      forall f | f in s.delivered ensures !IsFinal(f) {
        var i :| 0 <= i < n && s.delivered[i] == f;
        if i < n - 1 {
          NotFinalBefore(ids, s, i);
        }
      }
    }
  }

  // Of the delivered frames only the last can be terminal.
  lemma NotFinalBefore(ids: Ids, s: Stream, i: nat)
    requires Inv(ids, s) && i < |s.delivered| - 1
    ensures !IsFinal(s.delivered[i])
  {
    assert s.accepted[i] == s.delivered[i];
  }

  lemma GiveUpKeepsInv(ids: Ids, s: Stream)
    requires Inv(ids, s)
    ensures Inv(ids, Step(ids, s, GiveUp))
  {
    hide NothingHidden, WellFormedHistory, ProgressAfter, IsFinal;
  }

  lemma StepKeepsInv(ids: Ids, s: Stream, a: Action)
    requires Inv(ids, s)
    ensures Inv(ids, Step(ids, s, a))
  {
    hide Inv, Arrived;
    match a
    case Arrive(f) => ArrivalKeepsInv(ids, s, f);
    case TakeItem => TakeKeepsInv(ids, s);
    case Resume => ResumeKeepsInv(ids, s);
    case GiveUp => GiveUpKeepsInv(ids, s);
  }

  lemma {:induction false} RunKeepsInv(ids: Ids, actions: seq<Action>)
    ensures Inv(ids, Run(ids, actions))
  {
    if actions != [] {
      RunKeepsInv(ids, actions[..|actions| - 1]);
      StepKeepsInv(ids, Run(ids, actions[..|actions| - 1]), actions[|actions| - 1]);
    }
  }

  // Over every interleaving of arrivals and consumer steps: the queue is bounded; while the
  // consumer is there no accepted frame is missing behind its back; what it was given is a
  // gapless ordered prefix of the accepted history with nothing past a terminal frame; and a
  // consumer that finished normally was given the whole accepted history.
  lemma QueueNeverHidesLoss(ids: Ids, actions: seq<Action>)
    ensures var s := Run(ids, actions);
            && |s.queue| <= 32
            && (Registered(s) ==> NothingHidden(s))
            && s.delivered <= s.accepted
            && WellFormedHistory(ids, s.delivered)
            && (s.consumer.Finished? ==> s.delivered == s.accepted && ProgressAfter(s.delivered).terminalSeen)
  {
    RunKeepsInv(ids, actions);
    var s := Run(ids, actions);
    var n := |s.delivered|;
    forall i | 0 <= i < n ensures s.delivered[i] == s.accepted[i] {
    }
    if s.consumer.Finished? {
      assert IsFinal(s.accepted[n - 1]);
      assert n == |s.accepted|;
    }
  }

  // The consumer has not been given a terminal frame, and the head of its queue is an error.
  predicate Doomed(s: Stream) {
    && s.queue != [] && s.queue[0].Poison?
    && (s.consumer.Waiting? || (s.consumer.Suspended? && !IsFinal(s.consumer.frame)))
  }

  // A poisoned stream ends in an error: whether the consumer waits or is still busy with a frame
  // that is not terminal, it is given no further frame, never finishes normally, and the error
  // stays before it as long as it is there.
  lemma {:induction false} PoisonIsFinal(ids: Ids, s: Stream, actions: seq<Action>)
    requires Doomed(s)
    ensures var t := Continue(ids, s, actions);
            t.delivered == s.delivered && !t.consumer.Finished? && (Registered(t) ==> Doomed(t))
  {
    if actions != [] {
      PoisonIsFinal(ids, s, actions[..|actions| - 1]);
    }
  }

  // ---- and no loss is made up ----

  // A clean queue is poisoned exactly by an arrival that makes the history ill-formed, or by one
  // that finds 32 items.
  lemma PoisonedOnlyBy(ids: Ids, s: Stream, a: Action)
    requires Inv(ids, s) && Clean(s.queue)
    ensures !Clean(Step(ids, s, a).queue) <==>
            && a.Arrive? && Registered(s) && Judge(ids, s.progress, a.frame) != TypeError
            && (WellFormedHistory(ids, s.accepted + [a.frame]) ==> |s.queue| == 32)
    ensures a.Arrive? && Registered(s) && Judge(ids, s.progress, a.frame).Rejected? ==>
              Step(ids, s, a).queue == [Poison(Invalid(Judge(ids, s.progress, a.frame).code))]
    ensures a.Arrive? && Registered(s) && Judge(ids, s.progress, a.frame) == Accepted && |s.queue| == 32 ==>
              Step(ids, s, a).queue == [Poison(BackpressureExceeded)]
  {
    if a.Arrive? {
      AcceptExtends(ids, s.accepted, a.frame);
      assert [Poison(BackpressureExceeded)][0].Poison?;
      var t := Step(ids, s, a);
      if Registered(s) && t.queue != s.queue && |t.queue| == 1 && t.queue[0].Poison? {
        assert !Clean(t.queue);
      }
    }
    hide WellFormedHistory, Judge, ProgressAfter;
  }

  // The frames that arrive during a run.
  function Arrivals(actions: seq<Action>): seq<LifecycleFrame> {
    if actions == [] then []
    else
      var last := actions[|actions| - 1];
      Arrivals(actions[..|actions| - 1]) + if last.Arrive? then [last.frame] else []
  }

  // The consumer does not give up, and never lets 32 items stand when another frame arrives.
  ghost predicate KeepsUp(ids: Ids, actions: seq<Action>) {
    forall k :: 0 <= k < |actions| ==>
      !actions[k].GiveUp? && (actions[k].Arrive? ==> |Run(ids, actions[..k]).queue| < 32)
  }

  // Everything that arrived was accepted, and was delivered or is queued in order.
  ghost predicate Whole(s: Stream, arrived: seq<LifecycleFrame>) {
    && Clean(s.queue) && s.accepted == arrived && s.delivered + Frames(s.queue) == arrived
    && !s.consumer.Raised? && !s.consumer.GaveUp?
  }

  lemma PrefixWellFormed(ids: Ids, h: seq<LifecycleFrame>, n: nat)
    requires WellFormedHistory(ids, h) && n <= |h|
    ensures WellFormedHistory(ids, h[..n])
    ensures forall i :: 0 <= i < n && i < |h| - 1 ==> !IsFinal(h[i])
  {
    forall i | 0 <= i < n ensures h[..n][i] == h[i] {
    }
  }

  lemma WholeArrival(ids: Ids, h: seq<LifecycleFrame>, s: Stream, arrived: seq<LifecycleFrame>, f: LifecycleFrame)
    requires WellFormedHistory(ids, h) && Inv(ids, s) && Whole(s, arrived)
    requires arrived + [f] <= h && |s.queue| < CAPACITY
    ensures Whole(Arrived(ids, s, f), arrived + [f])
  {
    var n := |arrived|;
    PrefixWellFormed(ids, h, n);
    PrefixWellFormed(ids, h, n + 1);
    assert h[..n + 1] == arrived + [f] && h[..n] == arrived;
    AcceptExtends(ids, arrived, f);
    hide WellFormedHistory, Judge, Advance;
    assert Registered(s);
    assert Frames(s.queue + [Frame(f)]) == Frames(s.queue) + [f];
  }

  lemma WholeTake(ids: Ids, s: Stream, arrived: seq<LifecycleFrame>)
    requires Whole(s, arrived)
    ensures Whole(Step(ids, s, TakeItem), arrived)
  {
    if s.consumer.Waiting? && s.queue != [] {
      assert Frames(s.queue) == [s.queue[0].frame] + Frames(s.queue[1..]);
    }
  }

  lemma WholeStep(ids: Ids, h: seq<LifecycleFrame>, s: Stream, arrived: seq<LifecycleFrame>, a: Action)
    requires WellFormedHistory(ids, h) && Inv(ids, s) && Whole(s, arrived) && !a.GiveUp?
    requires a.Arrive? ==> arrived + [a.frame] <= h && |s.queue| < CAPACITY
    ensures Whole(Step(ids, s, a), arrived + if a.Arrive? then [a.frame] else [])
  {
    hide WellFormedHistory, Inv, Arrived;
    assert arrived + [] == arrived;
    match a
    case Arrive(f) => WholeArrival(ids, h, s, arrived, f);
    case TakeItem => WholeTake(ids, s, arrived);
    case Resume =>
  }

  lemma {:induction false} WholeRun(ids: Ids, h: seq<LifecycleFrame>, actions: seq<Action>)
    requires WellFormedHistory(ids, h) && Arrivals(actions) <= h && KeepsUp(ids, actions)
    ensures Whole(Run(ids, actions), Arrivals(actions))
  {
    if actions != [] {
      var front, last := actions[..|actions| - 1], actions[|actions| - 1];
      forall k | 0 <= k < |front| ensures front[..k] == actions[..k] && front[k] == actions[k] {
      }
      WholeRun(ids, h, front);
      RunKeepsInv(ids, front);
      hide WellFormedHistory, Inv, Whole, Step;
      WholeStep(ids, h, Run(ids, front), Arrivals(front), last);
      assert Arrivals(front) + [] == Arrivals(front);
    }
  }

  lemma {:induction false} ContinueFront(ids: Ids, s: Stream, a: Action, rest: seq<Action>)
    ensures Continue(ids, s, [a] + rest) == Continue(ids, Step(ids, s, a), rest)
  {
    if rest == [] {
      assert [a] + rest == [a] && [a][..0] == [];
    } else {
      assert ([a] + rest)[..|rest|] == [a] + rest[..|rest| - 1];
      ContinueFront(ids, s, a, rest[..|rest| - 1]);
    }
  }

  lemma {:induction false} ContinueAppend(ids: Ids, s: Stream, a: seq<Action>, b: seq<Action>)
    ensures Continue(ids, s, a + b) == Continue(ids, Continue(ids, s, a), b)
  {
    if b == [] {
      assert a + b == a;
    } else {
      assert (a + b)[..|a + b| - 1] == a + b[..|b| - 1];
      ContinueAppend(ids, s, a, b[..|b| - 1]);
    }
  }

  // What the consumer does next when something is waiting for it.
  function NextOf(s: Stream): Action {
    if s.consumer.Suspended? then Resume else TakeItem
  }

  // A consumer that goes on taking gets the whole of a complete history.
  lemma {:induction false} DrainDelivers(ids: Ids, s: Stream, h: seq<LifecycleFrame>) returns (more: seq<Action>)
    requires Inv(ids, s) && Whole(s, h) && h != [] && IsFinal(h[|h| - 1])
    ensures Continue(ids, s, more).consumer.Finished? && Continue(ids, s, more).delivered == h
    ensures forall a :: a in more ==> a.TakeItem? || a.Resume?
    decreases |s.queue|, if s.consumer.Suspended? then 1 else 0
  {
    if s.consumer.Finished? {
      more := [];
      assert s.accepted[|s.delivered| - 1] == s.delivered[|s.delivered| - 1];
    } else {
      var a := NextOf(s);
      StepKeepsInv(ids, s, a);
      WholeStep(ids, h, s, h, a);
      assert h + [] == h;
      var rest := DrainDelivers(ids, Step(ids, s, a), h);
      ContinueFront(ids, s, a, rest);
      more := [a] + rest;
    }
  }

  // Between a conforming emitter and a consumer that stays within 32 frames nothing is lost:
  // whatever the interleaving, once its frames have arrived the consumer gets the whole call,
  // in order and complete, by going on.
  lemma ConformingIsDelivered(ids: Ids, run: seq<HandlerStep>, actions: seq<Action>) returns (more: seq<Action>)
    requires forall s :: s in run && s.Yield? ==> NameAllowed(s.event)
    requires Arrivals(actions) == Received(ids, run) && KeepsUp(ids, actions)
    ensures var t := Run(ids, actions + more);
            t.consumer.Finished? && t.delivered == Received(ids, run) && t.queue == []
    ensures forall a :: a in more ==> a.TakeItem? || a.Resume?
  {
    var h := Received(ids, run);
    AllowedNamesAccepted(ids, run);
    EmitterSatisfiesValidator(ids, run);
    ValidateIffWellFormed(ids, h);
    WholeRun(ids, h, actions);
    RunKeepsInv(ids, actions);
    hide Received, WrittenEvents, Validate;
    more := DrainDelivers(ids, Run(ids, actions), h);
    ContinueAppend(ids, START, actions, more);
    NothingLeft(ids, h, actions, more);
  }

  lemma NothingLeft(ids: Ids, h: seq<LifecycleFrame>, actions: seq<Action>, more: seq<Action>)
    requires WellFormedHistory(ids, h) && Arrivals(actions) == h && KeepsUp(ids, actions)
    requires forall a :: a in more ==> a.TakeItem? || a.Resume?
    requires Run(ids, actions + more).delivered == h
    ensures Run(ids, actions + more).queue == []
  {
    AllKeepsUp(ids, actions, more);
    WholeRun(ids, h, actions + more);
    var t := Run(ids, actions + more);
    assert |t.delivered + Frames(t.queue)| == |t.delivered| + |t.queue|;
  }

  lemma {:induction false} AllKeepsUp(ids: Ids, actions: seq<Action>, more: seq<Action>)
    requires KeepsUp(ids, actions)
    requires forall a :: a in more ==> a.TakeItem? || a.Resume?
    ensures KeepsUp(ids, actions + more) && Arrivals(actions + more) == Arrivals(actions)
  {
    if more == [] {
      assert actions + more == actions;
    } else {
      var front, all := more[..|more| - 1], actions + more;
      assert all[..|all| - 1] == actions + front && more[|more| - 1] in more;
      AllKeepsUp(ids, actions, front);
      forall k | 0 <= k < |all| && all[k].Arrive? ensures |Run(ids, all[..k]).queue| < CAPACITY {
        assert (actions + front)[..k] == all[..k] && (actions + front)[k] == all[k];
      }
      forall k | 0 <= k < |all| ensures !all[k].GiveUp? {
        assert k < |all| - 1 ==> (actions + front)[k] == all[k];
      }
    }
  }
}
