// The acknowledged metrics batch of the heartbeat: completions, overlapping heartbeats, lost
// requests, lost and late replies, and the directory at the other end.
module Metrics {
  import opened Common

  // Tasks that succeeded, tasks that failed, and their total latency in ticks of the clock.
  datatype Counts = Counts(success: nat, failed: nat, latency: int)

  function Zero(): Counts {
    Counts(0, 0, 0)
  }

  function Plus(a: Counts, b: Counts): Counts {
    Counts(a.success + b.success, a.failed + b.failed, a.latency + b.latency)
  }

  // A batch under its random id; ids never repeat.
  datatype Batch = Batch(id: nat, counts: Counts)

  // ---- the node ----

  datatype Node = Node(live: Counts, pending: Option<Batch>)

  datatype Completion = Completion(ok: bool, latency: int)

  function CountOf(c: Completion): Counts {
    Counts(if c.ok then 1 else 0, if c.ok then 0 else 1, if c.latency > 0 then c.latency else 0)
  }

  function Recorded(n: Node, c: Completion): Node {
    n.(live := Plus(n.live, CountOf(c)))
  }

  // What a heartbeat does before it sends: open a batch unless one is outstanding.
  function Opened(n: Node, freshId: nat): Node {
    if n.pending.None? && (n.live.success > 0 || n.live.failed > 0) then Node(Zero(), Some(Batch(freshId, n.live)))
      else n
  }

  // A reply with a success status: the id it acknowledges, none, or a body that is not JSON.
  datatype Reply = Acknowledges(id: nat) | NoField | NotJson

  // Whether a reply settles the batch the heartbeat carried.
  predicate Settles(carried: Option<Batch>, reply: Reply) {
    match reply
    case Acknowledges(id) => carried.Some? && id == carried.value.id
    case NoField => carried.Some?
    case NotJson => true
  }

  function Settled(n: Node, carried: Option<Batch>, reply: Reply): Node {
    if Settles(carried, reply) && n.pending == carried then n.(pending := None) else n
  }

  class IicpNode {
    var tasksSuccess: nat
    var tasksFailed: nat
    var tasksLatencyTotal: int
    var pendingMetricsBatch: Option<Batch>

    function State(): Node
      reads this
    {
      Node(Counts(tasksSuccess, tasksFailed, tasksLatencyTotal), pendingMetricsBatch)
    }

    constructor ()
      ensures State() == Node(Zero(), None)
    {
      tasksSuccess, tasksFailed, tasksLatencyTotal, pendingMetricsBatch := 0, 0, 0, None;
    }

    method RecordTask(c: Completion)
      modifies this
      ensures State() == Recorded(old(State()), c)
    {
      if c.ok {
        tasksSuccess := tasksSuccess + 1;
      } else {
        tasksFailed := tasksFailed + 1;
      }
      if c.latency > 0 {
        tasksLatencyTotal := tasksLatencyTotal + c.latency;
      }
    }

    method BeginHeartbeat(freshId: nat) returns (carried: Option<Batch>)
      modifies this
      ensures State() == Opened(old(State()), freshId)
      ensures carried == State().pending
    {
      if pendingMetricsBatch == None && (tasksSuccess > 0 || tasksFailed > 0) {
        pendingMetricsBatch := Some(Batch(freshId, Counts(tasksSuccess, tasksFailed, tasksLatencyTotal)));
        tasksSuccess, tasksFailed, tasksLatencyTotal := 0, 0, 0;
      }
      carried := pendingMetricsBatch;
    }

    method EndHeartbeat(carried: Option<Batch>, reply: Reply)
      modifies this
      ensures State() == Settled(old(State()), carried, reply)
    {
      var settles :=
        match reply
        case Acknowledges(id) => carried.Some? && carried.value.id == id
        case NoField => carried.Some?
        case NotJson => true;
      if settles {
        if pendingMetricsBatch == carried {
          pendingMetricsBatch := None;
        }
      }
    }
  }

  // ---- the whole system ----

  // Heartbeats under way, by number: the batch each carries. Replies on their way back, with
  // the heartbeat each answers. `recorded` and `acknowledged` are history.
  datatype Sys = Sys(
    node: Node, nextId: nat,
    beats: seq<Option<Batch>>, replies: set<(nat, Reply)>,
    applied: map<nat, Counts>, total: Counts,
    recorded: Counts, acknowledged: Counts)

  function Start(): Sys {
    Sys(Node(Zero(), None), 0, [], {}, map[], Zero(), Zero(), Zero())
  }

  datatype Act =
    | Complete(c: Completion)
    | Begin
    | Deliver(beat: nat, takes: bool, reply: Reply)  // the request reaches the directory, which answers
    | Receive(beat: nat, reply: Reply)               // the answer reaches the node, at any later time

  // A directory that takes a batch applies it unless it has already applied its id.
  function Applied(s: Sys, carried: Option<Batch>, takes: bool): Sys {
    if takes && carried.Some? && carried.value.id !in s.applied then
      s.(applied := s.applied[carried.value.id := carried.value.counts], total := Plus(s.total, carried.value.counts))
    else s
  }

  // Requests and replies may be lost (no action), repeated and reordered.
  function Step(s: Sys, a: Act): Sys {
    match a
    case Complete(c) => s.(node := Recorded(s.node, c), recorded := Plus(s.recorded, CountOf(c)))
    case Begin =>
      var n := Opened(s.node, s.nextId);
      s.(node := n, nextId := s.nextId + 1, beats := s.beats + [n.pending])
    case Deliver(beat, takes, reply) =>
      if beat >= |s.beats| then s
      else Applied(s, s.beats[beat], takes).(replies := s.replies + {(beat, reply)})
    case Receive(beat, reply) =>
      if beat >= |s.beats| || (beat, reply) !in s.replies then s
      else
        var n := Settled(s.node, s.beats[beat], reply);
        s.(node := n,
           acknowledged := if n.pending != s.node.pending then Plus(s.acknowledged, s.node.pending.value.counts)
             else s.acknowledged)
  }

  function Continue(s: Sys, acts: seq<Act>): Sys {
    if acts == [] then s else Step(Continue(s, acts[..|acts| - 1]), acts[|acts| - 1])
  }

  function Run(acts: seq<Act>): Sys {
    Continue(Start(), acts)
  }

  function PendingCounts(n: Node): Counts {
    if n.pending.Some? then n.pending.value.counts else Zero()
  }

  // Nothing is ever lost or counted twice inside the node, whatever the directory replies.
  ghost predicate Conserved(s: Sys) {
    s.recorded == Plus(Plus(s.acknowledged, PendingCounts(s.node)), s.node.live)
  }

  lemma PlusLaws(a: Counts, b: Counts, c: Counts)
    ensures Plus(a, b) == Plus(b, a) && Plus(Plus(a, b), c) == Plus(a, Plus(b, c)) && Plus(a, Zero()) == a
  {
  }

  lemma StepConserves(s: Sys, a: Act)
    requires Conserved(s)
    ensures Conserved(Step(s, a))
  {
    hide Plus, CountOf;
    var pending, live := PendingCounts(s.node), s.node.live;
    PlusLaws(s.acknowledged, pending, live);
    match a
    case Complete(c) =>
      PlusLaws(Plus(s.acknowledged, pending), live, CountOf(c));
    case Begin =>
      PlusLaws(Plus(s.acknowledged, live), Zero(), Zero());
      PlusLaws(s.acknowledged, Zero(), Zero());
    case Deliver(_, _, _) =>
    case Receive(_, _) =>
      PlusLaws(Plus(s.acknowledged, pending), Zero(), Zero());
  }

  lemma {:induction false} ContinueConserves(s: Sys, acts: seq<Act>)
    requires Conserved(s)
    ensures Conserved(Continue(s, acts))
  {
    hide Step, Conserved;
    if acts != [] {
      ContinueConserves(s, acts[..|acts| - 1]);
      StepConserves(Continue(s, acts[..|acts| - 1]), acts[|acts| - 1]);
    }
  }

  lemma Conservation(acts: seq<Act>)
    ensures Conserved(Run(acts))
  {
    StartConserved();
    hide Conserved, Start, Zero;
    ContinueConserves(Start(), acts);
  }

  lemma StartConserved()
    ensures Conserved(Start())
  {
  }

  // The action is a reply, received for a beat that carried `batch`, which settles it.
  predicate SettlesBatch(s: Sys, a: Act, batch: Option<Batch>) {
    && a.Receive? && a.beat < |s.beats| && (a.beat, a.reply) in s.replies
    && s.beats[a.beat] == batch && Settles(batch, a.reply)
  }

  ghost predicate SettledWithin(s: Sys, acts: seq<Act>, batch: Option<Batch>) {
    exists k :: 0 <= k < |acts| && SettlesBatch(Continue(s, acts[..k]), acts[k], batch)
  }

  // A batch stays pending until a reply that settles it is received for a beat that carried it:
  // stale replies, completions and further heartbeats leave it alone.
  lemma {:induction false} PendingUntilSettled(s: Sys, acts: seq<Act>)
    requires s.node.pending.Some?
    ensures Continue(s, acts).node.pending == s.node.pending || SettledWithin(s, acts, s.node.pending)
  {
    if acts != [] {
      var front, last := acts[..|acts| - 1], acts[|acts| - 1];
      PendingUntilSettled(s, front);
      if Continue(s, front).node.pending == s.node.pending {
        if SettlesBatch(Continue(s, front), last, s.node.pending) {
          assert SettlesBatch(Continue(s, acts[..|acts| - 1]), acts[|acts| - 1], s.node.pending);
        }
      } else {
        var k :| 0 <= k < |front| && SettlesBatch(Continue(s, front[..k]), front[k], s.node.pending);
        assert front[..k] == acts[..k];
        assert SettlesBatch(Continue(s, acts[..k]), acts[k], s.node.pending);
      }
    }
  }

  // ---- what a reply does ----

  // Exactly which replies take the pending batch off the node: one that acknowledges its id, one
  // without the field and one that is no JSON, each for a beat that carried this very batch.
  lemma ReplyMeans(s: Sys, beat: nat, reply: Reply)
    requires beat < |s.beats| && (beat, reply) in s.replies
    ensures var n := s.node;
            var mine := n.pending.Some? && s.beats[beat] == n.pending;
            Step(s, Receive(beat, reply)).node ==
            if mine && (reply == NoField || reply == NotJson || reply == Acknowledges(n.pending.value.id))
            then n.(pending := None) else n
  {
  }

  // An id that is not the beat's own never clears anything.
  lemma OtherIdClearsNothing(s: Sys, beat: nat, other: nat)
    requires beat < |s.beats| && (s.beats[beat].Some? ==> s.beats[beat].value.id != other)
    ensures Step(s, Receive(beat, Acknowledges(other))).node == s.node
  {
  }

  // A heartbeat leaves nothing behind that is not under a batch, or keeps the batch that is out.
  lemma BeginMeans(s: Sys)
    ensures var n, m := s.node, Step(s, Begin).node;
            && Step(s, Begin).beats == s.beats + [m.pending]
            && (n.pending.Some? ==> m == n)
            && (n.pending.None? && n.live.success + n.live.failed > 0 ==>
                  m == Node(Zero(), Some(Batch(s.nextId, n.live))))
            && (n.pending.None? && n.live.success + n.live.failed == 0 ==> m == n)
  {
  }

  // The usual exchange settles: after every run, if the next heartbeat carries a batch, and the
  // directory takes it and acknowledges its id, nothing is pending any more, the directory has
  // it, and everything recorded is acknowledged but for what is still live.
  lemma AcknowledgedIsSettled(acts: seq<Act>)
    requires Step(Run(acts), Begin).node.pending.Some?
    ensures var s := Step(Run(acts), Begin);
            var k, id := |Run(acts).beats|, s.node.pending.value.id;
            var t := Step(Step(s, Deliver(k, true, Acknowledges(id))), Receive(k, Acknowledges(id)));
            && t.node.pending.None? && id in t.applied && t.node.live == s.node.live
            && t.recorded == Plus(t.acknowledged, t.node.live)
  {
    var r := Run(acts);
    var s := Step(r, Begin);
    var k, id := |r.beats|, s.node.pending.value.id;
    var d := Deliver(k, true, Acknowledges(id));
    Conservation(acts);
    StepConserves(r, Begin);
    StepConserves(s, d);
    StepConserves(Step(s, d), Receive(k, Acknowledges(id)));
    BeginMeans(r);
    hide Run, Conserved;
    var u := Step(s, d);
    assert u.beats == s.beats && u.node == s.node && (k, Acknowledges(id)) in u.replies && id in u.applied;
    ReplyMeans(u, k, Acknowledges(id));
    NothingPending(Step(u, Receive(k, Acknowledges(id))));
  }

  lemma NothingPending(s: Sys)
    requires Conserved(s) && s.node.pending.None?
    ensures s.recorded == Plus(s.acknowledged, s.node.live)
  {
    PlusLaws(s.acknowledged, Zero(), Zero());
  }

  // What is recorded: the tasks that ended well, those that did not, and the positive latencies.
  function Succeeded(acts: seq<Act>): nat {
    if acts == [] then 0
    else
      var last := acts[|acts| - 1];
      Succeeded(acts[..|acts| - 1]) + if last.Complete? && last.c.ok then 1 else 0
  }

  function Completed(acts: seq<Act>): nat {
    if acts == [] then 0 else Completed(acts[..|acts| - 1]) + if acts[|acts| - 1].Complete? then 1 else 0
  }

  function TotalLatency(acts: seq<Act>): int {
    if acts == [] then 0
    else
      var last := acts[|acts| - 1];
      TotalLatency(acts[..|acts| - 1]) + if last.Complete? && last.c.latency > 0 then last.c.latency else 0
  }

  lemma {:induction false} RecordedIsSum(acts: seq<Act>)
    ensures var r := Run(acts).recorded;
            r.success == Succeeded(acts) && r.success + r.failed == Completed(acts) && r.latency == TotalLatency(acts)
  {
    if acts != [] {
      RecordedIsSum(acts[..|acts| - 1]);
    }
  }

  // ---- a directory that settles only what it has ----

  // It may decline a batch, and answer as it likes otherwise, but a reply that settles a batch
  // is given only once the batch has been applied.
  ghost predicate Conforming(s: Sys, a: Act) {
    a.Deliver? && a.beat < |s.beats| && s.beats[a.beat].Some? && !a.takes && s.beats[a.beat].value.id !in s.applied ==>
      !Settles(s.beats[a.beat], a.reply)
  }

  ghost predicate ConformingRun(acts: seq<Act>) {
    acts == [] || (ConformingRun(acts[..|acts| - 1]) && Conforming(Run(acts[..|acts| - 1]), acts[|acts| - 1]))
  }

  predicate IsApplied(s: Sys, b: Option<Batch>) {
    b.Some? && b.value.id in s.applied
  }

  // Ids were given out before, an id has one content, and the pending batch is being carried.
  ghost predicate IdsAreSound(s: Sys) {
    && (forall b :: b in s.beats && b.Some? ==> b.value.id < s.nextId)
    && (forall b, c :: b in s.beats && c in s.beats && b.Some? && c.Some? && b.value.id == c.value.id ==> b == c)
    && (s.node.pending.Some? ==> s.node.pending in s.beats)
    && (forall id :: id in s.applied ==> id < s.nextId)
  }

  ghost predicate SettledAreApplied(s: Sys) {
    && (forall b :: b in s.beats && b.Some? && b != s.node.pending ==> IsApplied(s, b))
    && (forall i, r :: (i, r) in s.replies ==> i < |s.beats|)
    && (forall i, r :: (i, r) in s.replies && s.beats[i].Some? && Settles(s.beats[i], r) ==> IsApplied(s, s.beats[i]))
  }

  // What the directory holds: everything acknowledged, and the pending batch if it has it.
  ghost predicate DirectoryAgrees(s: Sys) {
    s.total == if IsApplied(s, s.node.pending) then Plus(s.acknowledged, s.node.pending.value.counts)
      else s.acknowledged
  }

  ghost predicate Inv(s: Sys) {
    IdsAreSound(s) && SettledAreApplied(s) && DirectoryAgrees(s)
  }

  lemma StepKeepsInv(s: Sys, a: Act)
    requires Inv(s) && Conforming(s, a)
    ensures Inv(Step(s, a))
  {
    match a
    case Complete(c) =>
    case Begin => BeginKeepsInv(s);
    case Deliver(beat, takes, reply) => DeliverKeepsInv(s, beat, takes, reply);
    case Receive(beat, reply) =>
      if beat < |s.beats| && (beat, reply) in s.replies && Settled(s.node, s.beats[beat], reply) != s.node {
        assert s.beats[beat] == s.node.pending && IsApplied(s, s.node.pending);
      }
  }

  lemma BeginKeepsInv(s: Sys)
    requires Inv(s)
    ensures Inv(Step(s, Begin))
  {
    var t := Step(s, Begin);
    forall b | b in t.beats ensures b in s.beats || b == t.node.pending {
    }
    forall i, r | (i, r) in t.replies ensures t.beats[i] == s.beats[i] {
    }
  }

  lemma DeliverKeepsInv(s: Sys, beat: nat, takes: bool, reply: Reply)
    requires Inv(s) && Conforming(s, Deliver(beat, takes, reply))
    ensures Inv(Step(s, Deliver(beat, takes, reply)))
  {
    if beat < |s.beats| {
      var t, b := Step(s, Deliver(beat, takes, reply)), s.beats[beat];
      assert b in s.beats;
      if takes && b.Some? && !IsApplied(s, b) {
        assert b == s.node.pending;
      }
      assert forall c :: IsApplied(s, c) ==> IsApplied(t, c);
    }
  }

  lemma {:induction false} RunKeepsInv(acts: seq<Act>)
    requires ConformingRun(acts)
    ensures Inv(Run(acts))
  {
    if acts != [] {
      RunKeepsInv(acts[..|acts| - 1]);
      StepKeepsInv(Run(acts[..|acts| - 1]), acts[|acts| - 1]);
    }
  }

  // Over every interleaving the directory's total falls short of what was recorded by exactly
  // what is still live, and by the pending batch until the directory has it: every task is
  // counted once.
  lemma ExactlyOnce(acts: seq<Act>)
    requires ConformingRun(acts)
    ensures DirectoryAgrees(Run(acts))
    ensures var s := Run(acts);
            var missing := if IsApplied(s, s.node.pending) then Zero() else PendingCounts(s.node);
            s.recorded == Plus(Plus(s.total, missing), s.node.live)
  {
    RunKeepsInv(acts);
    Conservation(acts);
    var s := Run(acts);
    hide Run, Inv;
    PlusLaws(s.acknowledged, PendingCounts(s.node), Zero());
  }

  // ---- exactly when the totals agree ----

  // The action takes the pending batch away.
  predicate Clears(s: Sys, a: Act) {
    a.Receive? && Step(s, a).node.pending != s.node.pending
  }

  ghost predicate AlwaysAgrees(acts: seq<Act>) {
    forall k :: 0 <= k <= |acts| ==> DirectoryAgrees(Run(acts[..k]))
  }

  // Whenever a reply took a batch off the node, the directory had it.
  ghost predicate ClearsOnlyApplied(acts: seq<Act>) {
    forall k :: 0 <= k < |acts| && Clears(Run(acts[..k]), acts[k]) ==>
                  IsApplied(Run(acts[..k]), Run(acts[..k]).node.pending)
  }

  // Ids as ever, and only the pending batch is not applied yet, if any.
  ghost predicate OthersApplied(s: Sys) {
    && IdsAreSound(s)
    && (forall b :: b in s.beats && b.Some? && b != s.node.pending ==> IsApplied(s, b))
    && DirectoryAgrees(s)
  }

  lemma StepKeepsApplied(s: Sys, a: Act)
    requires OthersApplied(s) && (Clears(s, a) ==> IsApplied(s, s.node.pending))
    ensures OthersApplied(Step(s, a))
  {
    match a
    case Complete(c) =>
    case Begin =>
      var t := Step(s, Begin);
      forall b | b in t.beats ensures b in s.beats || b == t.node.pending {
      }
    case Deliver(beat, takes, reply) =>
      if beat < |s.beats| {
        var t, b := Step(s, a), s.beats[beat];
        assert b in s.beats;
        if takes && b.Some? && !IsApplied(s, b) {
          assert b == s.node.pending;
        }
        assert forall c :: IsApplied(s, c) ==> IsApplied(t, c);
      }
    case Receive(beat, reply) =>
  }

  // An open batch carries at least one task.
  ghost predicate CarriesTasks(s: Sys) {
    s.node.pending.Some? ==> s.node.pending.value.counts.success > 0 || s.node.pending.value.counts.failed > 0
  }

  lemma {:induction false} RunPendingCounts(acts: seq<Act>)
    ensures CarriesTasks(Run(acts))
  {
    if acts != [] {
      RunPendingCounts(acts[..|acts| - 1]);
    }
  }

  lemma {:induction false} RunKeepsApplied(acts: seq<Act>)
    requires ClearsOnlyApplied(acts)
    ensures OthersApplied(Run(acts))
  {
    if acts != [] {
      var front, last := acts[..|acts| - 1], acts[|acts| - 1];
      forall k | 0 <= k < |front| ensures front[..k] == acts[..k] && front[k] == acts[k] {
      }
      RunKeepsApplied(front);
      StepKeepsApplied(Run(front), last);
    }
  }

  // A batch taken off the node before the directory had it makes the totals differ at once.
  lemma LossShows(s: Sys, a: Act)
    requires Clears(s, a) && !IsApplied(s, s.node.pending) && CarriesTasks(s)
    ensures !(DirectoryAgrees(s) && DirectoryAgrees(Step(s, a)))
  {
  }

  // The totals agree after every prefix of a run exactly when every reply that took a batch off
  // the node found it applied, whatever the directory is otherwise.
  lemma TotalsAgreeIff(acts: seq<Act>)
    ensures AlwaysAgrees(acts) <==> ClearsOnlyApplied(acts)
  {
    if ClearsOnlyApplied(acts) {
      forall k | 0 <= k <= |acts| ensures DirectoryAgrees(Run(acts[..k])) {
        forall l | 0 <= l < k ensures acts[..k][..l] == acts[..l] && acts[..k][l] == acts[l] {
        }
        RunKeepsApplied(acts[..k]);
      }
    }
    if AlwaysAgrees(acts) {
      forall k | 0 <= k < |acts| && Clears(Run(acts[..k]), acts[k])
        ensures IsApplied(Run(acts[..k]), Run(acts[..k]).node.pending)
      {
        assert acts[..k + 1][..k] == acts[..k];
        RunPendingCounts(acts[..k]);
        assert Run(acts[..k + 1]) == Step(Run(acts[..k]), acts[k]);
        assert DirectoryAgrees(Run(acts[..k + 1]));
        if !IsApplied(Run(acts[..k]), Run(acts[..k]).node.pending) {
          LossShows(Run(acts[..k]), acts[k]);
        }
      }
    }
  }

  // A directory that settles only what it has meets that condition.
  lemma ConformingSuffices(acts: seq<Act>)
    requires ConformingRun(acts)
    ensures ClearsOnlyApplied(acts)
  {
    forall k | 0 <= k < |acts| && Clears(Run(acts[..k]), acts[k])
      ensures IsApplied(Run(acts[..k]), Run(acts[..k]).node.pending)
    {
      ConformingPrefix(acts, k);
      RunKeepsInv(acts[..k]);
      ClearedIsApplied(Run(acts[..k]), acts[k]);
    }
  }

  lemma ClearedIsApplied(s: Sys, a: Act)
    requires SettledAreApplied(s) && Clears(s, a)
    ensures IsApplied(s, s.node.pending)
  {
  }

  lemma {:induction false} ConformingPrefix(acts: seq<Act>, k: nat)
    requires ConformingRun(acts) && k <= |acts|
    ensures ConformingRun(acts[..k])
  {
    if k == |acts| {
      assert acts[..k] == acts;
    } else {
      ConformingPrefix(acts[..|acts| - 1], k);
      assert acts[..|acts| - 1][..k] == acts[..k];
    }
  }

  // ---- a batch that is lost ----

  lemma {:induction false} RunIdsSound(acts: seq<Act>)
    ensures IdsAreSound(Run(acts))
  {
    if acts != [] {
      RunIdsSound(acts[..|acts| - 1]);
      StepIdsSound(Run(acts[..|acts| - 1]), acts[|acts| - 1]);
    }
  }

  lemma StepIdsSound(s: Sys, a: Act)
    requires IdsAreSound(s)
    ensures IdsAreSound(Step(s, a))
  {
    match a
    case Complete(c) =>
    case Begin =>
      var t := Step(s, Begin);
      forall b | b in t.beats ensures b in s.beats || b == t.node.pending {
      }
    case Deliver(beat, takes, reply) =>
      if beat < |s.beats| {
        assert s.beats[beat] in s.beats;
      }
    case Receive(beat, reply) =>
  }

  // The batch `id` was carried by some of the first `beats`, and by no later one, now or ever.
  ghost predicate NoMoreCarried(s: Sys, beats: seq<Option<Batch>>, id: nat) {
    && id < s.nextId && beats <= s.beats
    && (forall i :: |beats| <= i < |s.beats| && s.beats[i].Some? ==> s.beats[i].value.id != id)
    && (s.node.pending.Some? ==> s.node.pending.value.id != id)
  }

  // One of these requests, under way or repeated, is delivered and taken after all.
  predicate TakesCopy(a: Act, beats: seq<Option<Batch>>, id: nat) {
    a.Deliver? && a.takes && a.beat < |beats| && beats[a.beat].Some? && beats[a.beat].value.id == id
  }

  lemma StaysLost(s: Sys, a: Act, beats: seq<Option<Batch>>, id: nat)
    requires NoMoreCarried(s, beats, id)
    ensures NoMoreCarried(Step(s, a), beats, id)
    ensures id in Step(s, a).applied <==> id in s.applied || TakesCopy(a, beats, id)
  {
  }

  lemma {:induction false} LostUnlessCopied(s: Sys, later: seq<Act>, beats: seq<Option<Batch>>, id: nat)
    requires NoMoreCarried(s, beats, id) && id !in s.applied
    ensures NoMoreCarried(Continue(s, later), beats, id)
    ensures id in Continue(s, later).applied <==> exists a :: a in later && TakesCopy(a, beats, id)
  {
    if later != [] {
      var front, last := later[..|later| - 1], later[|later| - 1];
      assert later == front + [last];
      LostUnlessCopied(s, front, beats, id);
      StaysLost(Continue(s, front), last, beats, id);
      hide Step, NoMoreCarried, TakesCopy;
      assert (exists a :: a in later && TakesCopy(a, beats, id)) <==>
        (exists a :: a in front && TakesCopy(a, beats, id)) || TakesCopy(last, beats, id);
    }
  }

  // In any run, when a reply takes a batch off the node that the directory does not have: no
  // later heartbeat carries it again. Whatever happens from then on - tasks, heartbeats,
  // deliveries, replies - the directory gets the batch exactly if a request that carried it, still
  // under way or repeated, is delivered and taken.
  lemma DroppedBatchIsLost(acts: seq<Act>, a: Act, later: seq<Act>)
    requires Clears(Run(acts), a) && !IsApplied(Run(acts), Run(acts).node.pending)
    ensures Run(acts).node.pending.Some?
    ensures var s := Run(acts);
            var id := s.node.pending.value.id;
            id in Continue(Step(s, a), later).applied <==> exists d :: d in later && TakesCopy(d, s.beats, id)
  {
    var s := Run(acts);
    RunIdsSound(acts);
    hide Run;
    LostUnlessCopied(Step(s, a), later, s.beats, s.node.pending.value.id);
  }

  lemma ContinueOn(s: Sys, acts: seq<Act>, a: Act)
    ensures Continue(s, acts + [a]) == Step(Continue(s, acts), a) && Continue(s, []) == s
  {
    assert (acts + [a])[..|acts|] == acts;
  }

  // Such a run: a batch is dropped, and answered without the acknowledgement field.
  lemma DroppingRun(c: Completion)
    ensures var acts := [Complete(c), Begin, Deliver(0, false, NoField)];
            && Clears(Run(acts), Receive(0, NoField)) && !IsApplied(Run(acts), Run(acts).node.pending)
            && Step(Run(acts), Receive(0, NoField)).acknowledged == CountOf(c)
            && Step(Run(acts), Receive(0, NoField)).total == Zero()
  {
    var deliver := Deliver(0, false, NoField);
    assert [Complete(c), Begin, deliver] == [] + [Complete(c)] + [Begin] + [deliver];
    ContinueOn(Start(), [], Complete(c));
    ContinueOn(Start(), [] + [Complete(c)], Begin);
    ContinueOn(Start(), [] + [Complete(c)] + [Begin], deliver);
    hide Continue;
    assert Step(Step(Start(), Complete(c)), Begin).beats[0] == Some(Batch(0, CountOf(c)));
  }
}
