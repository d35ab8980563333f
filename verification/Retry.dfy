// The client's choice of candidate nodes and its submit loop: a few tries on each candidate,
// then on to the next.
module Retry {
  import opened Common

  datatype Node = Node(id: string, endpoint: string)

  // ---- choosing candidates ----

  // The random choices are parameters: `pick` is the index drawn.
  datatype Strategy =
    | Deterministic
    | SoftmaxTopK(topK: int, pick: nat)
    | EpsilonGreedy(explore: bool, pick: nat)

  function Min(a: int, b: int): int {
    if a <= b then a else b
  }

  function Max(a: int, b: int): int {
    if a >= b then a else b
  }

  function Take<T>(s: seq<T>, n: nat): seq<T> {
    if n < |s| then s[..n] else s
  }

  function Without(nodes: seq<Node>, id: string): seq<Node> {
    if nodes == [] then [] else (if nodes[0].id != id then [nodes[0]] else []) + Without(nodes[1..], id)
  }

  // What the random source may draw from.
  predicate Drawable(all: seq<Node>, s: Strategy) {
    match s
    case Deterministic => true
    case SoftmaxTopK(topK, pick) => pick < Max(1, Min(|all|, topK))
    case EpsilonGreedy(explore, pick) => pick < |all|
  }

  function Leading(all: seq<Node>, topN: nat, chosen: Node): seq<Node>
    requires topN >= 1
  {
    [chosen] + Take(Without(Take(all, topN), chosen.id), topN - 1)
  }

  function SelectCandidates(all: seq<Node>, topN: nat, s: Strategy): seq<Node>
    requires topN >= 1 && (all != [] ==> Drawable(all, s))
  {
    if s.Deterministic? || |all| <= 1 then Take(all, topN)
    else if s.SoftmaxTopK? then Leading(all, topN, all[s.pick])
    else if s.explore then Leading(all, topN, all[s.pick])
    else Take(all, topN)
  }

  predicate DistinctIds(nodes: seq<Node>) {
    forall i, j :: 0 <= i < j < |nodes| ==> nodes[i].id != nodes[j].id
  }

  function Carrying(nodes: seq<Node>, id: string): nat {
    if nodes == [] then 0 else (if nodes[0].id == id then 1 else 0) + Carrying(nodes[1..], id)
  }

  lemma {:induction false} WithoutKeeps(nodes: seq<Node>, id: string)
    ensures |Without(nodes, id)| == |nodes| - Carrying(nodes, id)
    ensures forall n :: n in Without(nodes, id) <==> n in nodes && n.id != id
  {
    if nodes != [] {
      WithoutKeeps(nodes[1..], id);
      assert nodes == [nodes[0]] + nodes[1..];
    }
  }

  // Leaving out an id takes that one node out and keeps all others where they are.
  lemma {:induction false} WithoutIs(nodes: seq<Node>, id: string, i: nat)
    requires DistinctIds(nodes) && i <= |nodes|
    requires if i < |nodes| then nodes[i].id == id else forall j :: 0 <= j < |nodes| ==> nodes[j].id != id
    ensures Without(nodes, id) == nodes[..i] + if i < |nodes| then nodes[i + 1..] else []
  {
    if nodes != [] {
      if i == 0 {
        NothingToDrop(nodes[1..], id);
      } else {
        assert nodes[..i] == [nodes[0]] + nodes[1..][..i - 1];
        WithoutIs(nodes[1..], id, i - 1);
      }
    }
  }

  lemma {:induction false} WithoutDistinct(nodes: seq<Node>, id: string)
    requires DistinctIds(nodes)
    ensures DistinctIds(Without(nodes, id))
  {
    if nodes != [] {
      WithoutDistinct(nodes[1..], id);
      WithoutKeeps(nodes[1..], id);
      var rest := Without(nodes[1..], id);
      forall i | 0 <= i < |rest| ensures rest[i].id != nodes[0].id {
        assert rest[i] in nodes[1..];
      }
    }
  }

  lemma {:induction false} CarriedOnce(nodes: seq<Node>, id: string)
    requires DistinctIds(nodes)
    ensures Carrying(nodes, id) <= 1
    ensures Carrying(nodes, id) == 1 <==> exists n :: n in nodes && n.id == id
  {
    if nodes != [] {
      CarriedOnce(nodes[1..], id);
      assert nodes == [nodes[0]] + nodes[1..];
      if nodes[0].id == id {
        forall n | n in nodes[1..] ensures n.id != id {
          var j :| 0 <= j < |nodes[1..]| && nodes[1..][j] == n;
          assert nodes[j + 1] == n;
        }
      }
    }
  }

  lemma {:induction false} CarriedIfThere(nodes: seq<Node>, n: Node)
    requires n in nodes
    ensures Carrying(nodes, n.id) >= 1
  {
    if nodes[0] != n {
      CarriedIfThere(nodes[1..], n);
    }
  }

  // A drawn node leads a full list exactly when no two of the first topN carry its id.
  lemma LeadingIsFull(all: seq<Node>, topN: nat, chosen: Node)
    requires topN >= 1 && chosen in all
    ensures |Leading(all, topN, chosen)| == Min(topN, |all|) <==> Carrying(Take(all, topN), chosen.id) <= 1
    ensures |Leading(all, topN, chosen)| <= Min(topN, |all|)
  {
    var first := Take(all, topN);
    WithoutKeeps(first, chosen.id);
    if |all| <= topN {
      CarriedIfThere(first, chosen);
    }
  }

  // Every strategy returns min(topN, count) of the eligible nodes, all different; behind the
  // node that was drawn the others keep the directory's order.
  lemma SelectionIsFull(all: seq<Node>, topN: nat, s: Strategy)
    requires topN >= 1 && (all != [] ==> Drawable(all, s)) && DistinctIds(all)
    ensures var r := SelectCandidates(all, topN, s);
            && |r| == Min(topN, |all|) && DistinctIds(r)
            && (forall n :: n in r ==> n in all)
            && (r != [] ==> r[1..] <= Without(Take(all, topN), r[0].id))
            && (r != [] ==> r[0] == if s.SoftmaxTopK? || (s.EpsilonGreedy? && s.explore) then all[s.pick] else all[0])
  {
    var first := Take(all, topN);
    var r := SelectCandidates(all, topN, s);
    hide Without, Leading;
    if s.Deterministic? || |all| <= 1 || (s.EpsilonGreedy? && !s.explore) {
      FirstStays(all, topN);
    } else {
      var chosen := all[s.pick];
      LeadingIsFull(all, topN, chosen);
      CarriedOnce(first, chosen.id);
      LeadingIsDistinct(all, topN, chosen);
    }
  }

  lemma FirstStays(all: seq<Node>, topN: nat)
    requires topN >= 1 && DistinctIds(all)
    ensures var r := Take(all, topN);
            DistinctIds(r) && (forall n :: n in r ==> n in all) && (r != [] ==> r[1..] <= Without(r, r[0].id))
  {
    var r := Take(all, topN);
    assert DistinctIds(r);
    if r != [] {
      var id, rest := r[0].id, r[1..];
      forall n | n in rest ensures n.id != id {
        var j :| 0 <= j < |rest| && rest[j] == n;
        assert r[j + 1] == n;
      }
      hide DistinctIds, Take;
      NothingToDrop(rest, id);
      assert Without(r, id) == Without(rest, id);
    }
  }

  lemma ConsDistinct(n: Node, rest: seq<Node>)
    requires DistinctIds(rest) && forall m :: m in rest ==> m.id != n.id
    ensures DistinctIds([n] + rest)
  {
  }

  lemma LeadingIsDistinct(all: seq<Node>, topN: nat, chosen: Node)
    requires topN >= 1 && chosen in all && DistinctIds(all)
    ensures var r := Leading(all, topN, chosen);
            DistinctIds(r) && (forall n :: n in r ==> n in all) && r[1..] <= Without(Take(all, topN), chosen.id)
  {
    var others := Without(Take(all, topN), chosen.id);
    WithoutKeeps(Take(all, topN), chosen.id);
    WithoutDistinct(Take(all, topN), chosen.id);
    hide Without;
    var rest := Take(others, topN - 1);
    assert forall n :: n in rest ==> n in others;
    ConsDistinct(chosen, rest);
    hide DistinctIds;
    assert Leading(all, topN, chosen)[1..] == rest;
  }

  lemma {:induction false} NothingToDrop(nodes: seq<Node>, id: string)
    requires forall n :: n in nodes ==> n.id != id
    ensures Without(nodes, id) == nodes
  {
    if nodes != [] {
      NothingToDrop(nodes[1..], id);
    }
  }

  // ---- the submit loop ----

  datatype Exception = IicpError(code: string, retryable: bool) | OtherException

  datatype Outcome = Answer | Throws(exc: Exception)

  // What the outside does: preparing candidate i, and attempt a on it.
  datatype World = World(prepare: nat -> Option<Exception>, post: (nat, nat) -> Outcome)

  datatype Event = Post(node: Node, attempt: nat) | Sleep(halfSeconds: nat)

  // RaisedNone is the TypeError of raising None.
  datatype Result = Answered(candidate: nat, attempt: nat) | Raised(exc: Exception) | RaisedNone

  // An answer, a hard error or a foreign exception ends the whole run.
  predicate Settles(o: Outcome) {
    o.Answer? || o.exc.OtherException? || !o.exc.retryable
  }

  predicate Unreachable(o: Outcome) {
    !Settles(o) && (o.exc.code == "IICP-E003" || o.exc.code == "IICP-E004")
  }

  predicate Again(o: Outcome) {
    !Settles(o) && !Unreachable(o)
  }

  // The first events of a visit that keeps being told to try again.
  function Steps(node: Node, length: nat): seq<Event> {
    seq(length, j requires 0 <= j < length => if j % 2 == 0 then Post(node, j / 2) else Sleep((j + 1) / 2))
  }

  // A visit of k attempts, with a pause after every attempt but the last.
  function Visit(node: Node, k: nat): seq<Event>
    requires k >= 1
  {
    Steps(node, 2 * k - 1)
  }

  // Attempt a is followed by a pause of a + 1 half-seconds, but for the last.
  lemma VisitIs(node: Node, k: nat, a: nat)
    requires a < k
    ensures |Visit(node, k)| == 2 * k - 1 && Visit(node, k)[2 * a] == Post(node, a)
    ensures a < k - 1 ==> Visit(node, k)[2 * a + 1] == Sleep(a + 1)
  {
  }

  // Candidate i is tried exactly k times.
  predicate Tried(w: World, i: nat, r: nat, k: nat) {
    && 1 <= k <= r
    && (forall a :: 0 <= a < k - 1 ==> Again(w.post(i, a)))
    && (k < r ==> !Again(w.post(i, k - 1)))
  }

  // The loop moves on past candidate i after k attempts.
  predicate Passed(w: World, i: nat, r: nat, k: nat) {
    w.prepare(i).None? && Tried(w, i, r, k) && !Settles(w.post(i, k - 1))
  }

  // The visits to candidates 0, 1, ..., one after the other.
  function Visits(nodes: seq<Node>, tries: seq<nat>): seq<Event>
    requires |tries| <= |nodes| && forall i :: 0 <= i < |tries| ==> tries[i] >= 1
  {
    if tries == [] then []
    else
      var last := |tries| - 1;
      Visits(nodes, tries[..last]) + Visit(nodes[last], tries[last])
  }

  ghost predicate PassedAll(w: World, r: nat, tries: seq<nat>)
    ensures PassedAll(w, r, tries) ==> forall i :: 0 <= i < |tries| ==> tries[i] >= 1
  {
    forall i :: 0 <= i < |tries| ==> Passed(w, i, r, tries[i])
  }

  // The trace specification, for max_retries r >= 1: the first |passed| candidates are passed,
  // each after its own number of attempts, and the run ends at the next one - refused before any
  // attempt, or settled after k attempts - or after the last.
  ghost predicate Run(w: World, nodes: seq<Node>, r: nat, passed: seq<nat>, log: seq<Event>, result: Result) {
    && |passed| <= |nodes| && PassedAll(w, r, passed)
    && if |passed| == |nodes| then Exhausted(w, nodes, passed, log, result)
       else if w.prepare(|passed|).Some? then
         log == Visits(nodes, passed) && result == Raised(w.prepare(|passed|).value)
       else
         exists k :: Settled(w, nodes, r, passed, k, log, result)
  }

  ghost predicate Exhausted(w: World, nodes: seq<Node>, passed: seq<nat>, log: seq<Event>, result: Result)
    requires |passed| == |nodes| && forall i :: 0 <= i < |passed| ==> passed[i] >= 1
  {
    && log == Visits(nodes, passed)
    && (nodes == [] ==> result == RaisedNone)
    && (nodes != [] ==>
          var o := w.post(|nodes| - 1, passed[|nodes| - 1] - 1);
          o.Throws? && result == Raised(o.exc))
  }

  ghost predicate Settled(
    w: World, nodes: seq<Node>, r: nat, passed: seq<nat>, k: nat, log: seq<Event>, result: Result)
    requires |passed| < |nodes| && forall i :: 0 <= i < |passed| ==> passed[i] >= 1
  {
    var i := |passed|;
    && Tried(w, i, r, k) && Settles(w.post(i, k - 1))
    && log == Visits(nodes, passed) + Visit(nodes[i], k)
    && result == if w.post(i, k - 1).Answer? then Answered(i, k - 1) else Raised(w.post(i, k - 1).exc)
  }

  // With no attempts to make, only a refused preparation is raised; otherwise None is.
  ghost predicate NoAttempts(w: World, nodes: seq<Node>, log: seq<Event>, result: Result) {
    && log == []
    && (forall i :: 0 <= i < |nodes| && w.prepare(i).Some? && (forall j :: 0 <= j < i ==> w.prepare(j).None?)
                    ==> result == Raised(w.prepare(i).value))
    && ((forall i :: 0 <= i < |nodes| ==> w.prepare(i).None?) ==> result == RaisedNone)
  }

  lemma StepsGrow(node: Node, n: nat)
    ensures Steps(node, n + 1) == Steps(node, n) + [if n % 2 == 0 then Post(node, n / 2) else Sleep((n + 1) / 2)]
  {
  }

  lemma VisitGrows(node: Node, a: nat)
    ensures Visit(node, a + 1) == Steps(node, 2 * a) + [Post(node, a)]
    ensures Steps(node, 2 * (a + 1)) == Visit(node, a + 1) + [Sleep(a + 1)]
  {
    StepsGrow(node, 2 * a);
    StepsGrow(node, 2 * a + 1);
  }

  // One attempt more, and one pause more, at the end of a log.
  lemma LogGrows(before: seq<Event>, node: Node, a: nat)
    ensures before + Steps(node, 2 * a) + [Post(node, a)] == before + Visit(node, a + 1)
    ensures before + Visit(node, a + 1) + [Sleep(a + 1)] == before + Steps(node, 2 * (a + 1))
  {
    VisitGrows(node, a);
    var s, v := Steps(node, 2 * a), Visit(node, a + 1);
    assert before + s + [Post(node, a)] == before + (s + [Post(node, a)]);
    assert before + v + [Sleep(a + 1)] == before + (v + [Sleep(a + 1)]);
  }

  lemma VisitsGrow(w: World, nodes: seq<Node>, r: nat, passed: seq<nat>, k: nat)
    requires |passed| < |nodes| && PassedAll(w, r, passed) && Passed(w, |passed|, r, k)
    ensures PassedAll(w, r, passed + [k])
    ensures Visits(nodes, passed + [k]) == Visits(nodes, passed) + Visit(nodes[|passed|], k)
  {
    assert (passed + [k])[..|passed|] == passed;
  }

  // The exception left behind by the candidates passed so far.
  ghost function LastExc(w: World, r: nat, passed: seq<nat>): Option<Exception>
    requires PassedAll(w, r, passed)
  {
    if passed == [] then None else Some(w.post(|passed| - 1, passed[|passed| - 1] - 1).exc)
  }

  // After attempts 0, ..., a - 1 the visit goes on.
  ghost predicate Trying(w: World, i: nat, a: nat) {
    forall b :: 0 <= b < a ==> Again(w.post(i, b))
  }

  lemma Begin(w: World, nodes: seq<Node>, r: nat)
    ensures PassedAll(w, r, []) && Visits(nodes, []) == []
    ensures forall node :: Steps(node, 0) == []
  {
  }

  lemma StartTrying(w: World, i: nat, node: Node, log: seq<Event>)
    ensures Trying(w, i, 0) && log + Steps(node, 0) == log
  {
  }

  lemma KeepTrying(w: World, i: nat, a: nat)
    requires Trying(w, i, a) && Again(w.post(i, a))
    ensures Trying(w, i, a + 1)
  {
  }

  lemma MoveOn(w: World, i: nat, r: nat, a: nat)
    requires a < r && w.prepare(i).None? && Trying(w, i, a) && !Settles(w.post(i, a))
    requires Unreachable(w.post(i, a)) || a == r - 1
    ensures Passed(w, i, r, a + 1)
  {
  }

  lemma Settle(w: World, nodes: seq<Node>, r: nat, passed: seq<nat>, a: nat, log: seq<Event>, result: Result)
    requires |passed| < |nodes| && PassedAll(w, r, passed) && a < r
    requires w.prepare(|passed|).None? && Trying(w, |passed|, a) && Settles(w.post(|passed|, a))
    requires log == Visits(nodes, passed) + Visit(nodes[|passed|], a + 1)
    requires var o := w.post(|passed|, a); result == if o.Answer? then Answered(|passed|, a) else Raised(o.exc)
    ensures Run(w, nodes, r, passed, log, result)
  {
    hide Visits, Visit, Settles, Unreachable;
    assert Tried(w, |passed|, r, a + 1);
    hide Tried, Passed, Again, Trying, PassedAll;
    assert Settled(w, nodes, r, passed, a + 1, log, result);
  }

  // The run ends as specified.
  ghost predicate Ends(w: World, nodes: seq<Node>, maxRetries: int, passed: seq<nat>, log: seq<Event>, result: Result) {
    if maxRetries >= 1 then Run(w, nodes, maxRetries, passed, log, result) else NoAttempts(w, nodes, log, result)
  }

  // Where the outer loop stands before candidate i.
  ghost predicate SoFar(
    w: World, nodes: seq<Node>, maxRetries: int, i: nat, passed: seq<nat>, log: seq<Event>, lastExc: Option<Exception>)
  {
    && i <= |nodes|
    && if maxRetries >= 1 then
         PassedAll(w, maxRetries, passed) && |passed| == i && log == Visits(nodes, passed)
         && lastExc == LastExc(w, maxRetries, passed)
       else
         log == [] && lastExc.None? && forall j :: 0 <= j < i ==> w.prepare(j).None?
  }

  lemma Refused(
    w: World, nodes: seq<Node>, maxRetries: int, i: nat, passed: seq<nat>, log: seq<Event>, lastExc: Option<Exception>)
    requires SoFar(w, nodes, maxRetries, i, passed, log, lastExc) && i < |nodes| && w.prepare(i).Some?
    ensures Ends(w, nodes, maxRetries, passed, log, Raised(w.prepare(i).value))
  {
    hide Visits, Passed;
  }

  lemma MovedOn(
    w: World, nodes: seq<Node>, r: nat, i: nat, passed: seq<nat>, log: seq<Event>, lastExc: Option<Exception>, a: nat)
    requires SoFar(w, nodes, r, i, passed, log, lastExc) && i < |nodes| && w.prepare(i).None?
    requires a < r && Trying(w, i, a) && !Settles(w.post(i, a)) && (Unreachable(w.post(i, a)) || a == r - 1)
    ensures SoFar(w, nodes, r, i + 1, passed + [a + 1], log + Visit(nodes[i], a + 1), Some(w.post(i, a).exc))
  {
    MoveOn(w, i, r, a);
    hide Visits, Visit, Tried, Passed, PassedAll, Trying, Settles, Unreachable;
    VisitsGrow(w, nodes, r, passed, a + 1);
  }

  lemma Exhaust(
    w: World, nodes: seq<Node>, maxRetries: int, passed: seq<nat>, log: seq<Event>, lastExc: Option<Exception>)
    requires SoFar(w, nodes, maxRetries, |nodes|, passed, log, lastExc)
    ensures Ends(w, nodes, maxRetries, passed, log, if lastExc.Some? then Raised(lastExc.value) else RaisedNone)
  {
    hide Visits;
  }

  // _submit_async over given candidates.
  method Submit(w: World, nodes: seq<Node>, maxRetries: int)
    returns (log: seq<Event>, result: Result, ghost passed: seq<nat>)
    ensures maxRetries >= 1 ==> Run(w, nodes, maxRetries, passed, log, result)
    ensures maxRetries <= 0 ==> NoAttempts(w, nodes, log, result)
  {
    var lastExc: Option<Exception> := None;
    log, passed := [], [];
    Begin(w, nodes, if maxRetries >= 1 then maxRetries else 0);
    assert SoFar(w, nodes, maxRetries, 0, passed, log, lastExc);
    hide Steps, Visit, Visits, PassedAll, Settled, Run, NoAttempts, Trying;
    var i := 0;
    while i < |nodes|
      invariant 0 <= i <= |nodes| && SoFar(w, nodes, maxRetries, i, passed, log, lastExc)
    {
      var prepared := w.prepare(i);
      if prepared.Some? {
        Refused(w, nodes, maxRetries, i, passed, log, lastExc);
        return log, Raised(prepared.value), passed;
      }
      var nodeConnected := true;
      var attempt := 0;
      ghost var before, lastBefore := log, lastExc;
      StartTrying(w, i, nodes[i], log);
      while attempt < maxRetries
        invariant 0 <= attempt && (maxRetries >= 1 ==> attempt < maxRetries)
        invariant Trying(w, i, attempt) && log == before + Steps(nodes[i], 2 * attempt)
        invariant maxRetries <= 0 ==> attempt == 0 && lastExc == lastBefore
      {
        LogGrows(before, nodes[i], attempt);
        log := log + [Post(nodes[i], attempt)];
        var o := w.post(i, attempt);
        if o.Answer? {
          Settle(w, nodes, maxRetries, passed, attempt, log, Answered(i, attempt));
          return log, Answered(i, attempt), passed;
        }
        if o.exc.OtherException? {
          Settle(w, nodes, maxRetries, passed, attempt, log, Raised(o.exc));
          return log, Raised(o.exc), passed;
        }
        lastExc := Some(o.exc);
        if !o.exc.retryable {
          Settle(w, nodes, maxRetries, passed, attempt, log, Raised(o.exc));
          return log, Raised(o.exc), passed;
        }
        if o.exc.code == "IICP-E003" || o.exc.code == "IICP-E004" {
          nodeConnected := false;
          break;
        }
        if attempt < maxRetries - 1 {
          log := log + [Sleep(attempt + 1)];
          KeepTrying(w, i, attempt);
        } else {
          break;
        }
        attempt := attempt + 1;
      }
      if maxRetries >= 1 {
        MovedOn(w, nodes, maxRetries, i, passed, before, lastBefore, attempt);
        passed := passed + [attempt + 1];
      }
      i := i + 1;
      if !nodeConnected {
        continue;
      }
    }
    Exhaust(w, nodes, maxRetries, passed, log, lastExc);
    result := if lastExc.Some? then Raised(lastExc.value) else RaisedNone;
  }

  // None is raised, a TypeError, exactly when there was no candidate, or no attempt to make and
  // nothing against any candidate.
  lemma NoneIsRaisedIff(
    w: World, nodes: seq<Node>, maxRetries: int, passed: seq<nat>, log: seq<Event>, result: Result)
    ensures Ends(w, nodes, maxRetries, passed, log, result) ==>
              (result == RaisedNone <==>
               nodes == [] || (maxRetries <= 0 && forall i :: 0 <= i < |nodes| ==> w.prepare(i).None?))
  {
    hide Visits, Visit;
    if maxRetries <= 0 && exists i :: 0 <= i < |nodes| && w.prepare(i).Some? {
      var i :| 0 <= i < |nodes| && w.prepare(i).Some?;
      var first := FirstRefused(w, i);
    }
  }

  lemma FirstRefused(w: World, i: nat) returns (first: nat)
    requires w.prepare(i).Some?
    ensures first <= i && w.prepare(first).Some? && forall j :: 0 <= j < first ==> w.prepare(j).None?
  {
    first := i;
    if j :| 0 <= j < i && w.prepare(j).Some? {
      first := FirstRefused(w, j);
    }
  }

  // ---- what every run keeps ----

  lemma TriedOnce(w: World, i: nat, r: nat, k: nat, l: nat)
    requires Tried(w, i, r, k) && Tried(w, i, r, l)
    ensures k == l
  {
  }

  lemma {:induction false} PassedAgree(w: World, r: nat, p: seq<nat>, q: seq<nat>)
    requires PassedAll(w, r, p) && PassedAll(w, r, q) && |p| <= |q|
    ensures p <= q
  {
    forall i | 0 <= i < |p| ensures p[i] == q[i] {
      TriedOnce(w, i, r, p[i], q[i]);
    }
  }

  lemma RunEndsThere(w: World, nodes: seq<Node>, r: nat, p: seq<nat>, log: seq<Event>, result: Result, q: seq<nat>)
    requires Run(w, nodes, r, p, log, result) && PassedAll(w, r, q) && |q| <= |nodes|
    ensures |q| <= |p|
  {
    hide Visits, Visit, Settles, Again, Tried;
    var i := |p|;
    if i < |q| {
      assert Passed(w, i, r, q[i]);
      var k :| Settled(w, nodes, r, p, k, log, result);
      TriedOnce(w, i, r, k, q[i]);
    }
  }

  // The outside decides the whole run: log and result.
  lemma RunIsDetermined(
    w: World, nodes: seq<Node>, r: nat,
    p: seq<nat>, log: seq<Event>, result: Result, q: seq<nat>, log': seq<Event>, result': Result)
    requires Run(w, nodes, r, p, log, result) && Run(w, nodes, r, q, log', result')
    ensures p == q && log == log' && result == result'
  {
    RunEndsThere(w, nodes, r, p, log, result, q);
    RunEndsThere(w, nodes, r, q, log', result', p);
    PassedAgree(w, r, p, q);
    hide Visits, Visit, Settles, Tried;
    if |p| < |nodes| && w.prepare(|p|).None? {
      var k :| Settled(w, nodes, r, p, k, log, result);
      var l :| Settled(w, nodes, r, q, l, log', result');
      TriedOnce(w, |p|, r, k, l);
    }
  }

  // An answer that comes within the attempts of a candidate is returned when every candidate
  // before it is ready and only throws retryable errors.
  lemma AnswerIsReached(
    w: World, nodes: seq<Node>, r: nat, passed: seq<nat>, log: seq<Event>, result: Result, i: nat, a: nat)
    requires Run(w, nodes, r, passed, log, result) && i < |nodes| && a < r
    requires forall j :: 0 <= j <= i ==> w.prepare(j).None?
    requires forall j, b :: 0 <= j < i && 0 <= b < r ==> !Settles(w.post(j, b))
    requires Trying(w, i, a) && w.post(i, a).Answer?
    ensures result == Answered(i, a)
    ensures log != [] && log[|log| - 1] == Post(nodes[i], a)
  {
    hide Visits;
    assert Tried(w, i, r, a + 1);
    if |passed| > i {
      TriedOnce(w, i, r, a + 1, passed[i]);
    } else {
      var k :| Settled(w, nodes, r, passed, k, log, result);
      if |passed| == i {
        TriedOnce(w, i, r, a + 1, k);
      }
    }
  }

  // What lets a run go on, attempt by attempt. A candidate that was passed only ever threw
  // retryable errors; all but the last of them were no E003 or E004, and the last one was unless
  // the attempts were used up. A run ends at an answer, or at an error that is not retryable,
  // with the request that got it as its last event.
  lemma GoesOnOnlyAfter(w: World, nodes: seq<Node>, r: nat, passed: seq<nat>, log: seq<Event>, result: Result)
    requires Run(w, nodes, r, passed, log, result)
    ensures forall i, a :: 0 <= i < |passed| && 0 <= a < passed[i] ==>
              w.post(i, a).Throws? && w.post(i, a).exc.IicpError? && w.post(i, a).exc.retryable
    ensures forall i, a :: 0 <= i < |passed| && 0 <= a < passed[i] - 1 ==>
              w.post(i, a).exc.code != "IICP-E003" && w.post(i, a).exc.code != "IICP-E004"
    ensures forall i :: 0 <= i < |passed| && passed[i] < r ==>
              w.post(i, passed[i] - 1).exc.code == "IICP-E003" || w.post(i, passed[i] - 1).exc.code == "IICP-E004"
    ensures |passed| < |nodes| && w.prepare(|passed|).None? ==>
              exists a ::
                && 0 <= a < r && log != [] && log[|log| - 1] == Post(nodes[|passed|], a)
                && (forall b :: 0 <= b < a ==>
                      w.post(|passed|, b).Throws? && w.post(|passed|, b).exc.IicpError?
                      && w.post(|passed|, b).exc.retryable)
                && if w.post(|passed|, a).Answer? then result == Answered(|passed|, a)
                   else result == Raised(w.post(|passed|, a).exc)
                        && !(w.post(|passed|, a).exc.IicpError? && w.post(|passed|, a).exc.retryable)
  {
    PassedThrow(w, r, passed);
    hide Visits;
    if |passed| < |nodes| && w.prepare(|passed|).None? {
      var k: nat :| Settled(w, nodes, r, passed, k, log, result);
      assert k >= 1 && log[|log| - 1] == Post(nodes[|passed|], k - 1);
    }
  }

  lemma PassedThrow(w: World, r: nat, passed: seq<nat>)
    requires PassedAll(w, r, passed)
    ensures forall i, a :: 0 <= i < |passed| && 0 <= a < passed[i] ==>
              w.post(i, a).Throws? && w.post(i, a).exc.IicpError? && w.post(i, a).exc.retryable
    ensures forall i, a :: 0 <= i < |passed| && 0 <= a < passed[i] - 1 ==>
              w.post(i, a).exc.code != "IICP-E003" && w.post(i, a).exc.code != "IICP-E004"
    ensures forall i :: 0 <= i < |passed| && passed[i] < r ==>
              w.post(i, passed[i] - 1).exc.code == "IICP-E003" || w.post(i, passed[i] - 1).exc.code == "IICP-E004"
  {
    forall i, a | 0 <= i < |passed| && 0 <= a < passed[i]
      ensures w.post(i, a).Throws? && w.post(i, a).exc.IicpError? && w.post(i, a).exc.retryable
    {
      assert Passed(w, i, r, passed[i]);
      if a < passed[i] - 1 {
        assert Again(w.post(i, a));
      }
    }
    forall i, a | 0 <= i < |passed| && 0 <= a < passed[i] - 1
      ensures w.post(i, a).exc.code != "IICP-E003" && w.post(i, a).exc.code != "IICP-E004"
    {
      assert Passed(w, i, r, passed[i]) && Again(w.post(i, a));
    }
    forall i | 0 <= i < |passed| && passed[i] < r
      ensures w.post(i, passed[i] - 1).exc.code == "IICP-E003" || w.post(i, passed[i] - 1).exc.code == "IICP-E004"
    {
      assert Passed(w, i, r, passed[i]);
    }
  }

  // ---- cost ----

  function Posts(log: seq<Event>): nat {
    if log == [] then 0 else Posts(log[..|log| - 1]) + if log[|log| - 1].Post? then 1 else 0
  }

  function Slept(log: seq<Event>): nat {
    if log == [] then 0 else Slept(log[..|log| - 1]) + if log[|log| - 1].Sleep? then log[|log| - 1].halfSeconds else 0
  }

  lemma {:induction false} CostsAdd(a: seq<Event>, b: seq<Event>)
    ensures Posts(a + b) == Posts(a) + Posts(b) && Slept(a + b) == Slept(a) + Slept(b)
  {
    if b == [] {
      assert a + b == a;
    } else {
      var n := |b| - 1;
      assert (a + b)[..|a + b| - 1] == a + b[..n];
      CostsAdd(a, b[..n]);
    }
  }

  lemma PairCost(node: Node, k: nat)
    requires k >= 1
    ensures var last := [Sleep(k - 1), Post(node, k - 1)]; Posts(last) == 1 && Slept(last) == k - 1
  {
    OneCost(Sleep(k - 1));
    OneCost(Post(node, k - 1));
    CostsAdd([Sleep(k - 1)], [Post(node, k - 1)]);
    assert [Sleep(k - 1)] + [Post(node, k - 1)] == [Sleep(k - 1), Post(node, k - 1)];
    hide Posts, Slept;
  }

  lemma OneCost(e: Event)
    ensures Posts([e]) == (if e.Post? then 1 else 0) && Slept([e]) == if e.Sleep? then e.halfSeconds else 0
  {
    assert [e][..0] == [];
  }

  lemma {:induction false} VisitCost(node: Node, k: nat)
    requires k >= 1
    ensures Posts(Visit(node, k)) == k && 2 * Slept(Visit(node, k)) == k * (k - 1)
  {
    if k == 1 {
      assert Visit(node, 1) == [Post(node, 0)];
      OneCost(Post(node, 0));
    } else {
      VisitCost(node, k - 1);
      var last := [Sleep(k - 1), Post(node, k - 1)];
      StepsGrow(node, 2 * k - 3);
      StepsGrow(node, 2 * k - 2);
      assert Visit(node, k) == Visit(node, k - 1) + last;
      CostsAdd(Visit(node, k - 1), last);
      PairCost(node, k);
      hide Posts, Slept, Visit;
      assert k * (k - 1) == (k - 1) * (k - 2) + 2 * (k - 1);
    }
  }

  lemma Product(k: nat, r: nat)
    requires 1 <= k <= r
    ensures k * (k - 1) <= r * (r - 1)
  {
  }

  // One candidate costs at most r posts and r(r-1)/4 seconds of sleep: r(r-1)/2 half-seconds.
  lemma VisitBound(node: Node, k: nat, r: nat)
    requires 1 <= k <= r
    ensures Posts(Visit(node, k)) <= r && 2 * Slept(Visit(node, k)) <= r * (r - 1)
  {
    VisitCost(node, k);
    Product(k, r);
  }

  lemma {:induction false} VisitsBound(nodes: seq<Node>, tries: seq<nat>, r: nat)
    requires |tries| <= |nodes| && forall i :: 0 <= i < |tries| ==> 1 <= tries[i] <= r
    ensures Posts(Visits(nodes, tries)) <= |tries| * r
    ensures 2 * Slept(Visits(nodes, tries)) <= |tries| * (r * (r - 1))
  {
    if tries != [] {
      var last := |tries| - 1;
      VisitsBound(nodes, tries[..last], r);
      VisitBound(nodes[last], tries[last], r);
      CostsAdd(Visits(nodes, tries[..last]), Visit(nodes[last], tries[last]));
      hide Visit, Posts, Slept;
      Distribute(last, r);
      Distribute(last, r * (r - 1));
    }
  }

  lemma {:induction false} VisitsExact(nodes: seq<Node>, tries: seq<nat>, r: nat)
    requires r >= 1 && |tries| <= |nodes| && forall i :: 0 <= i < |tries| ==> tries[i] == r
    ensures Posts(Visits(nodes, tries)) == |tries| * r
    ensures 2 * Slept(Visits(nodes, tries)) == |tries| * (r * (r - 1))
  {
    if tries != [] {
      var last := |tries| - 1;
      VisitsExact(nodes, tries[..last], r);
      VisitCost(nodes[last], r);
      CostsAdd(Visits(nodes, tries[..last]), Visit(nodes[last], r));
      hide Visit, Posts, Slept;
      Distribute(last, r);
      Distribute(last, r * (r - 1));
    }
  }

  lemma Distribute(n: nat, x: int)
    ensures (n + 1) * x == n * x + x
  {
  }

  lemma RunBound(w: World, nodes: seq<Node>, r: nat, passed: seq<nat>, log: seq<Event>, result: Result)
    requires r >= 1 && Run(w, nodes, r, passed, log, result)
    ensures Posts(log) <= |nodes| * r && 2 * Slept(log) <= |nodes| * (r * (r - 1))
  {
    hide Visits, Visit, Settles, Posts, Slept;
    VisitsBound(nodes, passed, r);
    var n := |passed|;
    if n < |nodes| {
      if w.prepare(n).None? {
        var k :| Settled(w, nodes, r, passed, k, log, result);
        VisitBound(nodes[n], k, r);
        CostsAdd(Visits(nodes, passed), Visit(nodes[n], k));
      }
      hide *;
      OneMore(n, |nodes|, r);
      OneMore(n, |nodes|, r * (r - 1));
    }
  }

  lemma OneMore(m: nat, n: nat, x: nat)
    requires m < n
    ensures m * x + x <= n * x
  {
    Distribute(m, x);
    More(m + 1, n, x);
  }

  lemma More(m: nat, n: nat, x: nat)
    requires m <= n
    ensures m * x <= n * x
  {
  }

  // Against nodes that always throw some other retryable error the bounds are reached.
  lemma BoundIsReached(w: World, nodes: seq<Node>, r: nat, passed: seq<nat>, log: seq<Event>, result: Result)
    requires r >= 1 && Run(w, nodes, r, passed, log, result)
    requires forall i: nat :: w.prepare(i).None?
    requires forall i: nat, a: nat :: Again(w.post(i, a))
    ensures Posts(log) == |nodes| * r && 2 * Slept(log) == |nodes| * (r * (r - 1))
    ensures nodes != [] ==> var o := w.post(|nodes| - 1, r - 1); o.Throws? && result == Raised(o.exc)
  {
    hide Visits, Visit, Posts, Slept;
    forall i | 0 <= i < |passed| ensures passed[i] == r {
      assert Again(w.post(i, passed[i] - 1));
    }
    VisitsExact(nodes, passed, r);
  }

  // The whole call: candidates are chosen, then tried. At most r * r requests are posted.
  lemma SubmitBound(
    w: World, all: seq<Node>, s: Strategy, r: nat, passed: seq<nat>, log: seq<Event>, result: Result)
    requires r >= 1 && (all != [] ==> Drawable(all, s))
    requires Run(w, SelectCandidates(all, r, s), r, passed, log, result)
    ensures Posts(log) <= r * r && 2 * Slept(log) <= r * (r * (r - 1))
  {
    var nodes := SelectCandidates(all, r, s);
    assert |nodes| <= r;
    RunBound(w, nodes, r, passed, log, result);
    More(|nodes|, r, r);
    More(|nodes|, r, r * (r - 1));
  }
}
