// Admission of tasks across threads: the semaphore, the active-jobs counter, the reduced
// capacity window and the handlers on the event loop, interleaved at every lock, semaphore
// and handler operation.
module Slots {

  // Where a request thread stands. `Passed` is through the window check; `Acquired` holds a
  // permit but is not counted yet; `Admitted` is counted and has not handed its handler to the
  // event loop; `Waiting` waits for the handler; `Leaving` has stopped waiting; `Released` has
  // given its permit back but is still counted.
  datatype Place = Outside | Passed | Acquired | Admitted | Waiting | Leaving | Released

  // `stray` handlers still run on the event loop after their thread stopped waiting for them;
  // `direct` ones run for native and relayed calls, which take no permit.
  datatype Sys = Sys(max: nat, permits: nat, active: int, at: seq<Place>, stray: nat, direct: nat)

  datatype Act =
    | Check(t: nat, window: int)  // the window's cap at that moment
    | Acquire(t: nat)             // succeeds if a permit is free
    | Refuse(t: nat)              // a failed or timed-out acquire, answered 429
    | Increment(t: nat)
    | Submit(t: nat)              // the handler starts on the event loop
    | Finish(t: nat)              // the handler ends while its thread waits
    | TimeOut(t: nat)             // the 60 seconds are over; nothing cancels the handler
    | StrayEnds
    | StartDirect                 // a native or relayed call runs its handler
    | DirectEnds
    | Release(t: nat)             // whatever way out of the task was taken
    | Decrement(t: nat)

  predicate IsAt(s: Sys, t: nat, p: Place) {
    t < |s.at| && s.at[t] == p
  }

  function Move(s: Sys, t: nat, p: Place): Sys
    requires t < |s.at|
  {
    s.(at := s.at[t := p])
  }

  function Step(s: Sys, a: Act): Sys {
    match a
    case Check(t, window) => if IsAt(s, t, Outside) && s.active < window then Move(s, t, Passed) else s
    case Acquire(t) =>
      if IsAt(s, t, Passed) && s.permits > 0 then Move(s, t, Acquired).(permits := s.permits - 1) else s
    case Refuse(t) => if IsAt(s, t, Passed) then Move(s, t, Outside) else s
    case Increment(t) => if IsAt(s, t, Acquired) then Move(s, t, Admitted).(active := s.active + 1) else s
    case Submit(t) => if IsAt(s, t, Admitted) then Move(s, t, Waiting) else s
    case Finish(t) => if IsAt(s, t, Waiting) then Move(s, t, Leaving) else s
    case TimeOut(t) => if IsAt(s, t, Waiting) then Move(s, t, Leaving).(stray := s.stray + 1) else s
    case StrayEnds => if s.stray > 0 then s.(stray := s.stray - 1) else s
    case StartDirect => s.(direct := s.direct + 1)
    case DirectEnds => if s.direct > 0 then s.(direct := s.direct - 1) else s
    case Release(t) =>
      if IsAt(s, t, Admitted) || IsAt(s, t, Leaving) then Move(s, t, Released).(permits := s.permits + 1) else s
    case Decrement(t) => if IsAt(s, t, Released) then Move(s, t, Outside).(active := s.active - 1) else s
  }

  function Run(s: Sys, acts: seq<Act>): Sys {
    if acts == [] then s else Step(Run(s, acts[..|acts| - 1]), acts[|acts| - 1])
  }

  function AllAt(threads: nat, p: Place): seq<Place> {
    seq(threads, _ => p)
  }

  function Idle(max: nat, threads: nat): Sys {
    Sys(max, max, 0, AllAt(threads, Outside), 0, 0)
  }

  function CountIn(at: seq<Place>, p: Place): (n: nat)
    ensures n <= |at|
  {
    if at == [] then 0 else CountIn(at[..|at| - 1], p) + if at[|at| - 1] == p then 1 else 0
  }

  function Count(s: Sys, p: Place): nat {
    CountIn(s.at, p)
  }

  // The tasks between increment and release.
  function Tasks(s: Sys): nat {
    Count(s, Admitted) + Count(s, Waiting) + Count(s, Leaving)
  }

  // The handlers that run on the event loop: awaited by a thread, left behind by one, or started
  // by another transport.
  function Handlers(s: Sys): nat {
    Count(s, Waiting) + s.stray + s.direct
  }

  // ---- permits, tasks and the counter ----

  // Free permits and their holders make up the cap; the counter counts the threads between
  // increment and decrement.
  ghost predicate Accounted(s: Sys) {
    && s.permits + Count(s, Acquired) + Tasks(s) == s.max
    && s.active == Tasks(s) + Count(s, Released)
  }

  lemma {:induction false} Moved(at: seq<Place>, t: nat, q: Place, p: Place)
    requires t < |at|
    ensures CountIn(at[t := q], p) + (if at[t] == p then 1 else 0) == CountIn(at, p) + if q == p then 1 else 0
  {
    var moved := at[t := q];
    var front := at[..|at| - 1];
    if t == |at| - 1 {
      assert moved[..|at| - 1] == front;
    } else {
      assert moved[..|at| - 1] == front[t := q];
      Moved(front, t, q, p);
    }
  }

  lemma MovedAll(at: seq<Place>, t: nat, q: Place)
    requires t < |at|
    ensures forall p ::
              CountIn(at[t := q], p) + (if at[t] == p then 1 else 0) == CountIn(at, p) + if q == p then 1 else 0
  {
    forall p
      ensures CountIn(at[t := q], p) + (if at[t] == p then 1 else 0) == CountIn(at, p) + if q == p then 1 else 0
    {
      Moved(at, t, q, p);
    }
  }

  lemma StepAccounts(s: Sys, a: Act)
    requires Accounted(s)
    ensures Accounted(Step(s, a)) && Step(s, a).max == s.max && |Step(s, a).at| == |s.at|
  {
    hide CountIn;
    if !a.StrayEnds? && !a.StartDirect? && !a.DirectEnds? && a.t < |s.at| {
      MovedAll(s.at, a.t, Step(s, a).at[a.t]);
    }
  }

  lemma {:induction false} RunAccounts(s: Sys, acts: seq<Act>)
    requires Accounted(s)
    ensures Accounted(Run(s, acts)) && Run(s, acts).max == s.max && |Run(s, acts).at| == |s.at|
  {
    hide Accounted, Step;
    if acts != [] {
      RunAccounts(s, acts[..|acts| - 1]);
      StepAccounts(Run(s, acts[..|acts| - 1]), acts[|acts| - 1]);
    }
  }

  lemma {:induction false} NoneElsewhere(at: seq<Place>, p: Place)
    requires p != Outside && forall t :: 0 <= t < |at| ==> at[t] == Outside
    ensures CountIn(at, p) == 0
  {
    if at != [] {
      NoneElsewhere(at[..|at| - 1], p);
    }
  }

  lemma AllOutside(s: Sys)
    requires forall t :: 0 <= t < |s.at| ==> s.at[t] == Outside
    ensures Tasks(s) == 0 && Count(s, Acquired) == 0 && Count(s, Released) == 0
  {
    NoneElsewhere(s.at, Acquired);
    NoneElsewhere(s.at, Admitted);
    NoneElsewhere(s.at, Waiting);
    NoneElsewhere(s.at, Leaving);
    NoneElsewhere(s.at, Released);
  }

  // From an idle node, over every interleaving of any number of threads: permits and holders
  // always add up, the tasks between increment and release never exceed the cap, the counter
  // exceeds it at most by the threads between release and decrement, and once all threads are
  // out permits and counter are restored. Handlers are another matter.
  lemma SlotsAreAccounted(max: nat, threads: nat, acts: seq<Act>)
    ensures var s := Run(Idle(max, threads), acts);
            && s.permits + Count(s, Acquired) + Tasks(s) == max
            && s.active == Tasks(s) + Count(s, Released)
            && Tasks(s) <= max
            && 0 <= s.active <= max + Count(s, Released)
            && ((forall t :: 0 <= t < |s.at| ==> s.at[t] == Outside) ==> s.permits == max && s.active == 0)
  {
    AllOutside(Idle(max, threads));
    RunAccounts(Idle(max, threads), acts);
    var s := Run(Idle(max, threads), acts);
    if forall t :: 0 <= t < |s.at| ==> s.at[t] == Outside {
      AllOutside(s);
    }
  }

  // ---- every thread can get out ----

  // The steps that take a thread home from where it stands.
  function WayOut(t: nat, p: Place): seq<Act> {
    match p
    case Outside => []
    case Passed => [Refuse(t)]
    case Acquired => [Increment(t), Release(t), Decrement(t)]
    case Admitted => [Release(t), Decrement(t)]
    case Waiting => [Finish(t), Release(t), Decrement(t)]
    case Leaving => [Release(t), Decrement(t)]
    case Released => [Decrement(t)]
  }

  lemma RunSteps(s: Sys, a: Act, b: Act, c: Act)
    ensures Run(s, []) == s && Run(s, [a]) == Step(s, a) && Run(s, [a, b]) == Step(Step(s, a), b)
    ensures Run(s, [a, b, c]) == Step(Step(Step(s, a), b), c)
  {
    assert [a][..0] == [] && [a, b][..1] == [a] && [a, b, c][..2] == [a, b];
  }

  lemma ThreadLeaves(s: Sys, t: nat)
    requires t < |s.at|
    ensures Run(s, WayOut(t, s.at[t])).at == s.at[t := Outside]
  {
    RunSteps(s, Refuse(t), Refuse(t), Refuse(t));
    RunSteps(s, Decrement(t), Decrement(t), Decrement(t));
    RunSteps(s, Release(t), Decrement(t), Decrement(t));
    RunSteps(s, Increment(t), Release(t), Decrement(t));
    RunSteps(s, Finish(t), Release(t), Decrement(t));
    hide Run;
    assert s.at[t] == Outside ==> s.at[t := Outside] == s.at;
  }

  // From every state some continuation leads all threads out.
  lemma {:induction false} AllLeave(s: Sys, n: nat) returns (acts: seq<Act>)
    requires n <= |s.at| && forall t :: n <= t < |s.at| ==> s.at[t] == Outside
    ensures Run(s, acts).at == AllAt(|s.at|, Outside)
    decreases n
  {
    if n == 0 {
      acts := [];
      assert s.at == AllAt(|s.at|, Outside);
    } else {
      var t := n - 1;
      ThreadLeaves(s, t);
      var first := WayOut(t, s.at[t]);
      hide Run, WayOut;
      var rest := AllLeave(Run(s, first), t);
      RunAppend(s, first, rest);
      acts := first + rest;
    }
  }

  // So no permit is ever lost: from every reachable state, some continuation gives all of them
  // back and takes the counter to zero.
  lemma NoPermitIsLost(max: nat, threads: nat, acts: seq<Act>) returns (more: seq<Act>)
    ensures var s := Run(Idle(max, threads), acts + more);
            s.permits == max && s.active == 0 && s.at == AllAt(threads, Outside)
  {
    AllOutside(Idle(max, threads));
    RunAccounts(Idle(max, threads), acts);
    var s := Run(Idle(max, threads), acts);
    more := AllLeave(s, |s.at|);
    RunAppend(Idle(max, threads), acts, more);
    SlotsAreAccounted(max, threads, acts + more);
  }

  // ---- how many can run at once ----

  function Min(a: nat, b: nat): nat {
    if a <= b then a else b
  }

  function TimeOuts(acts: seq<Act>): nat {
    if acts == [] then 0 else TimeOuts(acts[..|acts| - 1]) + if acts[|acts| - 1].TimeOut? then 1 else 0
  }

  function DirectStarts(acts: seq<Act>): nat {
    if acts == [] then 0 else DirectStarts(acts[..|acts| - 1]) + if acts[|acts| - 1].StartDirect? then 1 else 0
  }

  // Every check is made against a window of at most `w`, at most `late` handlers outlive the
  // wait for them, and at most `direct` calls come in by another transport.
  ghost predicate Within(acts: seq<Act>, w: nat, late: nat, direct: nat) {
    && (forall k :: 0 <= k < |acts| && acts[k].Check? ==> acts[k].window <= w)
    && TimeOuts(acts) <= late && DirectStarts(acts) <= direct
  }

  // The tasks that can be between increment and release at once.
  function MostTasks(max: nat, threads: nat, w: nat): nat {
    if w == 0 then 0 else Min(max, threads)
  }

  // The handlers that can run at once.
  function MostHandlers(max: nat, threads: nat, w: nat, late: nat, direct: nat): nat {
    direct + if MostTasks(max, threads, w) == 0 then 0 else MostTasks(max, threads, w) + late
  }

  // With a closed window nobody comes in; without tasks no handler is left behind.
  ghost predicate Bounded(s: Sys, w: nat, late: nat, direct: nat) {
    && Accounted(s)
    && (w == 0 ==> s.at == AllAt(|s.at|, Outside) && s.active == 0)
    && s.stray <= late && s.direct <= direct
    && (s.stray > 0 ==> MostTasks(s.max, |s.at|, w) > 0)
  }

  lemma {:induction false} Occupied(at: seq<Place>, t: nat)
    requires t < |at|
    ensures CountIn(at, at[t]) > 0
  {
    if t < |at| - 1 {
      Occupied(at[..|at| - 1], t);
    }
  }

  lemma {:induction false} TogetherFit(at: seq<Place>)
    ensures CountIn(at, Admitted) + CountIn(at, Waiting) + CountIn(at, Leaving) <= |at|
  {
    if at != [] {
      TogetherFit(at[..|at| - 1]);
    }
  }

  lemma StepBounded(s: Sys, a: Act, w: nat, late: nat, direct: nat)
    requires Bounded(s, w, late, direct) && (a.Check? ==> a.window <= w)
    ensures Bounded(Step(s, a), w, if a.TimeOut? then late + 1 else late, if a.StartDirect? then direct + 1 else direct)
  {
    StepAccounts(s, a);
    if a.TimeOut? && IsAt(s, a.t, Waiting) {
      Occupied(s.at, a.t);
    }
  }

  lemma {:induction false} RunBounded(s: Sys, acts: seq<Act>, w: nat, late: nat, direct: nat)
    requires Bounded(s, w, 0, 0) && Within(acts, w, late, direct)
    ensures Bounded(Run(s, acts), w, TimeOuts(acts), DirectStarts(acts))
    ensures Run(s, acts).max == s.max && |Run(s, acts).at| == |s.at|
  {
    if acts != [] {
      var front, last := acts[..|acts| - 1], acts[|acts| - 1];
      assert last == acts[|acts| - 1];
      RunBounded(s, front, w, late, direct);
      StepBounded(Run(s, front), last, w, TimeOuts(front), DirectStarts(front));
      RunAccounts(s, acts);
    }
  }

  lemma AtMost(max: nat, threads: nat, acts: seq<Act>, w: nat, late: nat, direct: nat)
    requires Within(acts, w, late, direct)
    ensures var s := Run(Idle(max, threads), acts);
            Tasks(s) <= MostTasks(max, threads, w) && Handlers(s) <= MostHandlers(max, threads, w, late, direct)
  {
    AllOutside(Idle(max, threads));
    RunBounded(Idle(max, threads), acts, w, late, direct);
    var s := Run(Idle(max, threads), acts);
    TogetherFit(s.at);
    if w == 0 {
      AllOutside(s);
    }
  }

  // ---- and do ----

  lemma {:induction false} RunAppend(s: Sys, a: seq<Act>, b: seq<Act>)
    ensures Run(s, a + b) == Run(Run(s, a), b)
    ensures TimeOuts(a + b) == TimeOuts(a) + TimeOuts(b) && DirectStarts(a + b) == DirectStarts(a) + DirectStarts(b)
  {
    if b == [] {
      assert a + b == a;
    } else {
      RunAppend(s, a, b[..|b| - 1]);
      assert (a + b)[..|a + b| - 1] == a + b[..|b| - 1];
    }
  }

  // One task whose handler outlives the wait, by thread 0.
  function Overdue(): seq<Act> {
    [Check(0, 1), Acquire(0), Increment(0), Submit(0), TimeOut(0), Release(0), Decrement(0)]
  }

  function OverdueTimes(n: nat): seq<Act> {
    if n == 0 then [] else OverdueTimes(n - 1) + Overdue()
  }

  // Checking and counting are separate steps, so any number of threads can pass a window of
  // one before the first of them is counted.
  function Stampede(n: nat): seq<Act> {
    if n == 0 then [] else Stampede(n - 1) + [Check(n - 1, 1)]
  }

  function Rush(n: nat): seq<Act> {
    if n == 0 then [] else Rush(n - 1) + [Acquire(n - 1), Increment(n - 1), Submit(n - 1)]
  }

  lemma RunOne(s: Sys, a: Act)
    ensures Run(s, [a]) == Step(s, a)
    ensures TimeOuts([a]) == (if a.TimeOut? then 1 else 0) && DirectStarts([a]) == if a.StartDirect? then 1 else 0
  {
    assert [a][..0] == [];
  }

  lemma {:induction false} NoTimeOuts(acts: seq<Act>)
    requires forall a :: a in acts ==> !a.TimeOut?
    ensures TimeOuts(acts) == 0
  {
    if acts != [] {
      NoTimeOuts(acts[..|acts| - 1]);
      assert acts[|acts| - 1] in acts;
    }
  }

  lemma {:induction false} NoDirectStarts(acts: seq<Act>)
    requires forall a :: a in acts ==> !a.StartDirect?
    ensures DirectStarts(acts) == 0
  {
    if acts != [] {
      NoDirectStarts(acts[..|acts| - 1]);
      assert acts[|acts| - 1] in acts;
    }
  }

  // Calls of another transport, one after the other.
  function Direct(n: nat): seq<Act> {
    if n == 0 then [] else Direct(n - 1) + [StartDirect]
  }

  lemma {:induction false} DirectRuns(s: Sys, n: nat)
    ensures Run(s, Direct(n)) == s.(direct := s.direct + n)
    ensures TimeOuts(Direct(n)) == 0 && DirectStarts(Direct(n)) == n
    ensures forall a :: a in Direct(n) ==> !a.Check?
  {
    if n > 0 {
      DirectRuns(s, n - 1);
      RunAppend(s, Direct(n - 1), [StartDirect]);
      RunOne(Run(s, Direct(n - 1)), StartDirect);
    }
  }

  lemma RunThree(s: Sys, a: Act, b: Act, c: Act)
    ensures Run(s, [a, b, c]) == Step(Step(Step(s, a), b), c)
  {
    assert [a, b, c] == [a] + ([b] + [c]) && [b, c] == [b] + [c];
    RunAppend(s, [a], [b] + [c]);
    RunAppend(Step(s, a), [b], [c]);
    RunOne(s, a);
    RunOne(Step(s, a), b);
    RunOne(Step(Step(s, a), b), c);
  }

  lemma OneOverdue(max: nat, threads: nat, n: nat)
    requires max > 0 && threads > 0
    ensures Run(Idle(max, threads).(stray := n), Overdue()) == Idle(max, threads).(stray := n + 1)
  {
    var s := Idle(max, threads).(stray := n);
    var first, second := [Check(0, 1), Acquire(0), Increment(0)], [Submit(0), TimeOut(0), Release(0)];
    assert Overdue() == first + (second + [Decrement(0)]);
    RunAppend(s, first, second + [Decrement(0)]);
    RunThree(s, Check(0, 1), Acquire(0), Increment(0));
    var u := Run(s, first);
    RunAppend(u, second, [Decrement(0)]);
    RunThree(u, Submit(0), TimeOut(0), Release(0));
    RunOne(Run(u, second), Decrement(0));
    hide Run, TimeOuts;
    OverdueSteps(max, threads, n);
  }

  lemma OverdueSteps(max: nat, threads: nat, n: nat)
    requires max > 0 && threads > 0
    ensures var s := Idle(max, threads).(stray := n);
            var u := Step(Step(Step(s, Check(0, 1)), Acquire(0)), Increment(0));
            Step(Step(Step(Step(u, Submit(0)), TimeOut(0)), Release(0)), Decrement(0)) == s.(stray := n + 1)
  {
    var at := AllAt(threads, Outside);
    assert at[0 := Outside] == at;
  }

  lemma OverdueCounts()
    ensures TimeOuts(Overdue()) == 1
  {
    var before, after := [Check(0, 1), Acquire(0), Increment(0), Submit(0)], [Release(0), Decrement(0)];
    assert Overdue() == before + ([TimeOut(0)] + after);
    RunAppend(Idle(0, 0), before, [TimeOut(0)] + after);
    RunAppend(Idle(0, 0), [TimeOut(0)], after);
    RunOne(Idle(0, 0), TimeOut(0));
    NoTimeOuts(before);
    NoTimeOuts(after);
  }

  lemma OverdueTimesGrow(n: nat)
    requires n > 0
    ensures OverdueTimes(n) == OverdueTimes(n - 1) + Overdue()
  {
    hide Overdue;
  }

  lemma {:induction false} ManyOverdue(max: nat, threads: nat, n: nat)
    requires max > 0 && threads > 0
    ensures Run(Idle(max, threads), OverdueTimes(n)) == Idle(max, threads).(stray := n)
  {
    hide Overdue, AllAt, Step;
    if n > 0 {
      OverdueTimesGrow(n);
      hide *;
      ManyOverdue(max, threads, n - 1);
      RunAppend(Idle(max, threads), OverdueTimes(n - 1), Overdue());
      OneOverdue(max, threads, n - 1);
    }
  }

  lemma {:induction false} OverdueTimeOuts(n: nat)
    ensures TimeOuts(OverdueTimes(n)) == n
  {
    hide Overdue, AllAt, Step;
    if n > 0 {
      OverdueTimesGrow(n);
      hide *;
      OverdueTimeOuts(n - 1);
      RunAppend(Idle(0, 0), OverdueTimes(n - 1), Overdue());
      OverdueCounts();
    }
  }

  // The first n threads stand at p, the others at q.
  function Split(threads: nat, n: nat, p: Place, q: Place): (r: seq<Place>)
    ensures |r| == threads && forall t :: 0 <= t < threads ==> r[t] == if t < n then p else q
  {
    seq(threads, t => if t < n then p else q)
  }

  lemma {:induction false} AllPass(max: nat, threads: nat, stray: nat, n: nat)
    requires n <= threads
    ensures Run(Idle(max, threads).(stray := stray), Stampede(n)) ==
        Sys(max, max, 0, Split(threads, n, Passed, Outside), stray, 0)
  {
    var s := Idle(max, threads).(stray := stray);
    if n == 0 {
      assert Split(threads, 0, Passed, Outside) == s.at;
    } else {
      AllPass(max, threads, stray, n - 1);
      RunAppend(s, Stampede(n - 1), [Check(n - 1, 1)]);
      RunOne(Run(s, Stampede(n - 1)), Check(n - 1, 1));
      hide Run, TimeOuts;
      assert Split(threads, n - 1, Passed, Outside)[n - 1 := Passed] == Split(threads, n, Passed, Outside);
    }
  }

  lemma {:induction false} AllRun(max: nat, threads: nat, stray: nat, n: nat)
    requires n <= max && n <= threads
    ensures Run(Sys(max, max, 0, Split(threads, threads, Passed, Outside), stray, 0), Rush(n))
         == Sys(max, max - n, n, Split(threads, n, Waiting, Passed), stray, 0)
  {
    var s := Sys(max, max, 0, Split(threads, threads, Passed, Outside), stray, 0);
    if n == 0 {
      assert Split(threads, 0, Waiting, Passed) == s.at;
    } else {
      var t := n - 1;
      var three := [Acquire(t), Increment(t), Submit(t)];
      assert Rush(n) == Rush(t) + three;
      hide *;
      AllRun(max, threads, stray, t);
      RunAppend(s, Rush(t), three);
      RunThree(Run(s, Rush(t)), Acquire(t), Increment(t), Submit(t));
      OneMoreRuns(max, threads, stray, t);
    }
  }

  lemma OneMoreRuns(max: nat, threads: nat, stray: nat, n: nat)
    requires n < max && n < threads
    ensures var s := Sys(max, max - n, n, Split(threads, n, Waiting, Passed), stray, 0);
            Step(Step(Step(s, Acquire(n)), Increment(n)), Submit(n))
            == Sys(max, max - n - 1, n + 1, Split(threads, n + 1, Waiting, Passed), stray, 0)
  {
    assert Split(threads, n, Waiting, Passed)[n := Acquired][n := Admitted][n := Waiting] ==
      Split(threads, n + 1, Waiting, Passed);
  }

  lemma {:induction false} SplitCount(threads: nat, n: nat)
    requires n <= threads
    ensures CountIn(Split(threads, n, Waiting, Passed), Waiting) == n
  {
    var at := Split(threads, n, Waiting, Passed);
    if threads > 0 {
      var m := if n < threads then n else n - 1;
      assert at[..threads - 1] == Split(threads - 1, m, Waiting, Passed);
      SplitCount(threads - 1, m);
    }
  }

  // `late` overdue handlers, then everybody at once through a window of one.
  function Worst(max: nat, threads: nat, late: nat): seq<Act> {
    OverdueTimes(late) + (Stampede(threads) + Rush(Min(max, threads)))
  }

  lemma {:induction false} OverdueChecks(n: nat)
    ensures forall a :: a in OverdueTimes(n) ==> !a.StartDirect? && (a.Check? ==> a.window == 1)
  {
    if n > 0 {
      OverdueChecks(n - 1);
    }
  }

  lemma {:induction false} StampedeChecks(n: nat)
    ensures forall a :: a in Stampede(n) ==> a.Check? && a.window == 1
  {
    if n > 0 {
      StampedeChecks(n - 1);
    }
  }

  lemma {:induction false} RushChecks(n: nat)
    ensures forall a :: a in Rush(n) ==> !a.Check? && !a.TimeOut? && !a.StartDirect?
  {
    if n > 0 {
      RushChecks(n - 1);
    }
  }

  lemma WorstIs(max: nat, threads: nat, w: nat, late: nat)
    requires max > 0 && threads > 0 && w > 0
    ensures Within(Worst(max, threads, late), w, late, 0)
    ensures var s := Run(Idle(max, threads), Worst(max, threads, late));
            Tasks(s) >= Min(max, threads) && Handlers(s) == Min(max, threads) + late
  {
    var n, s := Min(max, threads), Idle(max, threads);
    ManyOverdue(max, threads, late);
    RunAppend(s, OverdueTimes(late), Stampede(threads) + Rush(n));
    var u := s.(stray := late);
    RunAppend(u, Stampede(threads), Rush(n));
    AllPass(max, threads, late, threads);
    AllRun(max, threads, late, n);
    SplitCount(threads, n);
    WorstWithin(max, threads, w, late);
  }

  lemma WorstWithin(max: nat, threads: nat, w: nat, late: nat)
    requires max > 0 && threads > 0 && w > 0
    ensures Within(Worst(max, threads, late), w, late, 0)
  {
    var n, s := Min(max, threads), Idle(max, threads);
    RunAppend(s, OverdueTimes(late), Stampede(threads) + Rush(n));
    RunAppend(s, Stampede(threads), Rush(n));
    OverdueTimeOuts(late);
    OverdueChecks(late);
    StampedeChecks(threads);
    RushChecks(n);
    NoTimeOuts(Stampede(threads) + Rush(n));
    NoDirectStarts(Worst(max, threads, late));
    forall k | 0 <= k < |Worst(max, threads, late)| && Worst(max, threads, late)[k].Check?
      ensures Worst(max, threads, late)[k].window <= w
    {
      assert Worst(max, threads, late)[k] in Worst(max, threads, late);
    }
  }

  lemma AddDirect(s: Sys, acts: seq<Act>, w: nat, late: nat, direct: nat)
    requires Within(acts, w, late, 0)
    ensures Within(acts + Direct(direct), w, late, direct)
    ensures Handlers(Run(s, acts + Direct(direct))) == Handlers(Run(s, acts)) + direct
  {
    RunAppend(s, acts, Direct(direct));
    DirectRuns(Run(s, acts), direct);
    hide Run, TimeOuts, DirectStarts, Direct, CountIn;
    var all := acts + Direct(direct);
    forall k | 0 <= k < |all| && all[k].Check? ensures all[k].window <= w {
      assert all[k] in Direct(direct) || all[k] == acts[k];
    }
  }

  // The same run, or none if nothing can come in, and `direct` calls of another transport.
  lemma MostIsReached(max: nat, threads: nat, w: nat, late: nat, direct: nat) returns (acts: seq<Act>)
    ensures Within(acts, w, late, direct)
    ensures Handlers(Run(Idle(max, threads), acts)) == MostHandlers(max, threads, w, late, direct)
  {
    var s := Idle(max, threads);
    var front: seq<Act> := [];
    if MostTasks(max, threads, w) == 0 {
      AllOutside(s);
    } else {
      front := Worst(max, threads, late);
      WorstIs(max, threads, w, late);
    }
    hide Worst, Direct, Step;
    AddDirect(s, front, w, late, direct);
    acts := front + Direct(direct);
  }

  // The exact number of tasks that can be between increment and release at once, over all runs
  // whose checks use a window of at most w: none through a closed one, and otherwise as many as
  // threads and semaphore allow.
  lemma TasksExactly(max: nat, threads: nat, w: nat, bound: nat)
    ensures (forall acts, late, direct :: Within(acts, w, late, direct) ==>
               Tasks(Run(Idle(max, threads), acts)) <= bound)
            <==> MostTasks(max, threads, w) <= bound
  {
    if MostTasks(max, threads, w) <= bound {
      forall acts, late, direct | Within(acts, w, late, direct) ensures Tasks(Run(Idle(max, threads), acts)) <= bound {
        AtMost(max, threads, acts, w, late, direct);
      }
    } else {
      WorstIs(max, threads, w, 0);
    }
  }

  // The window is kept in every run exactly when it is closed, or as large as the semaphore or
  // the number of threads.
  lemma WindowHoldsIff(max: nat, threads: nat, w: nat)
    ensures (forall acts, late, direct :: Within(acts, w, late, direct) ==> Tasks(Run(Idle(max, threads), acts)) <= w)
            <==> w == 0 || max <= w || threads <= w
  {
    TasksExactly(max, threads, w, w);
  }

  // The exact number of handlers that can run at once, over all runs in which at most `late` of
  // those of HTTP tasks outlive the wait and at most `direct` native or relayed calls come in.
  lemma HandlersExactly(max: nat, threads: nat, w: nat, late: nat, direct: nat, bound: nat)
    ensures (forall acts :: Within(acts, w, late, direct) ==> Handlers(Run(Idle(max, threads), acts)) <= bound)
            <==> MostHandlers(max, threads, w, late, direct) <= bound
  {
    if MostHandlers(max, threads, w, late, direct) <= bound {
      forall acts | Within(acts, w, late, direct) ensures Handlers(Run(Idle(max, threads), acts)) <= bound {
        AtMost(max, threads, acts, w, late, direct);
      }
    } else {
      var acts := MostIsReached(max, threads, w, late, direct);
    }
  }

  // Running handlers never exceed the cap, in any run, exactly when the calls that need no permit
  // fit into it alone, where no task comes in; and otherwise when no handler outlives its wait
  // and no such call comes in, or spare permits make up for them.
  lemma HandlersCappedIff(max: nat, threads: nat, w: nat, late: nat, direct: nat)
    ensures (forall acts :: Within(acts, w, late, direct) ==> Handlers(Run(Idle(max, threads), acts)) <= max)
            <==> if w == 0 || threads == 0 || max == 0 then direct <= max
                 else late + direct == 0 || threads + late + direct <= max
  {
    HandlersExactly(max, threads, w, late, direct, max);
  }

  // ---- the semaphore and the counter, as the code keeps them ----

  class SlotPool {
    const max: nat
    var permits: nat
    var active: int

    constructor (max: nat)
      ensures this.max == max && permits == max && active == 0
    {
      this.max := max;
      permits, active := max, 0;
    }

    method TryAcquire() returns (acquired: bool)
      modifies this`permits
      ensures acquired <==> old(permits) > 0
      ensures permits == old(permits) - if acquired then 1 else 0
    {
      acquired := permits > 0;
      if acquired {
        permits := permits - 1;
      }
    }

    method Enter()
      modifies this`active
      ensures active == old(active) + 1
    {
      active := active + 1;
    }

    method Leave()
      modifies this
      ensures permits == old(permits) + 1 && active == old(active) - 1
    {
      permits := permits + 1;
      active := active - 1;
    }
  }
}
