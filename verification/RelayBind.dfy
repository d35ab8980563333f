// The relay's bind protocol on its TCP accept path: connections of the same and of different
// workers interleaved at every await, with sessions dying at any time.
module RelayBind {
  import opened Common

  // Before its bind; bound, its acknowledgement being written; bound and serving; over.
  datatype Phase = Handshaking | Acking | Serving | Closed

  // `alive`: the transport is not closing.
  datatype Conn = Conn(worker: string, phase: Phase, alive: bool)

  datatype Verdict = TicketRefused | AlreadyBound | RateLimited | AtCapacity | TicketReplayed | Bound

  // What the rest of the relay decides for one bind: the ticket check, the limiter's answer
  // (asked only when this is no rebind) and whether the ticket was still unused.
  datatype Inputs = Inputs(ticketRefused: bool, limiterAllows: bool, ticketFresh: bool)

  type Registry = map<string, nat>

  function Decide(registry: Registry, cap: nat, worker: string, existingAlive: bool, i: Inputs): Verdict {
    if i.ticketRefused then TicketRefused
    else if worker in registry && existingAlive then AlreadyBound
    else if worker !in registry && !i.limiterAllows then RateLimited
    else if worker !in registry && |registry| >= cap then AtCapacity
    else if !i.ticketFresh then TicketReplayed
    else Bound
  }

  // ---- the registry and the bind, which runs without an await once it is let through ----

  class RelaySessionRegistry {
    const max: nat
    var sessions: Registry

    constructor (max: nat)
      ensures this.max == max && sessions == map[]
    {
      this.max := max;
      sessions := map[];
    }

    method Full(worker: string) returns (r: bool)
      ensures r <==> worker !in sessions && |sessions| >= max
    {
      r := worker !in sessions && |sessions| >= max;
    }

    method Bind(worker: string, session: nat)
      modifies this
      ensures sessions == old(sessions)[worker := session]
    {
      sessions := sessions[worker := session];
    }

    method Unbind(worker: string)
      modifies this
      ensures sessions == old(sessions) - {worker}
    {
      sessions := sessions - {worker};
    }

    method Get(worker: string) returns (r: Option<nat>)
      ensures r == if worker in sessions then Some(sessions[worker]) else None
    {
      r := if worker in sessions then Some(sessions[worker]) else None;
    }
  }

  // `alive` tells of every session so far whether its transport is still open.
  method HandleBind(registry: RelaySessionRegistry, worker: string, session: nat, alive: seq<bool>, i: Inputs)
    returns (v: Verdict)
    requires forall w :: w in registry.sessions ==> registry.sessions[w] < |alive|
    modifies registry
    ensures var was := old(registry.sessions);
            && v == Decide(was, registry.max, worker, worker in was && alive[was[worker]], i)
            && registry.sessions == if v == Bound then was[worker := session] else was
  {
    if i.ticketRefused {
      return TicketRefused;
    }
    var existing := registry.Get(worker);
    if existing != None && alive[existing.value] {
      return AlreadyBound;
    }
    if existing == None && !i.limiterAllows {
      return RateLimited;
    }
    var full := registry.Full(worker);
    if full {
      return AtCapacity;
    }
    if !i.ticketFresh {
      return TicketReplayed;
    }
    registry.Bind(worker, session);
    v := Bound;
  }

  method CleanUp(registry: RelaySessionRegistry, worker: string, session: nat)
    modifies registry
    ensures registry.sessions ==
            if worker in old(registry.sessions) && old(registry.sessions)[worker] == session
            then old(registry.sessions) - {worker} else old(registry.sessions)
  {
    var current := registry.Get(worker);
    if current == Some(session) {
      registry.Unbind(worker);
    }
  }

  // ---- the system ----

  datatype Sys = Sys(cap: nat, registry: Registry, conns: seq<Conn>)

  datatype Act =
    | Connect(worker: string)
    | Try(c: nat, inputs: Inputs)
    | AckSent(c: nat)
    | AckFailed(c: nat)  // the write raises before the loop's cleanup is in force
    | EndLoop(c: nat)    // CLOSE, end of stream or an error
    | Die(c: nat)

  predicate IsIn(s: Sys, c: nat, p: Phase) {
    c < |s.conns| && s.conns[c].phase == p
  }

  function ExistingAlive(s: Sys, worker: string): bool {
    worker in s.registry && s.registry[worker] < |s.conns| && s.conns[s.registry[worker]].alive
  }

  function With(s: Sys, c: nat, p: Phase, alive: bool): Sys
    requires c < |s.conns|
  {
    s.(conns := s.conns[c := s.conns[c].(phase := p, alive := alive)])
  }

  function Step(s: Sys, a: Act): Sys {
    match a
    case Connect(worker) => s.(conns := s.conns + [Conn(worker, Handshaking, true)])
    case Try(c, i) =>
      if !IsIn(s, c, Handshaking) then s
      else
        var w := s.conns[c].worker;
        if Decide(s.registry, s.cap, w, ExistingAlive(s, w), i) == Bound
        then With(s, c, Acking, s.conns[c].alive).(registry := s.registry[w := c])
        else With(s, c, Closed, false)
    case AckSent(c) => if IsIn(s, c, Acking) then With(s, c, Serving, s.conns[c].alive) else s
    case AckFailed(c) => if IsIn(s, c, Acking) then With(s, c, Closed, false) else s
    case EndLoop(c) =>
      if !IsIn(s, c, Serving) then s
      else
        var w := s.conns[c].worker;
        With(s, c, Closed, false).(
        registry := if w in s.registry && s.registry[w] == c then s.registry - {w} else s.registry)
    case Die(c) => if c < |s.conns| then With(s, c, s.conns[c].phase, false) else s
  }

  function Run(s: Sys, acts: seq<Act>): Sys {
    if acts == [] then s else Step(Run(s, acts[..|acts| - 1]), acts[|acts| - 1])
  }

  function Start(cap: nat): Sys {
    Sys(cap, map[], [])
  }

  // Bound and its transport open.
  predicate Live(s: Sys, c: nat) {
    c < |s.conns| && s.conns[c].alive && (s.conns[c].phase == Acking || s.conns[c].phase == Serving)
  }

  predicate Entry(s: Sys, w: string)
    requires w in s.registry
  {
    var c := s.registry[w];
    && c < |s.conns| && s.conns[c].worker == w && s.conns[c].phase != Handshaking
    && (s.conns[c].phase == Closed ==> !s.conns[c].alive)
  }

  ghost predicate Inv(s: Sys) {
    && (forall w :: w in s.registry ==> Entry(s, w))
    && (forall c: nat :: Live(s, c) ==> s.conns[c].worker in s.registry && s.registry[s.conns[c].worker] == c)
    && |s.registry| <= s.cap
  }

  lemma Sizes(r: Registry, w: string, c: nat)
    ensures |r[w := c]| == |r| + if w in r then 0 else 1
    ensures |r - {w}| <= |r|
  {
    assert r[w := c].Keys == r.Keys + {w};
    assert (r - {w}).Keys == r.Keys - {w};
    if w in r {
      assert r.Keys + {w} == r.Keys;
      assert |r.Keys - {w}| == |r.Keys| - 1;
    } else {
      assert r.Keys - {w} == r.Keys;
    }
  }

  lemma TryKeepsInv(s: Sys, c: nat, i: Inputs)
    requires Inv(s)
    ensures Inv(Step(s, Try(c, i)))
  {
    if IsIn(s, c, Handshaking) {
      var t, w := Step(s, Try(c, i)), s.conns[c].worker;
      Sizes(s.registry, w, c);
      assert w in s.registry ==> Entry(s, w);
      forall v | v in t.registry ensures Entry(t, v) {
        assert v in s.registry ==> Entry(s, v);
      }
      forall d: nat | Live(t, d) ensures t.conns[d].worker in t.registry && t.registry[t.conns[d].worker] == d {
        assert d != c ==> Live(s, d);
      }
    }
  }

  lemma EndKeepsInv(s: Sys, c: nat)
    requires Inv(s)
    ensures Inv(Step(s, EndLoop(c)))
  {
    if IsIn(s, c, Serving) {
      var t, w := Step(s, EndLoop(c)), s.conns[c].worker;
      Sizes(s.registry, w, c);
      forall v | v in t.registry ensures Entry(t, v) {
        assert Entry(s, v);
      }
      forall d: nat | Live(t, d) ensures t.conns[d].worker in t.registry && t.registry[t.conns[d].worker] == d {
        assert d != c && Live(s, d);
      }
    }
  }

  lemma StepKeepsInv(s: Sys, a: Act)
    requires Inv(s)
    ensures Inv(Step(s, a))
  {
    if a.Try? {
      TryKeepsInv(s, a.c, a.inputs);
    } else if a.EndLoop? {
      EndKeepsInv(s, a.c);
    } else {
      var t := Step(s, a);
      assert t.registry == s.registry;
      forall v | v in t.registry ensures Entry(t, v) {
        assert Entry(s, v);
      }
      forall d: nat | Live(t, d) ensures t.conns[d].worker in t.registry && t.registry[t.conns[d].worker] == d {
        assert Live(s, d) && t.conns[d].worker == s.conns[d].worker;
      }
    }
  }

  lemma {:induction false} RunKeepsInv(s: Sys, acts: seq<Act>)
    requires Inv(s)
    ensures Inv(Run(s, acts)) && Run(s, acts).cap == s.cap
  {
    if acts != [] {
      hide Inv, Step;
      RunKeepsInv(s, acts[..|acts| - 1]);
      StepKeepsInv(Run(s, acts[..|acts| - 1]), acts[|acts| - 1]);
    }
  }

  // Over every interleaving: two live sessions are never of the same worker, a live session is
  // the registered one, and the registry never outgrows the cap.
  lemma OneLiveSessionEach(cap: nat, acts: seq<Act>)
    ensures var s := Run(Start(cap), acts);
            && (forall c: nat, d: nat :: Live(s, c) && Live(s, d) && s.conns[c].worker == s.conns[d].worker ==> c == d)
            && (forall c: nat :: Live(s, c) ==> s.conns[c].worker in s.registry && s.registry[s.conns[c].worker] == c)
            && |s.registry| <= cap
  {
    RunKeepsInv(Start(cap), acts);
  }

  // A live session stays registered and live until its own connection dies or ends: no bind,
  // and no cleanup of another session, displaces it.
  lemma LiveIsNotDisplaced(s: Sys, a: Act, c: nat)
    requires Inv(s) && Live(s, c)
    requires a != Die(c) && a != EndLoop(c) && a != AckFailed(c)
    ensures var t := Step(s, a);
            Live(t, c) && s.conns[c].worker in t.registry && t.registry[s.conns[c].worker] == c
  {
    assert s.registry[s.conns[c].worker] == c;
  }

  lemma {:induction false} LiveSurvives(s: Sys, acts: seq<Act>, c: nat)
    requires Inv(s) && Live(s, c)
    requires Die(c) !in acts && EndLoop(c) !in acts && AckFailed(c) !in acts
    ensures Live(Run(s, acts), c) && Run(s, acts).conns[c].worker == s.conns[c].worker
    ensures s.conns[c].worker in Run(s, acts).registry && Run(s, acts).registry[s.conns[c].worker] == c
  {
    if acts != [] {
      var front, last := acts[..|acts| - 1], acts[|acts| - 1];
      assert last in acts;
      hide Inv, Step;
      LiveSurvives(s, front, c);
      RunKeepsInv(s, front);
      LiveIsNotDisplaced(Run(s, front), last, c);
    } else {
      assert s.registry[s.conns[c].worker] == c;
    }
  }

  // Another connection of `w` is tried while the registered session's transport is closing.
  ghost predicate Displaces(s: Sys, a: Act, w: string, c: nat) {
    && a.Try? && IsIn(s, a.c, Handshaking) && s.conns[a.c].worker == w
    && w in s.registry && s.registry[w] == c && !(c < |s.conns| && s.conns[c].alive)
  }

  ghost predicate DisplacedWithin(s: Sys, acts: seq<Act>, w: string, c: nat) {
    exists k :: 0 <= k < |acts| && Displaces(Run(s, acts[..k]), acts[k], w, c)
  }

  predicate Holds(s: Sys, w: string, c: nat) {
    w in s.registry && s.registry[w] == c
  }

  lemma EntryStep(s: Sys, a: Act, w: string, c: nat)
    requires Inv(s) && Holds(s, w, c) && a != EndLoop(c) && !Displaces(s, a, w, c)
    ensures Holds(Step(s, a), w, c)
  {
    assert Entry(s, w);
  }

  // A bind is let through exactly with a ticket that is good and unused, onto no session or one
  // whose transport has closed, and for a new worker within the rate limit and the cap.
  lemma BindsIff(registry: Registry, cap: nat, worker: string, alive: bool, i: Inputs)
    ensures Decide(registry, cap, worker, alive, i) == Bound <==>
            && !i.ticketRefused && i.ticketFresh
            && if worker in registry then !alive else i.limiterAllows && |registry| < cap
  {
  }

  // In every run whoever is bound had been tried with such a ticket.
  lemma {:induction false} BoundHadTicket(cap: nat, acts: seq<Act>, c: nat)
    requires IsIn(Run(Start(cap), acts), c, Acking) || IsIn(Run(Start(cap), acts), c, Serving)
    ensures exists i :: Try(c, i) in acts && !i.ticketRefused && i.ticketFresh
  {
    var front, last := acts[..|acts| - 1], acts[|acts| - 1];
    assert acts == front + [last];
    var s := Run(Start(cap), front);
    if IsIn(s, c, Acking) || IsIn(s, c, Serving) {
      BoundHadTicket(cap, front, c);
      var i :| Try(c, i) in front && !i.ticketRefused && i.ticketFresh;
      assert Try(c, i) in acts;
    } else {
      OnlyTryBinds(s, last, c);
      assert Try(c, last.inputs) in acts;
    }
  }

  lemma OnlyTryBinds(s: Sys, a: Act, c: nat)
    requires IsIn(Step(s, a), c, Acking) || IsIn(Step(s, a), c, Serving)
    requires !IsIn(s, c, Acking) && !IsIn(s, c, Serving)
    ensures a.Try? && a.c == c && !a.inputs.ticketRefused && a.inputs.ticketFresh
  {
  }

  // An entry goes only by the end of its own session, or when its worker binds again after its
  // transport has closed: over any run, no cleanup of another session removes it.
  lemma {:induction false} EntryEndsOnlyBy(s: Sys, acts: seq<Act>, w: string, c: nat)
    requires Inv(s) && Holds(s, w, c)
    ensures Holds(Run(s, acts), w, c) || EndLoop(c) in acts || DisplacedWithin(s, acts, w, c)
  {
    if acts != [] {
      var front, last := acts[..|acts| - 1], acts[|acts| - 1];
      assert acts == front + [last];
      EntryEndsOnlyBy(s, front, w, c);
      RunKeepsInv(s, front);
      hide Inv, Step, Holds, Displaces;
      if Holds(Run(s, front), w, c) {
        if last != EndLoop(c) && !Displaces(Run(s, front), last, w, c) {
          EntryStep(Run(s, front), last, w, c);
        } else if Displaces(Run(s, front), last, w, c) {
          assert acts[..|front|] == front && Displaces(Run(s, acts[..|front|]), acts[|front|], w, c);
        }
      } else if DisplacedWithin(s, front, w, c) {
        var k :| 0 <= k < |front| && Displaces(Run(s, front[..k]), front[k], w, c);
        assert front[..k] == acts[..k];
        assert Displaces(Run(s, acts[..k]), acts[k], w, c);
      }
    }
  }

  // ---- entries that are left behind ----

  // The entry's session is over, and nothing will clean it up.
  predicate Leaked(s: Sys, w: string, c: nat) {
    Holds(s, w, c) && IsIn(s, c, Closed)
  }

  // No connection but those that are over says it is `w`.
  ghost predicate Silent(s: Sys, w: string) {
    forall d :: 0 <= d < |s.conns| && s.conns[d].worker == w ==> s.conns[d].phase == Closed
  }

  lemma SilentStep(s: Sys, a: Act, w: string, c: nat)
    requires Leaked(s, w, c) && Silent(s, w) && a != Connect(w)
    ensures Leaked(Step(s, a), w, c) && Silent(Step(s, a), w)
  {
  }

  // Such an entry goes only when the same worker binds again.
  lemma {:induction false} LeakedEntryStays(s: Sys, acts: seq<Act>, w: string, c: nat)
    requires Leaked(s, w, c) && Silent(s, w) && Connect(w) !in acts
    ensures Leaked(Run(s, acts), w, c) && Silent(Run(s, acts), w)
  {
    if acts != [] {
      hide Leaked, Silent, Step;
      assert acts[|acts| - 1] in acts;
      LeakedEntryStays(s, acts[..|acts| - 1], w, c);
      SilentStep(Run(s, acts[..|acts| - 1]), acts[|acts| - 1], w, c);
    }
  }

  // Every entry is of a session that is bound and whose end will be cleaned up.
  ghost predicate NothingLeaked(s: Sys) {
    forall w :: w in s.registry ==> IsIn(s, s.registry[w], Acking) || IsIn(s, s.registry[w], Serving)
  }

  // Every entry is of a bound session, or the acknowledgement of its session has failed.
  ghost predicate LeakedByFailure(s: Sys, acts: seq<Act>) {
    forall w :: w in s.registry ==>
      IsIn(s, s.registry[w], Acking) || IsIn(s, s.registry[w], Serving) || AckFailed(s.registry[w]) in acts
  }

  lemma LeakStep(s: Sys, a: Act, acts: seq<Act>)
    requires Inv(s) && LeakedByFailure(s, acts)
    ensures LeakedByFailure(Step(s, a), acts + [a])
  {
    var t := Step(s, a);
    forall w | w in t.registry
      ensures IsIn(t, t.registry[w], Acking) || IsIn(t, t.registry[w], Serving)
          || AckFailed(t.registry[w]) in acts + [a]
    {
      if w in s.registry && s.registry[w] == t.registry[w] {
        assert Entry(s, w) && AckFailed(s.registry[w]) in acts ==> AckFailed(t.registry[w]) in acts + [a];
      }
    }
  }

  lemma {:induction false} OnlyFailuresLeak(cap: nat, acts: seq<Act>)
    ensures LeakedByFailure(Run(Start(cap), acts), acts)
  {
    if acts != [] {
      var front, last := acts[..|acts| - 1], acts[|acts| - 1];
      assert acts == front + [last];
      OnlyFailuresLeak(cap, front);
      RunKeepsInv(Start(cap), front);
      LeakStep(Run(Start(cap), front), last, front);
    }
  }

  // One connection of `worker`, number c, that binds and whose acknowledgement cannot be written.
  const LET_IN := Inputs(false, true, true)

  function FailedBind(worker: string, c: nat): seq<Act> {
    [Connect(worker), Try(c, LET_IN), AckFailed(c)]
  }

  lemma RunStep(s: Sys, acts: seq<Act>, a: Act)
    ensures Run(s, acts + [a]) == Step(Run(s, acts), a)
  {
    assert (acts + [a])[..|acts|] == acts;
  }

  lemma {:induction false} RunAppend(s: Sys, a: seq<Act>, b: seq<Act>)
    ensures Run(s, a + b) == Run(Run(s, a), b)
  {
    hide Step;
    if b == [] {
      assert a + b == a;
    } else {
      RunAppend(s, a, b[..|b| - 1]);
      assert (a + b)[..|a + b| - 1] == a + b[..|b| - 1];
    }
  }

  lemma FailedBindLeaks(s: Sys, worker: string)
    requires worker !in s.registry && |s.registry| < s.cap
    ensures var c := |s.conns|;
            Run(s, FailedBind(worker, c)) ==
            s.(registry := s.registry[worker := c], conns := s.conns + [Conn(worker, Closed, false)])
  {
    var c := |s.conns|;
    RunStep(s, [], Connect(worker));
    RunStep(s, [Connect(worker)], Try(c, LET_IN));
    RunStep(s, [Connect(worker), Try(c, LET_IN)], AckFailed(c));
    assert [] + [Connect(worker)] == [Connect(worker)];
    assert [Connect(worker)] + [Try(c, LET_IN)] == [Connect(worker), Try(c, LET_IN)];
    assert [Connect(worker), Try(c, LET_IN)] + [AckFailed(c)] == FailedBind(worker, c);
    hide Run;
    var conns := s.conns + [Conn(worker, Handshaking, true)];
    assert conns[c := Conn(worker, Acking, true)][c := Conn(worker, Closed, false)] ==
      s.conns + [Conn(worker, Closed, false)];
  }

  // Over the runs in which acknowledgements can fail or cannot, an ended session leaves no entry
  // behind exactly when they cannot - or nothing ever binds.
  lemma NothingLeakedIff(cap: nat, acksFail: bool)
    ensures (forall acts :: (acksFail || forall c :: AckFailed(c) !in acts) ==> NothingLeaked(Run(Start(cap), acts)))
            <==> !acksFail || cap == 0
  {
    if !acksFail || cap == 0 {
      forall acts | acksFail || forall c :: AckFailed(c) !in acts ensures NothingLeaked(Run(Start(cap), acts)) {
        OnlyFailuresLeak(cap, acts);
        RunKeepsInv(Start(cap), acts);
      }
    } else {
      FailedBindLeaks(Start(cap), "w");
      var s := Run(Start(cap), FailedBind("w", 0));
      assert IsIn(s, s.registry["w"], Closed);
    }
  }

  // ---- and what they cost ----

  // Workers of different names.
  function Name(i: nat): string {
    seq(i + 1, _ => 'w')
  }

  function FailedBinds(n: nat): seq<Act> {
    if n == 0 then [] else FailedBinds(n - 1) + FailedBind(Name(n - 1), n - 1)
  }

  // The entries those binds leave, and the connections.
  function Entries(n: nat): Registry {
    if n == 0 then map[] else Entries(n - 1)[Name(n - 1) := n - 1]
  }

  function Ended(n: nat): seq<Conn> {
    if n == 0 then [] else Ended(n - 1) + [Conn(Name(n - 1), Closed, false)]
  }

  lemma {:induction false} EntriesNamed(n: nat, w: string)
    ensures w in Entries(n) <==> exists i :: 0 <= i < n && w == Name(i)
  {
    hide Name;
    if n > 0 {
      EntriesNamed(n - 1, w);
    }
  }

  lemma FreshName(n: nat)
    ensures Name(n) !in Entries(n)
  {
    EntriesNamed(n, Name(n));
    forall i | 0 <= i < n ensures Name(i) != Name(n) {
      assert |Name(i)| == i + 1;
    }
    hide Name, Entries;
  }

  lemma {:induction false} EntriesCount(n: nat)
    ensures |Entries(n)| == |Ended(n)| == n && forall c :: 0 <= c < n ==> Ended(n)[c].phase == Closed
  {
    hide Name;
    if n > 0 {
      EntriesCount(n - 1);
      FreshName(n - 1);
      Sizes(Entries(n - 1), Name(n - 1), n - 1);
    }
  }

  lemma OneMoreFails(cap: nat, n: nat)
    requires n < cap
    ensures Run(Sys(cap, Entries(n), Ended(n)), FailedBind(Name(n), n)) == Sys(cap, Entries(n + 1), Ended(n + 1))
  {
    EntriesCount(n);
    FreshName(n);
    hide Run, Name, FailedBind;
    FailedBindLeaks(Sys(cap, Entries(n), Ended(n)), Name(n));
  }

  lemma {:induction false} FailedBindsFill(cap: nat, n: nat)
    requires n <= cap
    ensures Run(Start(cap), FailedBinds(n)) == Sys(cap, Entries(n), Ended(n))
  {
    hide FailedBind, Name, Step;
    if n > 0 {
      FailedBindsFill(cap, n - 1);
      RunAppend(Start(cap), FailedBinds(n - 1), FailedBind(Name(n - 1), n - 1));
      OneMoreFails(cap, n - 1);
      hide Run, Entries, Ended;
    }
  }

  // A full registry of dead entries: nobody is in it or at the door who could displace one.
  ghost predicate Dead(s: Sys) {
    && |s.registry| >= s.cap
    && (forall c :: 0 <= c < |s.conns| ==>
        s.conns[c].phase == Closed || (s.conns[c].phase == Handshaking && s.conns[c].worker !in s.registry))
  }

  lemma StaysDead(s: Sys, a: Act)
    requires Dead(s) && (a.Connect? ==> a.worker !in s.registry)
    ensures Dead(Step(s, a)) && Step(s, a).registry == s.registry
    ensures forall c: nat :: !Live(Step(s, a), c)
  {
  }

  // After as many failed acknowledgements as there are places, each of another worker, no other
  // worker is ever bound again: for good, over every run in which those workers stay away.
  lemma {:induction false} FailuresLockOut(cap: nat, later: seq<Act>)
    requires forall i :: 0 <= i < cap ==> Connect(Name(i)) !in later
    ensures var full := Run(Start(cap), FailedBinds(cap));
            var s := Run(full, later);
            Dead(s) && s.registry == full.registry == Entries(cap) && (forall c: nat :: !Live(s, c))
  {
    FailedBindsFill(cap, cap);
    EntriesCount(cap);
    if later != [] {
      var full := Run(Start(cap), FailedBinds(cap));
      var front, last := later[..|later| - 1], later[|later| - 1];
      assert later == front + [last];
      FailuresLockOut(cap, front);
      RunStep(full, front, last);
      hide Run, Entries, Name, Dead;
      if last.Connect? {
        EntriesNamed(cap, last.worker);
      }
      StaysDead(Run(full, front), last);
    }
  }
}
