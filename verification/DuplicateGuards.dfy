// The two duplicate guards with lazy eviction, task ids and nonces, against a log that never
// forgets.
module DuplicateGuards {
  import opened Common

  // The idempotency guard drops an entry at its expiry, the nonce check only after it.
  datatype Guard = Guard(ttl: int, dropsAtExpiry: bool)

  type Seen = map<string, int>

  predicate Expired(g: Guard, expiry: int, now: int) {
    if g.dropsAtExpiry then expiry <= now else expiry < now
  }

  function Evicted(g: Guard, seen: Seen, now: int): Seen {
    map k | k in seen && !Expired(g, seen[k], now) :: seen[k]
  }

  // An absent or empty id is always new and touches nothing.
  function IsNew(g: Guard, seen: Seen, id: Option<string>, now: int): bool {
    id.None? || id.value == "" || id.value !in Evicted(g, seen, now)
  }

  function Registered(g: Guard, seen: Seen, id: Option<string>, now: int): Seen {
    if id.None? || id.value == "" then seen
    else
      var left := Evicted(g, seen, now);
      if id.value in left then left else left[id.value := now + g.ttl]
  }

  class DuplicateGuard {
    const rule: Guard
    var seen: Seen

    constructor (rule: Guard)
      ensures this.rule == rule && seen == map[]
    {
      this.rule := rule;
      seen := map[];
    }

    method CheckAndRegister(id: Option<string>, now: int) returns (isNew: bool)
      modifies this
      ensures isNew == IsNew(rule, old(seen), id, now)
      ensures seen == Registered(rule, old(seen), id, now)
    {
      if id == None || id.value == "" {
        return true;
      }
      var expired := set k | k in seen && Expired(rule, seen[k], now);
      seen := seen - expired;
      assert seen == Evicted(rule, old(seen), now);
      if id.value in seen {
        return false;
      }
      seen := seen[id.value := now + rule.ttl];
      isNew := true;
    }
  }

  // ---- the log ----

  datatype Entry = Entry(id: string, at: int)

  // Was this id accepted within its lifetime?
  predicate InLog(g: Guard, log: seq<Entry>, id: string, now: int) {
    exists e :: e in log && e.id == id && !Expired(g, e.at + g.ttl, now)
  }

  datatype Call = Call(id: Option<string>, at: int)

  predicate LogSaysNew(g: Guard, log: seq<Entry>, c: Call) {
    c.id.None? || c.id.value == "" || !InLog(g, log, c.id.value, c.at)
  }

  function Logged(g: Guard, log: seq<Entry>, c: Call): seq<Entry> {
    if c.id.Some? && c.id.value != "" && LogSaysNew(g, log, c) then log + [Entry(c.id.value, c.at)] else log
  }

  ghost predicate Ordered(calls: seq<Call>, from: int) {
    calls != [] ==> from <= calls[0].at && Ordered(calls[1..], calls[0].at)
  }

  function GuardAnswers(g: Guard, seen: Seen, calls: seq<Call>): seq<bool>
    decreases calls
  {
    if calls == [] then []
    else
      [IsNew(g, seen, calls[0].id, calls[0].at)]
      + GuardAnswers(g, Registered(g, seen, calls[0].id, calls[0].at), calls[1..])
  }

  function LogAnswers(g: Guard, log: seq<Entry>, calls: seq<Call>): seq<bool>
    decreases calls
  {
    if calls == [] then [] else [LogSaysNew(g, log, calls[0])] + LogAnswers(g, Logged(g, log, calls[0]), calls[1..])
  }

  // The map holds logged entries, and among them all that have not run out by `now`.
  ghost predicate Agrees(g: Guard, seen: Seen, log: seq<Entry>, now: int) {
    && (forall k :: k in seen ==> Entry(k, seen[k] - g.ttl) in log)
    && (forall e :: e in log && !Expired(g, e.at + g.ttl, now) ==> e.id in seen && seen[e.id] == e.at + g.ttl)
  }

  lemma SameVerdict(g: Guard, seen: Seen, log: seq<Entry>, before: int, c: Call)
    requires Agrees(g, seen, log, before) && before <= c.at
    ensures IsNew(g, seen, c.id, c.at) == LogSaysNew(g, log, c)
  {
    if c.id.Some? && c.id.value in Evicted(g, seen, c.at) {
      assert Entry(c.id.value, seen[c.id.value] - g.ttl) in log;
    }
  }

  lemma StillAgrees(g: Guard, seen: Seen, log: seq<Entry>, before: int, c: Call)
    requires Agrees(g, seen, log, before) && before <= c.at
    ensures Agrees(g, Registered(g, seen, c.id, c.at), Logged(g, log, c), c.at)
  {
    SameVerdict(g, seen, log, before, c);
    var s, l := Registered(g, seen, c.id, c.at), Logged(g, log, c);
    forall e | e in l && !Expired(g, e.at + g.ttl, c.at) ensures e.id in s && s[e.id] == e.at + g.ttl {
      if e in log {
        assert seen[e.id] == e.at + g.ttl;
        assert e.id in Evicted(g, seen, c.at);
      }
    }
    forall k | k in s ensures Entry(k, s[k] - g.ttl) in l {
      if k in seen && s[k] == seen[k] {
        assert Entry(k, seen[k] - g.ttl) in log;
      }
    }
  }

  lemma {:induction false} AgreeingAnswers(g: Guard, seen: Seen, log: seq<Entry>, calls: seq<Call>, from: int)
    requires Agrees(g, seen, log, from) && Ordered(calls, from)
    ensures GuardAnswers(g, seen, calls) == LogAnswers(g, log, calls)
    decreases calls
  {
    if calls != [] {
      SameVerdict(g, seen, log, from, calls[0]);
      StillAgrees(g, seen, log, from, calls[0]);
      AgreeingAnswers(g, Registered(g, seen, calls[0].id, calls[0].at), Logged(g, log, calls[0]), calls[1..],
        calls[0].at);
    }
  }

  // Under a clock that never goes back both guards answer every call as the log that never
  // forgets, whatever their lifetime.
  lemma EvictionIsInvisible(g: Guard, calls: seq<Call>, from: int)
    requires Ordered(calls, from)
    ensures GuardAnswers(g, map[], calls) == LogAnswers(g, [], calls)
  {
    AgreeingAnswers(g, map[], [], calls, from);
  }

  // The two boundaries: before one lifetime has passed since its acceptance an id is a replay,
  // afterwards it is new; at exactly one lifetime it is new for the idempotency guard, and still
  // a replay for the nonce check.
  lemma Boundary(g: Guard, log: seq<Entry>, id: string, at: int, later: int)
    requires id != "" && g.ttl > 0
    requires forall e :: e in log && e.id == id ==> e == Entry(id, at)
    requires Entry(id, at) in log
    ensures LogSaysNew(g, log, Call(Some(id), later)) <==>
            later > at + g.ttl || (later == at + g.ttl && g.dropsAtExpiry)
  {
  }
}
