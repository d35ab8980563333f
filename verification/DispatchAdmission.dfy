// The provider's durable single-use table: consume, transition and cleanup as transactions,
// and when one ticket id can be accepted twice.
module DispatchAdmission {
  import opened Common

  const TERMINAL: set<string> := {"completed", "failed", "cancelled", "expired", "rejected"}
  const ACCEPTED := "accepted"

  datatype Claim = Claim(jti: string, providerId: string, intent: string, notBefore: int, expiresAt: int)

  // SHA-256 of an identifier, taken to be injective.
  datatype Digest = Digest(of: string)

  datatype Row = Row(
    providerDigest: Digest, intentDigest: Digest, state: string, expiresAt: int, consumedAt: int, updatedAt: int)

  type Table = map<string, Row>

  datatype Decision =
    | Admit
    | RejectInvalidJti | RejectProviderBinding | RejectIntentBinding | RejectNotYetValid | RejectExpired
    | RejectTerminal(state: string) | RejectReplay(state: string)
    | RejectIssuerKey | RejectStoreUnavailable

  datatype TransitionError = UnsupportedState | UnknownJti | AlreadyTerminal(state: string)

  datatype StoreError = StorageError | Refused(reason: TransitionError)

  function Max0(n: int): nat {
    if n < 0 then 0 else n
  }

  predicate JtiChar(c: char) {
    'A' <= c <= 'Z' || 'a' <= c <= 'z' || '0' <= c <= '9' || c in "._:-"
  }

  predicate ValidJti(jti: string) {
    16 <= |jti| <= 256 && forall i :: 0 <= i < |jti| ==> JtiChar(jti[i])
  }

  // ---- one transaction each ----

  datatype Use = Use(claim: Claim, expectedProvider: string, expectedIntent: string, now: int, skew: int)

  function Decide(t: Table, u: Use): Decision {
    if !ValidJti(u.claim.jti) then RejectInvalidJti
    else if u.claim.providerId != u.expectedProvider then RejectProviderBinding
    else if u.claim.intent != u.expectedIntent then RejectIntentBinding
    else if u.now + Max0(u.skew) < u.claim.notBefore then RejectNotYetValid
    else if u.now - Max0(u.skew) >= u.claim.expiresAt then RejectExpired
    else if u.claim.jti in t then
      var state := t[u.claim.jti].state;
      if state in TERMINAL then RejectTerminal(state) else RejectReplay(state)
    else Admit
  }

  function RowOf(u: Use): Row {
    Row(Digest(u.claim.providerId), Digest(u.claim.intent), ACCEPTED, u.claim.expiresAt, u.now, u.now)
  }

  function Consumed(t: Table, u: Use): Table {
    if Decide(t, u) == Admit then
      t[u.claim.jti := RowOf(u)]
    else t
  }

  function TransitionResult(t: Table, jti: string, state: string, now: int): Result<Row, TransitionError> {
    if state !in TERMINAL then Err(UnsupportedState)
    else if jti !in t then Err(UnknownJti)
    else if t[jti].state in TERMINAL && t[jti].state != state then Err(AlreadyTerminal(t[jti].state))
    else if t[jti].state != state then Ok(t[jti].(state := state, updatedAt := now))
    else Ok(t[jti])
  }

  function Transitioned(t: Table, jti: string, state: string, now: int): Table {
    var r := TransitionResult(t, jti, state, now);
    if r.Ok? then t[jti := r.value] else t
  }

  // The rows cleanup may delete.
  function Expirable(t: Table, cutoff: int): set<string> {
    set j | j in t && t[j].expiresAt < cutoff
  }

  // How many rows of t are not in u any more.
  function GoneCount(t: Table, u: Table): nat {
    |t.Keys - u.Keys|
  }

  // Cleanup deletes the rows of the smallest expiries below the cutoff, as many as the limit
  // lets it; which ones among equals is up to the database.
  ghost predicate CleanedUp(t: Table, u: Table, cutoff: int, limit: int) {
    var all := |Expirable(t, cutoff)|;
    EarliestGone(t, u, cutoff) && GoneCount(t, u) == if limit < all then limit else all
  }

  ghost predicate EarliestGone(t: Table, u: Table, cutoff: int) {
    && u == t - (t.Keys - u.Keys)
    && t.Keys - u.Keys <= Expirable(t, cutoff)
    && forall g, k :: g in t.Keys - u.Keys && k in u && t[k].expiresAt < cutoff ==> t[g].expiresAt <= t[k].expiresAt
  }

  // Row j is first among those that may be deleted.
  predicate Earliest(t: Table, cutoff: int, j: string) {
    j in Expirable(t, cutoff) && forall k :: k in Expirable(t, cutoff) ==> t[j].expiresAt <= t[k].expiresAt
  }

  lemma DeleteEarliest(t: Table, u: Table, cutoff: int, j: string)
    requires EarliestGone(t, u, cutoff) && Earliest(u, cutoff, j)
    ensures EarliestGone(t, u - {j}, cutoff)
    ensures GoneCount(t, u - {j}) == GoneCount(t, u) + 1
  {
    var v := u - {j};
    assert t.Keys - v.Keys == (t.Keys - u.Keys) + {j};
    forall k | k in v && t[k].expiresAt < cutoff ensures u[j].expiresAt <= t[k].expiresAt {
      assert k in Expirable(u, cutoff);
    }
  }

  lemma NoneGone(t: Table, cutoff: int)
    ensures EarliestGone(t, t, cutoff) && GoneCount(t, t) == 0
  {
    assert t.Keys - t.Keys == {};
  }

  lemma DeletedEnough(t: Table, u: Table, cutoff: int, limit: nat)
    requires EarliestGone(t, u, cutoff) && GoneCount(t, u) <= limit
    requires GoneCount(t, u) == limit || Expirable(u, cutoff) == {}
    ensures CleanedUp(t, u, cutoff, limit)
  {
    var gone, all := t.Keys - u.Keys, Expirable(t, cutoff);
    PartIsSmaller(gone, all);
    if Expirable(u, cutoff) == {} {
      forall k | k in all ensures k in gone {
        assert k !in Expirable(u, cutoff);
      }
      assert gone == all;
    }
    hide EarliestGone, Expirable;
  }

  lemma PartIsSmaller(part: set<string>, whole: set<string>)
    requires part <= whole
    ensures |part| <= |whole|
  {
    assert whole == part + (whole - part);
  }

  // ---- what the decisions mean ----

  // A ticket is admitted exactly when its id is well formed, it is bound to this provider and this
  // intent, the clock is within its period give or take the skew, and the table does not know it.
  lemma AdmittedIff(t: Table, u: Use)
    ensures var c, skew := u.claim, if u.skew > 0 then u.skew else 0;
            Decide(t, u) == Admit <==>
            && 16 <= |c.jti| <= 256
            && (forall i :: 0 <= i < |c.jti| ==>
                  'A' <= c.jti[i] <= 'Z' || 'a' <= c.jti[i] <= 'z' || '0' <= c.jti[i] <= '9'
                  || c.jti[i] == '.' || c.jti[i] == '_' || c.jti[i] == ':' || c.jti[i] == '-')
            && c.providerId == u.expectedProvider && c.intent == u.expectedIntent
            && c.notBefore <= u.now + skew && u.now - skew < c.expiresAt
            && c.jti !in t
  {
    assert forall ch :: ch in "._:-" <==> ch == '.' || ch == '_' || ch == ':' || ch == '-';
    forall i | 0 <= i < |u.claim.jti|
      ensures JtiChar(u.claim.jti[i]) <==>
              (var ch := u.claim.jti[i];
               'A' <= ch <= 'Z' || 'a' <= ch <= 'z' || '0' <= ch <= '9'
               || ch == '.' || ch == '_' || ch == ':' || ch == '-')
    {
    }
  }

  // One thing wrong with a ticket that would be admitted is named.
  lemma OneFaultIsNamed(t: Table, u: Use, text: string, time: int, row: Row)
    requires Decide(t, u) == Admit
    ensures !ValidJti(text) ==> Decide(t, u.(claim := u.claim.(jti := text))) == RejectInvalidJti
    ensures text != u.claim.providerId ==> Decide(t, u.(expectedProvider := text)) == RejectProviderBinding
    ensures text != u.claim.intent ==> Decide(t, u.(expectedIntent := text)) == RejectIntentBinding
    ensures time > u.now + Max0(u.skew) ==>
              Decide(t, u.(claim := u.claim.(notBefore := time))) == RejectNotYetValid
    ensures time <= u.now - Max0(u.skew) ==> Decide(t, u.(claim := u.claim.(expiresAt := time))) == RejectExpired
    ensures Decide(t[u.claim.jti := row], u) ==
            if row.state in {"completed", "failed", "cancelled", "expired", "rejected"}
            then RejectTerminal(row.state) else RejectReplay(row.state)
  {
    hide ValidJti;
  }

  // An admission records the ticket and nothing else.
  lemma AdmissionRecords(t: Table, u: Use, other: string)
    requires Decide(t, u) == Admit
    ensures var v := Consumed(t, u);
            && v.Keys == t.Keys + {u.claim.jti}
            && v[u.claim.jti].providerDigest == Digest(u.expectedProvider)
            && v[u.claim.jti].intentDigest == Digest(u.expectedIntent)
            && v[u.claim.jti].state == "accepted" && v[u.claim.jti].expiresAt == u.claim.expiresAt
            && v[u.claim.jti].consumedAt == u.now && v[u.claim.jti].updatedAt == u.now
            && (other in t ==> v[other] == t[other])
  {
    hide ValidJti;
  }

  // A transition moves the row to the state asked for, once; repeating it changes nothing, and
  // each refusal has its reason.
  lemma TransitionMeans(t: Table, jti: string, state: string, now: int)
    ensures var terminal := {"completed", "failed", "cancelled", "expired", "rejected"};
            var r, u := TransitionResult(t, jti, state, now), Transitioned(t, jti, state, now);
            && (r == Err(UnsupportedState) <==> state !in terminal)
            && (r == Err(UnknownJti) <==> state in terminal && jti !in t)
            && (r.Err? && r.error.AlreadyTerminal? <==>
                state in terminal && jti in t && t[jti].state in terminal && t[jti].state != state)
            && (r.Err? ==> u == t)
            && (r.Ok? ==>
                  && u.Keys == t.Keys && jti in u && u[jti] == r.value && u[jti].state == state
                  && (t[jti].state == state ==> u[jti] == t[jti])
                  && (t[jti].state != state ==> u[jti].updatedAt == now)
                  && (forall j :: j in t && j != jti ==> u[j] == t[j]))
  {
  }

  // ---- the store ----

  lemma {:induction false} EarliestExists(t: Table, some: set<string>)
    requires some != {} && some <= t.Keys
    ensures exists g :: g in some && forall k :: k in some ==> t[g].expiresAt <= t[k].expiresAt
    decreases |some|
  {
    var g :| g in some;
    if k0 :| k0 in some && t[k0].expiresAt < t[g].expiresAt {
      EarliestExists(t, some - {g});
      var h :| h in some - {g} && forall k :: k in some - {g} ==> t[h].expiresAt <= t[k].expiresAt;
      assert h in some && forall k :: k in some ==> t[h].expiresAt <= t[k].expiresAt;
    }
  }

  // ORDER BY expires_at, one row of the answer.
  method PickEarliest(t: Table, cutoff: int) returns (j: string)
    requires Expirable(t, cutoff) != {}
    ensures Earliest(t, cutoff, j)
  {
    EarliestExists(t, Expirable(t, cutoff));
    j :| j in Expirable(t, cutoff) && forall k :: k in Expirable(t, cutoff) ==> t[j].expiresAt <= t[k].expiresAt;
  }

  // `dbFails` is an error of the database inside the transaction, which rolls it back.
  class SqliteDispatchAdmissionStore {
    var table: Table

    constructor ()
      ensures table == map[]
    {
      table := map[];
    }

    method Consume(u: Use, dbFails: bool) returns (r: Result<Decision, StoreError>)
      modifies this
      ensures var d := Decide(old(table), u);
              if dbFails && (d.Admit? || d.RejectTerminal? || d.RejectReplay?)
              then r == Err(StorageError) && table == old(table)
              else r == Ok(d) && table == Consumed(old(table), u)
    {
      var skew := if u.skew < 0 then 0 else u.skew;
      if !ValidJti(u.claim.jti) {
        return Ok(RejectInvalidJti);
      }
      if u.claim.providerId != u.expectedProvider {
        return Ok(RejectProviderBinding);
      }
      if u.claim.intent != u.expectedIntent {
        return Ok(RejectIntentBinding);
      }
      if u.now + skew < u.claim.notBefore {
        return Ok(RejectNotYetValid);
      }
      if u.now - skew >= u.claim.expiresAt {
        return Ok(RejectExpired);
      }
      if dbFails {
        return Err(StorageError);
      }
      if u.claim.jti in table {
        var state := table[u.claim.jti].state;
        return Ok(if state in TERMINAL then RejectTerminal(state) else RejectReplay(state));
      }
      table := table[u.claim.jti := RowOf(u)];
      r := Ok(Admit);
    }

    method Transition(jti: string, state: string, now: int, dbFails: bool) returns (r: Result<Row, StoreError>)
      modifies this
      ensures var spec := TransitionResult(old(table), jti, state, now);
              if dbFails && state in TERMINAL then r == Err(StorageError) && table == old(table)
              else
                && r == (if spec.Ok? then Ok(spec.value) else Err(Refused(spec.error)))
                && table == Transitioned(old(table), jti, state, now)
    {
      if state !in TERMINAL {
        return Err(Refused(UnsupportedState));
      }
      if dbFails {
        return Err(StorageError);
      }
      if jti !in table {
        return Err(Refused(UnknownJti));
      }
      var row := table[jti];
      if row.state in TERMINAL && row.state != state {
        return Err(Refused(AlreadyTerminal(row.state)));
      }
      if row.state != state {
        table := table[jti := row.(state := state, updatedAt := now)];
      }
      r := Ok(table[jti]);
    }

    method Cleanup(now: int, retention: int, limit: int) returns (removed: nat)
      modifies this
      ensures CleanedUp(old(table), table, now - Max0(retention), if limit < 1 then 1 else limit)
      ensures removed == GoneCount(old(table), table)
    {
      hide EarliestGone, CleanedUp, Earliest, Expirable, GoneCount;
      var cap := if limit < 1 then 1 else limit;
      var cutoff := now - Max0(retention);
      removed := 0;
      ghost var was := table;
      NoneGone(was, cutoff);
      while removed < cap && Expirable(table, cutoff) != {}
        invariant EarliestGone(was, table, cutoff) && GoneCount(was, table) == removed <= cap
        decreases cap - removed
      {
        var j := PickEarliest(table, cutoff);
        DeleteEarliest(was, table, cutoff, j);
        table := table - {j};
        removed := removed + 1;
      }
      DeletedEnough(was, table, cutoff, cap);
    }
  }

  // Trust comes first; a store that cannot answer refuses.
  method EvaluateDispatchAdmission(store: SqliteDispatchAdmissionStore, u: Use, trustVerified: bool, dbFails: bool)
    returns (d: Decision)
    modifies store
    ensures !trustVerified ==> d == RejectIssuerKey && store.table == old(store.table)
    ensures trustVerified ==>
              var asked := Decide(old(store.table), u);
              if dbFails && (asked.Admit? || asked.RejectTerminal? || asked.RejectReplay?)
              then d == RejectStoreUnavailable && store.table == old(store.table)
              else d == asked && store.table == Consumed(old(store.table), u)
    ensures d == Admit <==> store.table != old(store.table)
  {
    if !trustVerified {
      return RejectIssuerKey;
    }
    var r := store.Consume(u, dbFails);
    d := if r.Ok? then r.value else RejectStoreUnavailable;
  }

  // ---- runs ----

  datatype Op =
    | OpConsume(use: Use)
    | OpTransition(jti: string, state: string, at: int)
    | OpCleanup(time: int, retention: int, limit: int)
    | OpFailed(when: int)

  function Time(op: Op): int {
    match op
    case OpConsume(u) => u.now
    case OpTransition(_, _, at) => at
    case OpCleanup(time, _, _) => time
    case OpFailed(when) => when
  }

  ghost predicate Next(t: Table, op: Op, u: Table) {
    match op
    case OpConsume(use) => u == Consumed(t, use)
    case OpTransition(jti, state, at) => u == Transitioned(t, jti, state, at)
    case OpCleanup(time, retention, limit) => CleanedUp(t, u, time - Max0(retention), if limit < 1 then 1 else limit)
    case OpFailed(_) => u == t
  }

  // tables[k] is the table before ops[k]; the clock never goes back.
  ghost predicate IsRun(ops: seq<Op>, tables: seq<Table>) {
    && |tables| == |ops| + 1
    && (forall k :: 0 <= k < |ops| ==> Next(tables[k], ops[k], tables[k + 1]))
    && (forall k, l :: 0 <= k <= l < |ops| ==> Time(ops[k]) <= Time(ops[l]))
  }

  predicate Accepts(ops: seq<Op>, tables: seq<Table>, k: nat, jti: string)
    requires k < |ops| && |tables| == |ops| + 1
  {
    ops[k].OpConsume? && ops[k].use.claim.jti == jti && Decide(tables[k], ops[k].use) == Admit
  }

  // Every claim presented for `jti` carries the same expiry.
  ghost predicate OneExpiry(ops: seq<Op>, jti: string, expiry: int) {
    forall k :: 0 <= k < |ops| && ops[k].OpConsume? && ops[k].use.claim.jti == jti ==>
      ops[k].use.claim.expiresAt == expiry
  }

  // After an acceptance the row is there, until a cleanup whose cutoff lies past the expiry.
  lemma {:induction false} RowUntilCleanup(ops: seq<Op>, tables: seq<Table>, i: nat, k: nat, jti: string, expiry: int)
    requires IsRun(ops, tables) && OneExpiry(ops, jti, expiry)
    requires i < k <= |ops| && Accepts(ops, tables, i, jti)
    ensures (jti in tables[k] && tables[k][jti].expiresAt == expiry)
            || exists m :: i < m < k && ops[m].OpCleanup? && expiry < ops[m].time - Max0(ops[m].retention)
  {
    hide Next, Decide;
    if k == i + 1 {
      AcceptanceInserts(tables[i], ops[i], tables[k], jti);
    } else {
      RowUntilCleanup(ops, tables, i, k - 1, jti, expiry);
      var m := k - 1;
      assert Next(tables[m], ops[m], tables[m + 1]);
      if jti in tables[m] && tables[m][jti].expiresAt == expiry {
        RowStep(tables[m], ops[m], tables[k], jti);
      }
    }
  }

  lemma AcceptanceInserts(t: Table, op: Op, u: Table, jti: string)
    requires Next(t, op, u) && op.OpConsume? && op.use.claim.jti == jti && Decide(t, op.use) == Admit
    ensures jti in u && u[jti].expiresAt == op.use.claim.expiresAt && u[jti].state !in TERMINAL
  {
  }

  // Only a cleanup past its expiry removes a row, and nothing else touches more than its state.
  lemma RowStep(t: Table, op: Op, u: Table, jti: string)
    requires Next(t, op, u) && jti in t
    ensures jti !in u ==> op.OpCleanup? && t[jti].expiresAt < op.time - Max0(op.retention)
    ensures jti in u ==>
              && u[jti].(state := t[jti].state, updatedAt := t[jti].updatedAt) == t[jti]
              && (t[jti].state in TERMINAL ==> u[jti] == t[jti])
              && (u[jti].state == t[jti].state || u[jti].state in TERMINAL)
  {
    hide ValidJti, RowOf, GoneCount;
    if jti !in u {
      assert jti in t.Keys - u.Keys;
    }
  }

  // A second acceptance needs a cleanup before it whose retention the skew exceeds by two.
  lemma SecondAcceptanceNeeds(ops: seq<Op>, tables: seq<Table>, i: nat, j: nat, jti: string, expiry: int)
    requires IsRun(ops, tables) && OneExpiry(ops, jti, expiry)
    requires i < j < |ops| && Accepts(ops, tables, i, jti) && Accepts(ops, tables, j, jti)
    ensures exists m :: i < m < j && ops[m].OpCleanup? && Max0(ops[j].use.skew) >= Max0(ops[m].retention) + 2
  {
    RowUntilCleanup(ops, tables, i, j, jti, expiry);
    var m :| i < m < j && ops[m].OpCleanup? && expiry < ops[m].time - Max0(ops[m].retention);
    assert Time(ops[m]) <= Time(ops[j]);
    assert ops[j].use.claim.expiresAt == expiry;
  }

  // Every skew used is at most `skew` and every retention at least `retention`.
  ghost predicate Within(ops: seq<Op>, skew: nat, retention: nat) {
    forall k :: 0 <= k < |ops| ==>
      && (ops[k].OpConsume? ==> Max0(ops[k].use.skew) <= skew)
      && (ops[k].OpCleanup? ==> Max0(ops[k].retention) >= retention)
  }

  ghost predicate AcceptedTwice(ops: seq<Op>, tables: seq<Table>, jti: string, expiry: int, skew: nat, retention: nat) {
    && IsRun(ops, tables) && tables[0] == map[] && OneExpiry(ops, jti, expiry) && Within(ops, skew, retention)
    && exists i, j :: 0 <= i < j < |ops| && Accepts(ops, tables, i, jti) && Accepts(ops, tables, j, jti)
  }

  // Single use holds over every run exactly when no skew exceeds the retention by more than
  // one second.
  lemma SingleUseThreshold(skew: nat, retention: nat)
    ensures (forall ops, tables, jti, expiry :: !AcceptedTwice(ops, tables, jti, expiry, skew, retention))
            <==> skew <= retention + 1
  {
    if skew <= retention + 1 {
      forall ops, tables, jti, expiry ensures !AcceptedTwice(ops, tables, jti, expiry, skew, retention) {
        if AcceptedTwice(ops, tables, jti, expiry, skew, retention) {
          var i, j :| 0 <= i < j < |ops| && Accepts(ops, tables, i, jti) && Accepts(ops, tables, j, jti);
          SecondAcceptanceNeeds(ops, tables, i, j, jti, expiry);
        }
      }
    } else {
      var ops, tables, jti := DoubleAcceptance(skew, retention);
    }
  }

  function SomeJti(): (jti: string)
    ensures ValidJti(jti)
  {
    seq(16, _ => 'j')
  }

  // The run that accepts twice: accept just before the expiry, clean up as soon as the row may
  // go, and present the ticket again at the same moment with the full skew.
  lemma DoubleAcceptance(skew: nat, retention: nat) returns (ops: seq<Op>, tables: seq<Table>, jti: string)
    requires skew >= retention + 2
    ensures AcceptedTwice(ops, tables, jti, 100, skew, retention)
  {
    jti := SomeJti();
    hide ValidJti, SomeJti;
    var c := Claim(jti, "p", "i", 0, 100);
    var first, later := Use(c, "p", "i", 50, 0), Use(c, "p", "i", 101 + retention, skew);
    var none: Table, full: Table := map[], map[jti := Row(Digest("p"), Digest("i"), ACCEPTED, 100, 50, 50)];
    ops := [OpConsume(first), OpCleanup(101 + retention, retention, 1), OpConsume(later)];
    tables := [none, full, none, Consumed(none, later)];
    RemovesTheRow(full, jti, 101);
    hide CleanedUp, GoneCount, EarliestGone, Expirable;
    assert Consumed(none, first) == full;
    assert Next(tables[0], ops[0], tables[1]) && Next(tables[1], ops[1], tables[2])
      && Next(tables[2], ops[2], tables[3]);
    assert Accepts(ops, tables, 0, jti) && Accepts(ops, tables, 2, jti);
  }

  lemma RemovesTheRow(full: Table, jti: string, cutoff: int)
    requires full.Keys == {jti} && full[jti].expiresAt < cutoff
    ensures CleanedUp(full, map[], cutoff, 1)
  {
    var none: Table := map[];
    assert full - {jti} == none && full.Keys - none.Keys == {jti};
    assert Expirable(full, cutoff) == {jti};
  }

  // ---- the life of a row ----

  // While a row stays in the table it keeps its identity and its expiry, a terminal row never
  // changes at all, and so the row leaves "accepted" at most once.
  lemma {:induction false} RowLife(ops: seq<Op>, tables: seq<Table>, k: nat, l: nat, jti: string)
    requires IsRun(ops, tables) && k <= l <= |ops|
    requires forall m :: k <= m <= l ==> jti in tables[m]
    ensures var a, b := tables[k][jti], tables[l][jti];
            && b.(state := a.state, updatedAt := a.updatedAt) == a
            && (a.state in TERMINAL ==> b == a)
            && (b.state == a.state || b.state in TERMINAL)
  {
    if k < l {
      hide Next;
      RowLife(ops, tables, k, l - 1, jti);
      assert Next(tables[l - 1], ops[l - 1], tables[l - 1 + 1]);
      RowStep(tables[l - 1], ops[l - 1], tables[l], jti);
    }
  }

  // Between an acceptance and the first cleanup whose cutoff lies past the expiry, whatever else
  // happens, every presentation of the ticket is refused and changes nothing - as a replay until
  // the row was moved to a terminal state, by that state from then on.
  lemma RefusedUntilCleanup(ops: seq<Op>, tables: seq<Table>, i: nat, j: nat, jti: string, expiry: int)
    requires IsRun(ops, tables) && OneExpiry(ops, jti, expiry)
    requires i < j < |ops| && Accepts(ops, tables, i, jti) && ops[j].OpConsume? && ops[j].use.claim.jti == jti
    requires forall m :: i < m < j && ops[m].OpCleanup? ==> ops[m].time - Max0(ops[m].retention) <= expiry
    ensures Decide(tables[j], ops[j].use) != Admit && tables[j + 1] == tables[j]
    ensures Decide(tables[j], ops[j].use).RejectTerminal? ==>
              exists m :: i < m < j && ops[m].OpTransition? && ops[m].jti == jti && ops[m].state in TERMINAL
  {
    RowUntilCleanup(ops, tables, i, j, jti, expiry);
    RowRefuses(tables[j], ops[j].use);
    assert Next(tables[j], ops[j], tables[j + 1]);
    if Decide(tables[j], ops[j].use).RejectTerminal? {
      TerminalByTransition(ops, tables, i, j, jti, expiry);
    }
  }

  // A row leaves "accepted" only by a transition.
  lemma {:induction false} TerminalByTransition(ops: seq<Op>, tables: seq<Table>, i: nat, j: nat, jti: string,
    expiry: int)
    requires IsRun(ops, tables) && OneExpiry(ops, jti, expiry) && i < j <= |ops| && Accepts(ops, tables, i, jti)
    requires forall m :: i < m < j && ops[m].OpCleanup? ==> ops[m].time - Max0(ops[m].retention) <= expiry
    requires jti in tables[j] && tables[j][jti].state in TERMINAL
    ensures exists m :: i < m < j && ops[m].OpTransition? && ops[m].jti == jti && ops[m].state in TERMINAL
  {
    hide Next, Decide;
    var k := j - 1;
    assert Next(tables[k], ops[k], tables[k + 1]);
    if k == i {
      AcceptanceInserts(tables[i], ops[i], tables[j], jti);
    } else {
      RowUntilCleanup(ops, tables, i, k, jti, expiry);
      if tables[k][jti].state in TERMINAL {
        TerminalByTransition(ops, tables, i, k, jti, expiry);
      } else {
        TransitionEnds(tables[k], ops[k], tables[j], jti);
      }
    }
  }

  lemma TransitionEnds(t: Table, op: Op, u: Table, jti: string)
    requires Next(t, op, u) && jti in t && t[jti].state !in TERMINAL && jti in u && u[jti].state in TERMINAL
    ensures op.OpTransition? && op.jti == jti && op.state in TERMINAL
  {
    hide ValidJti;
  }

  // As long as the row is there every presentation of the ticket is refused, as a replay or by
  // its terminal state.
  lemma RowRefuses(t: Table, u: Use)
    requires u.claim.jti in t
    ensures Decide(t, u) != Admit && Consumed(t, u) == t
    ensures Decide(t, u).RejectTerminal? ==> t[u.claim.jti].state in TERMINAL
    ensures Decide(t, u).RejectReplay? ==> t[u.claim.jti].state !in TERMINAL
  {
  }
}
