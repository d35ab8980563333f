// The two fixed-window limiters that prune their own maps: per origin for tasks, per source
// for relay binds.
module RateLimits {
  const PRUNE_ABOVE := 4096

  // A window's start and the requests counted in it.
  datatype Bucket = Bucket(start: int, count: nat)

  type Buckets = map<string, Bucket>

  // The task limiter keeps a bucket exactly one window old, the bind limiter drops it.
  datatype Rule = Rule(limit: int, window: int, keepsBoundary: bool)

  predicate ValidRule(r: Rule) {
    r.window > 0
  }

  function Touched(r: Rule, b: Buckets, key: string, now: int): Bucket {
    var found := if key in b then b[key] else Bucket(now, 0);
    var current := if now - found.start >= r.window then Bucket(now, 0) else found;
    current.(count := current.count + 1)
  }

  predicate Keeps(r: Rule, bucket: Bucket, now: int) {
    if r.keepsBoundary then bucket.start >= now - r.window else now - bucket.start < r.window
  }

  function Prune(r: Rule, b: Buckets, now: int): Buckets {
    map k | k in b && Keeps(r, b[k], now) :: b[k]
  }

  // The map of the code, and the map of a limiter that never deletes a bucket.
  function Pruned(r: Rule, b: Buckets, key: string, now: int): Buckets {
    var c := b[key := Touched(r, b, key, now)];
    if |c| > PRUNE_ABOVE then Prune(r, c, now) else c
  }

  function Unpruned(r: Rule, b: Buckets, key: string, now: int): Buckets {
    b[key := Touched(r, b, key, now)]
  }

  predicate Admits(r: Rule, b: Buckets, key: string, now: int) {
    Touched(r, b, key, now).count <= r.limit
  }

  class RateLimiter {
    const rule: Rule
    var buckets: Buckets

    constructor (rule: Rule)
      ensures this.rule == rule && buckets == map[]
    {
      this.rule := rule;
      buckets := map[];
    }

    method Allow(key: string, now: int) returns (allowed: bool)
      modifies this
      ensures allowed == Admits(rule, old(buckets), key, now)
      ensures buckets == Pruned(rule, old(buckets), key, now)
    {
      var start, count := now, 0;
      if key in buckets {
        start, count := buckets[key].start, buckets[key].count;
      }
      if now - start >= rule.window {
        start, count := now, 0;
      }
      count := count + 1;
      buckets := buckets[key := Bucket(start, count)];
      if |buckets| > PRUNE_ABOVE {
        buckets := map k | k in buckets && Keeps(rule, buckets[k], now) :: buckets[k];
      }
      allowed := count <= rule.limit;
    }

    // The bind limiter's own gate: reconnects and a limit of zero are not counted at all.
    method AllowBind(source: string, rebind: bool, now: int) returns (allowed: bool)
      modifies this
      ensures rebind || rule.limit == 0 ==> allowed && buckets == old(buckets)
      ensures !rebind && rule.limit != 0 ==>
                allowed == Admits(rule, old(buckets), source, now) && buckets == Pruned(rule, old(buckets), source, now)
    {
      if rebind || rule.limit == 0 {
        return true;
      }
      allowed := Allow(source, now);
    }
  }

  // ---- traces under a clock that never goes back ----

  datatype Request = Request(key: string, at: int)

  ghost predicate Ordered(trace: seq<Request>, from: int) {
    trace != [] ==> from <= trace[0].at && Ordered(trace[1..], trace[0].at)
  }

  function PrunedAnswers(r: Rule, b: Buckets, trace: seq<Request>): seq<bool>
    decreases trace
  {
    if trace == [] then []
    else
      [Admits(r, b, trace[0].key, trace[0].at)]
      + PrunedAnswers(r, Pruned(r, b, trace[0].key, trace[0].at), trace[1..])
  }

  function UnprunedAnswers(r: Rule, b: Buckets, trace: seq<Request>): seq<bool>
    decreases trace
  {
    if trace == [] then []
    else
      [Admits(r, b, trace[0].key, trace[0].at)]
      + UnprunedAnswers(r, Unpruned(r, b, trace[0].key, trace[0].at), trace[1..])
  }

  // ---- pruning cannot be seen ----

  // What was pruned has run out.
  ghost predicate Related(r: Rule, p: Buckets, u: Buckets, now: int) {
    && (forall k :: k in p ==> k in u && p[k] == u[k])
    && (forall k :: k in u && k !in p ==> now - u[k].start >= r.window)
  }

  lemma StepRelated(r: Rule, p: Buckets, u: Buckets, before: int, key: string, now: int)
    requires ValidRule(r) && Related(r, p, u, before) && before <= now
    ensures Admits(r, p, key, now) == Admits(r, u, key, now)
    ensures Related(r, Pruned(r, p, key, now), Unpruned(r, u, key, now), now)
  {
    assert Touched(r, p, key, now) == Touched(r, u, key, now);
  }

  lemma {:induction false} SameAnswers(r: Rule, p: Buckets, u: Buckets, trace: seq<Request>, from: int)
    requires ValidRule(r) && Related(r, p, u, from) && Ordered(trace, from)
    ensures PrunedAnswers(r, p, trace) == UnprunedAnswers(r, u, trace)
    decreases trace
  {
    if trace != [] {
      StepRelated(r, p, u, from, trace[0].key, trace[0].at);
      SameAnswers(r, Pruned(r, p, trace[0].key, trace[0].at), Unpruned(r, u, trace[0].key, trace[0].at),
                  trace[1..], trace[0].at);
    }
  }

  // Both limiters answer every request as if they never deleted a bucket.
  lemma PruningIsInvisible(r: Rule, trace: seq<Request>, from: int)
    requires ValidRule(r) && Ordered(trace, from)
    ensures PrunedAnswers(r, map[], trace) == UnprunedAnswers(r, map[], trace)
  {
    SameAnswers(r, map[], map[], trace, from);
  }

  // ---- the exact answers, from the trace alone ----

  // The last request of `key` before position k, or -1.
  function LastOf(trace: seq<Request>, k: nat, key: string): (p: int)
    requires k <= |trace|
    ensures -1 <= p < k && (p >= 0 ==> trace[p].key == key)
    ensures forall j :: p < j < k ==> trace[j].key != key
  {
    if k == 0 then -1 else if trace[k - 1].key == key then k - 1 else LastOf(trace, k - 1, key)
  }

  // The request that opened the window of request k: windows of a key open at its first request,
  // and then at the first one a window's length after the last opening.
  function OpenerOf(trace: seq<Request>, window: int, k: nat): (o: nat)
    requires k < |trace|
    ensures o <= k && trace[o].key == trace[k].key
    decreases k
  {
    var p := LastOf(trace, k, trace[k].key);
    if p < 0 || trace[k].at - trace[OpenerOf(trace, window, p)].at >= window then k else OpenerOf(trace, window, p)
  }

  // The requests of `key` at positions o to k.
  function CountOf(trace: seq<Request>, o: nat, k: nat, key: string): nat
    requires o <= k < |trace|
  {
    (if o < k then CountOf(trace, o, k - 1, key) else 0) + if trace[k].key == key then 1 else 0
  }

  function After(r: Rule, b: Buckets, trace: seq<Request>): Buckets {
    if trace == [] then b
    else
      var last := trace[|trace| - 1];
      Unpruned(r, After(r, b, trace[..|trace| - 1]), last.key, last.at)
  }

  lemma {:induction false} AfterFront(r: Rule, b: Buckets, q: Request, rest: seq<Request>)
    ensures After(r, b, [q] + rest) == After(r, Unpruned(r, b, q.key, q.at), rest)
  {
    hide Unpruned;
    if rest == [] {
      assert [q] + rest == [q] && [q][..0] == [];
    } else {
      assert ([q] + rest)[..|rest|] == [q] + rest[..|rest| - 1];
      AfterFront(r, b, q, rest[..|rest| - 1]);
    }
  }

  lemma {:induction false} AnswerAt(r: Rule, b: Buckets, trace: seq<Request>, k: nat)
    requires k < |trace|
    ensures |UnprunedAnswers(r, b, trace)| == |trace|
    ensures UnprunedAnswers(r, b, trace)[k] == Admits(r, After(r, b, trace[..k]), trace[k].key, trace[k].at)
    decreases trace
  {
    hide Admits, Unpruned;
    AnswerEach(r, b, trace);
    var c := Unpruned(r, b, trace[0].key, trace[0].at);
    if k > 0 {
      AnswerAt(r, c, trace[1..], k - 1);
      assert trace[..k] == [trace[0]] + trace[1..][..k - 1];
      AfterFront(r, b, trace[0], trace[1..][..k - 1]);
    }
  }

  lemma {:induction false} CountSkips(trace: seq<Request>, o: nat, p: nat, k: nat, key: string)
    requires o <= p <= k < |trace| && forall j :: p < j <= k ==> trace[j].key != key
    ensures CountOf(trace, o, k, key) == CountOf(trace, o, p, key)
  {
    if p < k {
      CountSkips(trace, o, p, k - 1, key);
    }
  }

  // The bucket of a key holds the opening and the count of its running window.
  lemma {:induction false} BucketIs(r: Rule, trace: seq<Request>, k: nat, key: string)
    requires k <= |trace|
    ensures var p, b := LastOf(trace, k, key), After(r, map[], trace[..k]);
            if p < 0 then key !in b
            else
              var o := OpenerOf(trace, r.window, p);
              key in b && b[key] == Bucket(trace[o].at, CountOf(trace, o, p, key))
  {
    if k > 0 {
      var q := trace[k - 1];
      assert trace[..k][..k - 1] == trace[..k - 1];
      BucketIs(r, trace, k - 1, key);
      if q.key == key {
        var p := LastOf(trace, k - 1, key);
        var o := OpenerOf(trace, r.window, k - 1);
        if p >= 0 && o < k - 1 {
          CountSkips(trace, o, p, k - 2, key);
        }
      }
    }
  }

  // Over every trace, in time order or not: request k is admitted exactly when it is among the
  // first `limit` of its window.
  lemma AnswersExactly(r: Rule, trace: seq<Request>, k: nat)
    requires k < |trace|
    ensures |UnprunedAnswers(r, map[], trace)| == |trace|
    ensures UnprunedAnswers(r, map[], trace)[k] <==>
            CountOf(trace, OpenerOf(trace, r.window, k), k, trace[k].key) <= r.limit
  {
    AnswerAt(r, map[], trace, k);
    BucketIs(r, trace, k, trace[k].key);
    var p, o := LastOf(trace, k, trace[k].key), OpenerOf(trace, r.window, k);
    if p >= 0 && o < k {
      CountSkips(trace, o, p, k - 1, trace[k].key);
    }
  }

  // The requests of k's key in the last window length, k itself included.
  function Recent(trace: seq<Request>, window: int, n: nat, k: nat): nat
    requires n <= k < |trace|
  {
    (if n > 0 then Recent(trace, window, n - 1, k) else 0)
    + if trace[n].key == trace[k].key && trace[n].at > trace[k].at - window then 1 else 0
  }

  lemma {:induction false} OrderedAt(trace: seq<Request>, from: int, i: nat, j: nat)
    requires Ordered(trace, from) && i <= j < |trace|
    ensures from <= trace[i].at <= trace[j].at
    decreases trace
  {
    if j > 0 {
      OrderedAt(trace[1..], trace[0].at, if i == 0 then 0 else i - 1, j - 1);
    }
  }

  lemma {:induction false} RecentCovers(r: Rule, trace: seq<Request>, o: nat, n: nat, k: nat)
    requires o <= n <= k < |trace|
    requires forall j :: o <= j <= n && trace[j].key == trace[k].key ==> trace[j].at > trace[k].at - r.window
    ensures CountOf(trace, o, n, trace[k].key) <= Recent(trace, r.window, n, k)
  {
    if o < n {
      RecentCovers(r, trace, o, n - 1, k);
    }
  }

  // In time order, whoever has made at most `limit` requests in the last window length is
  // admitted, however many he made before.
  lemma FewAreAdmitted(r: Rule, trace: seq<Request>, from: int, k: nat)
    requires ValidRule(r) && Ordered(trace, from) && k < |trace|
    requires Recent(trace, r.window, k, k) <= r.limit
    ensures |PrunedAnswers(r, map[], trace)| == |trace| && PrunedAnswers(r, map[], trace)[k]
  {
    PruningIsInvisible(r, trace, from);
    AnswersExactly(r, trace, k);
    var o := OpenerOf(trace, r.window, k);
    forall j | o <= j <= k ensures trace[j].at > trace[k].at - r.window {
      OrderedAt(trace, from, o, j);
      InWindow(r, trace, k);
    }
    RecentCovers(r, trace, o, k, k);
  }

  lemma InWindow(r: Rule, trace: seq<Request>, k: nat)
    requires ValidRule(r) && k < |trace|
    ensures trace[k].at - trace[OpenerOf(trace, r.window, k)].at < r.window
  {
  }

  // ---- how many get through ----

  // The admitted requests of `key` in the closed interval of one window from `lo`.
  function Through(r: Rule, trace: seq<Request>, answers: seq<bool>, key: string, lo: int): nat
    requires |trace| == |answers|
  {
    if trace == [] then 0
    else
      (if trace[0].key == key && lo <= trace[0].at <= lo + r.window && answers[0] then 1 else 0)
      + Through(r, trace[1..], answers[1..], key, lo)
  }

  function Positive(n: int): nat {
    if n < 0 then 0 else n
  }

  // The most that can still get through in that interval, from `now` on: what the running
  // window has left, and another window's worth if a new one can still start in it.
  function Room(r: Rule, b: Buckets, key: string, lo: int, now: int): nat {
    if now > lo + r.window then 0
    else if key !in b || lo - b[key].start >= r.window then 2 * Positive(r.limit)
    else if b[key].start > lo then Positive(r.limit - b[key].count)
    else Positive(r.limit - b[key].count) + Positive(r.limit)
  }

  lemma RoomShrinks(r: Rule, b: Buckets, key: string, lo: int, before: int, q: Request)
    requires ValidRule(r) && before <= q.at && (key in b ==> b[key].start <= before)
    ensures var c := Unpruned(r, b, q.key, q.at);
            && Room(r, c, key, lo, q.at)
               + (if q.key == key && lo <= q.at <= lo + r.window && Admits(r, b, q.key, q.at) then 1 else 0)
               <= Room(r, b, key, lo, before)
            && (key in c ==> c[key].start <= q.at)
  {
  }

  lemma {:induction false} ThroughFitsRoom(r: Rule, b: Buckets, trace: seq<Request>, key: string, lo: int, from: int)
    requires ValidRule(r) && Ordered(trace, from) && (key in b ==> b[key].start <= from)
    ensures |UnprunedAnswers(r, b, trace)| == |trace|
    ensures Through(r, trace, UnprunedAnswers(r, b, trace), key, lo) <= Room(r, b, key, lo, from)
    decreases trace
  {
    if trace != [] {
      var q := trace[0];
      RoomShrinks(r, b, key, lo, from, q);
      ThroughFitsRoom(r, Unpruned(r, b, q.key, q.at), trace[1..], key, lo, q.at);
      assert UnprunedAnswers(r, b, trace)[1..] == UnprunedAnswers(r, Unpruned(r, b, q.key, q.at), trace[1..]);
    }
  }

  // In any interval of one window, ends included, a key gets at most twice its limit through.
  lemma AtMostTwiceTheLimit(r: Rule, trace: seq<Request>, from: int, key: string, lo: int)
    requires ValidRule(r) && Ordered(trace, from)
    ensures |PrunedAnswers(r, map[], trace)| == |trace|
    ensures Through(r, trace, PrunedAnswers(r, map[], trace), key, lo) <= 2 * Positive(r.limit)
  {
    PruningIsInvisible(r, trace, from);
    ThroughFitsRoom(r, map[], trace, key, lo, from);
  }

  // ---- and twice the limit does get through ----

  // `n` requests at one moment, before `rest`.
  function Burst(key: string, at: int, n: nat, rest: seq<Request>): seq<Request> {
    if n == 0 then rest else [Request(key, at)] + Burst(key, at, n - 1, rest)
  }

  // What of them gets through from `b`, as long as the limit allows it.
  function Reached(r: Rule, b: Buckets, trace: seq<Request>, key: string, lo: int): nat {
    AnswerEach(r, b, trace);
    Through(r, trace, UnprunedAnswers(r, b, trace), key, lo)
  }

  lemma {:induction false} AnswerEach(r: Rule, b: Buckets, trace: seq<Request>)
    ensures |UnprunedAnswers(r, b, trace)| == |trace|
    decreases trace
  {
    if trace != [] {
      AnswerEach(r, Unpruned(r, b, trace[0].key, trace[0].at), trace[1..]);
    }
  }

  lemma OneMore(r: Rule, b: Buckets, key: string, at: int, rest: seq<Request>, lo: int)
    requires lo <= at <= lo + r.window && Admits(r, b, key, at)
    ensures Reached(r, b, [Request(key, at)] + rest, key, lo) == 1 + Reached(r, Unpruned(r, b, key, at), rest, key, lo)
  {
    var trace := [Request(key, at)] + rest;
    assert trace[1..] == rest;
    assert UnprunedAnswers(r, b, trace)[1..] == UnprunedAnswers(r, Unpruned(r, b, key, at), rest);
  }

  lemma {:induction false} BurstReaches(r: Rule, b: Buckets, key: string, at: int, n: nat, rest: seq<Request>, lo: int)
    requires ValidRule(r) && key in b && b[key].start == at && b[key].count + n <= r.limit
    requires lo <= at <= lo + r.window
    ensures Reached(r, b, Burst(key, at, n, rest), key, lo)
            == n + Reached(r, b[key := Bucket(at, b[key].count + n)], rest, key, lo)
    decreases n
  {
    hide Reached;
    if n == 0 {
      assert b[key := Bucket(at, b[key].count)] == b;
    } else {
      var c := Unpruned(r, b, key, at);
      OneMore(r, b, key, at, Burst(key, at, n - 1, rest), lo);
      BurstReaches(r, c, key, at, n - 1, rest, lo);
      assert c[key := Bucket(at, c[key].count + (n - 1))] == b[key := Bucket(at, b[key].count + n)];
    }
  }

  // A burst that opens a window fills it.
  lemma WindowReaches(r: Rule, b: Buckets, key: string, at: int, rest: seq<Request>, lo: int)
    requires ValidRule(r) && r.limit > 0 && (key in b ==> at - b[key].start >= r.window)
    requires lo <= at <= lo + r.window
    ensures Reached(r, b, Burst(key, at, r.limit, rest), key, lo)
            == r.limit + Reached(r, b[key := Bucket(at, r.limit)], rest, key, lo)
  {
    var c := Unpruned(r, b, key, at);
    OneMore(r, b, key, at, Burst(key, at, r.limit - 1, rest), lo);
    hide Reached;
    BurstReaches(r, c, key, at, r.limit - 1, rest, lo);
    assert c[key := Bucket(at, 1 + (r.limit - 1))] == b[key := Bucket(at, r.limit)];
  }

  // The bound is reached: a full window at each end of the interval.
  lemma TwiceIsReached(r: Rule, key: string)
    requires ValidRule(r) && r.limit > 0
    ensures Reached(r, map[], Burst(key, 0, r.limit, Burst(key, r.window, r.limit, [])), key, 0) == 2 * r.limit
  {
    var b: Buckets := map[];
    WindowReaches(r, b, key, 0, Burst(key, r.window, r.limit, []), 0);
    WindowReaches(r, b[key := Bucket(0, r.limit)], key, r.window, [], 0);
  }
}
