// The opt-in dispatch-ticket verifier and its local replay cache.
module TicketVerifier {
  import opened Common
  import opened TrustBundles

  // A value of the claims object. Unhashable stands for lists and objects.
  datatype ClaimValue = Str(s: string) | Num(n: int) | Null | Unhashable

  type Claims = map<string, ClaimValue>

  const REQUIRED: set<string> :=
    {"profile", "issuer", "provider_id", "intent", "expires_at", "jti", "constraints_digest", "key_id"}

  datatype Bindings = Bindings(
    issuer: string, providerId: string, intent: string, constraintsDigest: string, audience: Option<string>)

  datatype Code =
    | RejectBundleRollback | RejectBundleNotYetValid | RejectBundleExpired | RejectDowngrade | RejectUnknownKey
    | RejectKeyRevoked | RejectKeyExpired | RejectProfileNotAllowed | RejectIssuer | RejectAudience
    | RejectClaimMismatch | RejectSignature | RejectLocalReplay | AcceptAnchored
    | RaisedTypeError  // membership test of an unhashable value

  function Get(c: Claims, name: string): ClaimValue {
    if name in c then c[name] else Null
  }

  // Python's int() on a claim, and the signature check; both are the platform's.
  datatype Platform = Platform(toInt: ClaimValue -> Option<int>, signatureOk: (string, Claims, TrustKey) -> bool)

  predicate Listed(v: ClaimValue, names: set<string>) {
    v.Str? && v.s in names
  }

  // ---- the replay cache ----

  type Cache = map<string, int>

  function Fresh(cache: Cache, now: int): Cache {
    map k | k in cache && cache[k] > now :: cache[k]
  }

  class LocalReplayCache {
    var seen: Cache

    constructor ()
      ensures seen == map[]
    {
      seen := map[];
    }

    method Contains(jti: string, now: int) returns (r: bool)
      modifies this
      ensures seen == Fresh(old(seen), now)
      ensures r <==> jti in seen
    {
      seen := map k | k in seen && seen[k] > now :: seen[k];
      r := jti in seen;
    }

    method Remember(jti: string, expiresAt: int)
      modifies this
      ensures seen == old(seen)[jti := expiresAt]
    {
      seen := seen[jti := expiresAt];
    }
  }

  // ---- one verification ----

  datatype Request = Request(
    claims: Claims, signature: string, bundle: TrustBundle, bindings: Bindings, now: int, minimumVersion: int)

  // Everything before the cache is asked: a refusal, or the id and expiry of a ticket in order.
  datatype Checked = Refused(code: Code) | InOrder(jti: string, expiresAt: int)

  function CheckKey(q: Request): Option<Code> {
    if q.bundle.version < q.minimumVersion then Some(RejectBundleRollback)
    else if q.bundle.validFrom.Some? && q.now < q.bundle.validFrom.value then Some(RejectBundleNotYetValid)
    else if q.bundle.validUntil.Some? && q.now > q.bundle.validUntil.value then Some(RejectBundleExpired)
    else if !(REQUIRED <= q.claims.Keys) || Get(q.claims, "profile") != Str(PROFILE) then Some(RejectDowngrade)
    else
      var id := Get(q.claims, "key_id");
      if !id.Str? || id.s !in q.bundle.keys then Some(RejectUnknownKey)
      else
        var key := q.bundle.keys[id.s];
        if key.state == "revoked" then Some(RejectKeyRevoked)
        else if !(key.validFrom <= q.now <= key.validUntil) then Some(RejectKeyExpired)
        else if PROFILE !in key.allowedProfiles then Some(RejectProfileNotAllowed)
        else None
  }

  function KeyOf(q: Request): TrustKey
    requires CheckKey(q).None?
  {
    q.bundle.keys[q.claims["key_id"].s]
  }

  function CheckScope(q: Request): Option<Code>
    requires CheckKey(q).None?
  {
    var key, issuer, audience := KeyOf(q), Get(q.claims, "issuer"), Get(q.claims, "audience");
    if key.issuers != {} && issuer == Unhashable then Some(RaisedTypeError)
    else if key.issuers != {} && !Listed(issuer, key.issuers) then Some(RejectIssuer)
    else if key.audiences != {} && audience == Unhashable then Some(RaisedTypeError)
    else if key.audiences != {} && !Listed(audience, key.audiences) then Some(RejectAudience)
    else if !(issuer == Str(q.bindings.issuer) && Get(q.claims, "provider_id") == Str(q.bindings.providerId)
              && Get(q.claims, "intent") == Str(q.bindings.intent)
              && Get(q.claims, "constraints_digest") == Str(q.bindings.constraintsDigest)) then
                  Some(RejectClaimMismatch)
    else if q.bindings.audience.Some? && audience != Str(q.bindings.audience.value) then Some(RejectClaimMismatch)
    else None
  }

  function Check(p: Platform, q: Request): Checked {
    if CheckKey(q).Some? then Refused(CheckKey(q).value)
    else if CheckScope(q).Some? then Refused(CheckScope(q).value)
    else
      var expiresAt, jti := p.toInt(Get(q.claims, "expires_at")), Get(q.claims, "jti");
      if expiresAt.None? then Refused(RejectSignature)
      else if expiresAt.value <= q.now || !jti.Str? || jti.s == "" then Refused(RejectClaimMismatch)
      else if !p.signatureOk(q.signature, q.claims, KeyOf(q)) then Refused(RejectSignature)
      else InOrder(jti.s, expiresAt.value)
  }

  function Verdict(p: Platform, cache: Cache, q: Request): Code {
    match Check(p, q)
    case Refused(code) => code
    case InOrder(jti, _) => if jti in Fresh(cache, q.now) then RejectLocalReplay else AcceptAnchored
  }

  function CacheAfter(p: Platform, cache: Cache, q: Request): Cache {
    match Check(p, q)
    case Refused(_) => cache
    case InOrder(jti, expiresAt) =>
      var left := Fresh(cache, q.now);
      if jti in left then left else left[jti := expiresAt]
  }

  // Without a cache nothing is a replay.
  method VerifyDispatchTicket(p: Platform, cache: LocalReplayCache?, q: Request) returns (code: Code)
    modifies cache
    ensures code == Verdict(p, if cache == null then map[] else old(cache.seen), q)
    ensures cache != null ==> cache.seen == CacheAfter(p, old(cache.seen), q)
  {
    var checked := Check(p, q);
    if checked.Refused? {
      return checked.code;
    }
    if cache == null {
      return AcceptAnchored;
    }
    var known := cache.Contains(checked.jti, q.now);
    if known {
      return RejectLocalReplay;
    }
    cache.Remember(checked.jti, checked.expiresAt);
    code := AcceptAnchored;
  }

  // What an acceptance vouches for.
  lemma AcceptedMeans(p: Platform, cache: Cache, q: Request)
    requires Verdict(p, cache, q) == AcceptAnchored
    ensures var c := q.claims;
            && REQUIRED <= c.Keys && c["profile"] == Str(PROFILE)
            && c["key_id"].Str? && c["key_id"].s in q.bundle.keys
            && c["issuer"] == Str(q.bindings.issuer) && c["provider_id"] == Str(q.bindings.providerId)
            && c["intent"] == Str(q.bindings.intent) && c["constraints_digest"] == Str(q.bindings.constraintsDigest)
            && (q.bindings.audience.Some? ==> Get(c, "audience") == Str(q.bindings.audience.value))
            && var key := q.bundle.keys[c["key_id"].s];
            && key.state != "revoked" && key.validFrom <= q.now <= key.validUntil && PROFILE in key.allowedProfiles
            && (key.issuers != {} ==> q.bindings.issuer in key.issuers)
            && (key.audiences != {} ==> Listed(Get(c, "audience"), key.audiences))
            && p.signatureOk(q.signature, c, key)
            && q.bundle.version >= q.minimumVersion
  {
    assert forall name :: name in REQUIRED ==> name in q.claims.Keys;
  }

  // And when exactly there is one.
  lemma AcceptedIff(p: Platform, cache: Cache, q: Request)
    ensures Verdict(p, cache, q) == AcceptAnchored <==>
            var c, b := q.claims, q.bundle;
            && b.version >= q.minimumVersion
            && (b.validFrom.Some? ==> b.validFrom.value <= q.now)
            && (b.validUntil.Some? ==> q.now <= b.validUntil.value)
            && {"profile", "issuer", "provider_id", "intent"} <= c.Keys
            && {"expires_at", "jti", "constraints_digest", "key_id"} <= c.Keys
            && c["profile"] == Str("dispatch_ticket_v2")
            && c["key_id"].Str? && c["key_id"].s in b.keys
            && c["issuer"] == Str(q.bindings.issuer) && c["provider_id"] == Str(q.bindings.providerId)
            && c["intent"] == Str(q.bindings.intent) && c["constraints_digest"] == Str(q.bindings.constraintsDigest)
            && (q.bindings.audience.Some? ==> Get(c, "audience") == Str(q.bindings.audience.value))
            && var key := b.keys[c["key_id"].s];
            && key.state != "revoked" && key.validFrom <= q.now <= key.validUntil
            && "dispatch_ticket_v2" in key.allowedProfiles
            && (key.issuers != {} ==> q.bindings.issuer in key.issuers)
            && (key.audiences != {} ==> Get(c, "audience").Str? && Get(c, "audience").s in key.audiences)
            && p.signatureOk(q.signature, c, key)
            && p.toInt(c["expires_at"]).Some? && q.now < p.toInt(c["expires_at"]).value
            && c["jti"].Str? && c["jti"].s != ""
            && (c["jti"].s in cache ==> cache[c["jti"].s] <= q.now)
  {
    assert REQUIRED <= q.claims.Keys ==> forall name :: name in REQUIRED ==> name in q.claims.Keys;
    if Verdict(p, cache, q) == AcceptAnchored {
      AcceptedMeans(p, cache, q);
    }
  }

  // ---- many verifications through one cache ----

  function CacheAfterAll(p: Platform, cache: Cache, requests: seq<Request>): Cache {
    if requests == [] then cache
    else CacheAfter(p, CacheAfterAll(p, cache, requests[..|requests| - 1]), requests[|requests| - 1])
  }

  ghost predicate Ordered(requests: seq<Request>) {
    forall i, j :: 0 <= i <= j < |requests| ==> requests[i].now <= requests[j].now
  }

  predicate AcceptedAt(p: Platform, requests: seq<Request>, i: nat)
    requires i < |requests|
  {
    Verdict(p, CacheAfterAll(p, map[], requests[..i]), requests[i]) == AcceptAnchored
  }

  // Once accepted, an id stays in the cache under its expiry until the clock reaches it.
  lemma {:induction false} RememberedUntilExpiry(p: Platform, requests: seq<Request>, i: nat, j: nat)
    requires Ordered(requests) && i < j < |requests| && AcceptedAt(p, requests, i)
    ensures var accepted := Check(p, requests[i]);
            var cache := CacheAfterAll(p, map[], requests[..j]);
            requests[j].now < accepted.expiresAt ==> accepted.jti in cache && cache[accepted.jti] == accepted.expiresAt
  {
    var accepted := Check(p, requests[i]);
    var before := requests[..j];
    assert before[..j - 1] == requests[..j - 1] && before[j - 1] == requests[j - 1];
    hide Check;
    if i < j - 1 {
      RememberedUntilExpiry(p, requests, i, j - 1);
    }
  }

  // Through one cache, under a clock that never goes back, the same claims are accepted at most
  // once; so is any other ticket of the same id while the first one has not expired.
  lemma AcceptedAtMostOnce(p: Platform, requests: seq<Request>, i: nat, j: nat)
    requires Ordered(requests) && i < j < |requests|
    requires AcceptedAt(p, requests, i) && AcceptedAt(p, requests, j)
    ensures requests[i].claims != requests[j].claims
    ensures Check(p, requests[j]).jti == Check(p, requests[i]).jti ==>
        requests[j].now >= Check(p, requests[i]).expiresAt
  {
    RememberedUntilExpiry(p, requests, i, j);
    InOrderIsUnexpired(p, requests[i]);
    InOrderIsUnexpired(p, requests[j]);
  }

  lemma InOrderIsUnexpired(p: Platform, q: Request)
    requires Check(p, q).InOrder?
    ensures Get(q.claims, "jti") == Str(Check(p, q).jti)
    ensures p.toInt(Get(q.claims, "expires_at")) == Some(Check(p, q).expiresAt) && q.now < Check(p, q).expiresAt
  {
  }
}
