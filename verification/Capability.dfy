// Effective capabilities: one advertised variant, and the staged matcher over all of them.
module Capability {
  import opened Common

  // A JSON value.
  datatype Value =
    | Null
    | Bool(b: bool)
    | Int(n: int)
    | Real(r: real)
    | Str(s: string)
    | Arr(items: seq<Value>)
    | Obj(fields: map<string, Value>)

  datatype Limit = Limit(value: real, unit: string)

  datatype Provenance =
    Provenance(source: string, observedAt: Option<string>, validUntil: Option<string>, evidenceRef: Value)

  datatype Extension = Extension(required: bool, value: Value)

  // Version, variant id and evidence are taken as they come; Null is None.
  datatype Variant = Variant(
    intent: string, version: Value, phase: Option<int>, variantId: Value,
    models: seq<string>, maxTokens: Option<int>,
    inputModalities: seq<string>, outputModalities: seq<string>, features: seq<string>,
    executionCapabilities: seq<string>,
    limits: map<string, Limit>, supportedProfiles: seq<string>,
    provenance: Option<Provenance>, extensions: map<string, Extension>)

  datatype Requirement = Requirement(capabilityClass: string, identifier: string)

  datatype LimitRequirement = LimitRequirement(identifier: string, operator: string, value: real, unit: string)

  datatype Requirements = Requirements(
    intent: string, requires_: seq<Requirement>, prefers: seq<Requirement>, limits: seq<LimitRequirement>)

  // ISO timestamps are read by the platform: None is the ValueError.
  type Clock = string -> Option<int>

  // ---- the matcher ----

  datatype Refusal = RequiredUnknown | PolicyDenied | RequiredUnsupported | RequiredStale | LimitUnsatisfied

  datatype Match =
    | Eligible(variantIds: seq<Value>, preferenceUnavailable: bool, preservedExtensions: set<string>)
    | Refused(refusal: Refusal)
    | BadTimestamp

  type Vocabulary = map<string, set<string>>

  predicate Known(v: Vocabulary, r: Requirement) {
    r.capabilityClass in v && r.identifier in v[r.capabilityClass]
  }

  // The first requirement that is unknown or denied decides.
  function Gate(required: seq<Requirement>, v: Vocabulary, denied: set<Requirement>): (r: Option<Refusal>)
    ensures r.Some? ==> r.value == RequiredUnknown || r.value == PolicyDenied
  {
    if required == [] then None
    else if !Known(v, required[0]) then Some(RequiredUnknown)
    else if required[0] in denied then Some(PolicyDenied)
    else Gate(required[1..], v, denied)
  }

  function Values(c: Variant, capabilityClass: string): Option<seq<string>> {
    if capabilityClass == "input_modality" then Some(c.inputModalities)
    else if capabilityClass == "output_modality" then Some(c.outputModalities)
    else if capabilityClass == "feature" then Some(c.features)
    else if capabilityClass == "execution_capability" then Some(c.executionCapabilities)
    else if capabilityClass == "profile" then Some(c.supportedProfiles)
    else None
  }

  predicate Offers(c: Variant, r: Requirement) {
    Values(c, r.capabilityClass).Some? && r.identifier in Values(c, r.capabilityClass).value
  }

  predicate Supports(c: Variant, q: Requirements) {
    c.intent == q.intent && forall r :: r in q.requires_ ==> Offers(c, r)
  }

  function Deadline(c: Variant): Option<string> {
    if c.provenance.Some? then c.provenance.value.validUntil else None
  }

  predicate Fresh(c: Variant, clock: Clock, at: int) {
    Deadline(c).None? || (clock(Deadline(c).value).Some? && clock(Deadline(c).value).value >= at)
  }

  predicate WithinLimit(c: Variant, l: LimitRequirement) {
    && l.identifier in c.limits && c.limits[l.identifier].unit == l.unit
    && var value := c.limits[l.identifier].value;
    || (l.operator == "gte" && value >= l.value)
    || (l.operator == "lte" && value <= l.value)
    || (l.operator == "eq" && value == l.value)
  }

  predicate WithinLimits(c: Variant, q: Requirements) {
    forall l :: l in q.limits ==> WithinLimit(c, l)
  }

  // The matcher's conditions, as its comprehensions apply them.
  function Supporting(q: Requirements): Variant -> bool {
    c => Supports(c, q)
  }

  function FreshAt(clock: Clock, at: int): Variant -> bool {
    c => Fresh(c, clock, at)
  }

  function Within(q: Requirements): Variant -> bool {
    c => WithinLimits(c, q)
  }

  function Filter(cs: seq<Variant>, keep: Variant -> bool): seq<Variant> {
    if cs == [] then [] else (if keep(cs[0]) then [cs[0]] else []) + Filter(cs[1..], keep)
  }

  function Ids(cs: seq<Variant>): seq<Value> {
    seq(|cs|, i requires 0 <= i < |cs| => cs[i].variantId)
  }

  predicate PreferenceMissing(cs: seq<Variant>, v: Vocabulary, r: Requirement) {
    !Known(v, r) || forall c :: c in cs ==> !Offers(c, r)
  }

  predicate AnyMissing(cs: seq<Variant>, v: Vocabulary, q: Requirements) {
    exists r :: r in q.prefers && PreferenceMissing(cs, v, r)
  }

  function ExtensionNames(cs: seq<Variant>): set<string> {
    if cs == [] then {} else cs[0].extensions.Keys + ExtensionNames(cs[1..])
  }

  // The three stages of the matcher.
  function Candidates(cs: seq<Variant>, q: Requirements): seq<Variant> {
    Filter(cs, Supporting(q))
  }

  function Current(cs: seq<Variant>, q: Requirements, clock: Clock, at: int): seq<Variant> {
    Filter(Candidates(cs, q), FreshAt(clock, at))
  }

  function Matching(cs: seq<Variant>, q: Requirements, clock: Clock, at: int): seq<Variant> {
    Filter(Current(cs, q, clock, at), Within(q))
  }

  predicate Unreadable(c: Variant, clock: Clock) {
    Deadline(c).Some? && clock(Deadline(c).value).None?
  }

  predicate AnyUnreadable(cs: seq<Variant>, clock: Clock) {
    exists c :: c in cs && Unreadable(c, clock)
  }

  function MatchCapabilities(
    cs: seq<Variant>, q: Requirements, v: Vocabulary, clock: Clock, at: int, denied: set<Requirement>): Match
  {
    var gate := Gate(q.requires_, v, denied);
    if gate.Some? then Refused(gate.value)
    else if Candidates(cs, q) == [] then Refused(RequiredUnsupported)
    else if AnyUnreadable(Candidates(cs, q), clock) then BadTimestamp
    else if Current(cs, q, clock, at) == [] then Refused(RequiredStale)
    else
      var matching := Matching(cs, q, clock, at);
      if matching == [] then Refused(LimitUnsatisfied)
      else
        Eligible(Ids(matching), AnyMissing(matching, v, q), ExtensionNames(matching))
  }

  // ---- filters ----

  lemma {:induction false} FilterMember(cs: seq<Variant>, keep: Variant -> bool)
    ensures forall c :: c in Filter(cs, keep) <==> c in cs && keep(c)
  {
    if cs != [] {
      FilterMember(cs[1..], keep);
      assert cs == [cs[0]] + cs[1..];
    }
  }

  lemma {:induction false} FilterFilter(cs: seq<Variant>, f: Variant -> bool, g: Variant -> bool, h: Variant -> bool)
    requires forall c :: h(c) <==> f(c) && g(c)
    ensures Filter(Filter(cs, f), g) == Filter(cs, h)
  {
    if cs != [] {
      FilterFilter(cs[1..], f, g, h);
      var front := if f(cs[0]) then [cs[0]] else [];
      assert Filter(cs, f) == front + Filter(cs[1..], f);
      if f(cs[0]) {
        assert Filter(cs, f)[1..] == Filter(cs[1..], f);
      } else {
        assert Filter(cs, f) == Filter(cs[1..], f);
      }
    }
  }

  lemma {:induction false} FilterMultiset(cs: seq<Variant>, keep: Variant -> bool, c: Variant)
    ensures multiset(Filter(cs, keep))[c] == if keep(c) then multiset(cs)[c] else 0
  {
    if cs != [] {
      FilterMultiset(cs[1..], keep, c);
      assert cs == [cs[0]] + cs[1..];
    }
  }

  // ---- sound, complete, in order ----

  // One variant alone meeting everything that was asked.
  predicate Meets(c: Variant, q: Requirements, clock: Clock, at: int) {
    Supports(c, q) && Fresh(c, clock, at) && WithinLimits(c, q)
  }

  function Meeting(q: Requirements, clock: Clock, at: int): Variant -> bool {
    c => Meets(c, q, clock, at)
  }

  // The refusal before any variant is looked at is that of the first requirement at fault.
  lemma {:induction false} GateNamesFirst(required: seq<Requirement>, v: Vocabulary, denied: set<Requirement>)
    ensures Gate(required, v, denied).None? <==>
            forall r :: r in required ==>
              r.capabilityClass in v && r.identifier in v[r.capabilityClass] && r !in denied
    ensures Gate(required, v, denied).Some? ==>
              exists i :: 0 <= i < |required|
                && (forall j :: 0 <= j < i ==> Known(v, required[j]) && required[j] !in denied)
                && (if Gate(required, v, denied) == Some(RequiredUnknown) then !Known(v, required[i])
                    else Known(v, required[i]) && required[i] in denied)
  {
    if required != [] {
      assert required[0] in required && required == [required[0]] + required[1..];
      if Known(v, required[0]) && required[0] !in denied {
        GateNamesFirst(required[1..], v, denied);
        if Gate(required, v, denied).Some? {
          var i :| 0 <= i < |required[1..]|
                   && (forall j :: 0 <= j < i ==> Known(v, required[1..][j]) && required[1..][j] !in denied)
                   && (if Gate(required, v, denied) == Some(RequiredUnknown) then !Known(v, required[1..][i])
                       else Known(v, required[1..][i]) && required[1..][i] in denied);
          forall j | 0 <= j < i + 1 ensures Known(v, required[j]) && required[j] !in denied {
            assert j > 0 ==> required[j] == required[1..][j - 1];
          }
          assert required[i + 1] == required[1..][i];
        }
      }
    }
  }

  lemma Stages(cs: seq<Variant>, q: Requirements, clock: Clock, at: int)
    ensures forall c :: c in Candidates(cs, q) <==> c in cs && Supports(c, q)
    ensures forall c :: c in Current(cs, q, clock, at) <==> c in cs && Supports(c, q) && Fresh(c, clock, at)
    ensures forall c :: c in Matching(cs, q, clock, at) <==> c in cs && Meets(c, q, clock, at)
    ensures Matching(cs, q, clock, at) == Filter(cs, Meeting(q, clock, at))
  {
    var both := (c: Variant) => Supports(c, q) && Fresh(c, clock, at);
    FilterMember(cs, Supporting(q));
    FilterMember(Candidates(cs, q), FreshAt(clock, at));
    FilterMember(Current(cs, q, clock, at), Within(q));
    FilterFilter(cs, Supporting(q), FreshAt(clock, at), both);
    FilterFilter(cs, both, Within(q), Meeting(q, clock, at));
  }

  lemma NamesMean(cs: seq<Variant>, q: Requirements, clock: Clock, at: int)
    ensures forall name :: name in ExtensionNames(Matching(cs, q, clock, at)) <==>
              exists c :: c in cs && Meets(c, q, clock, at) && name in c.extensions
  {
    Stages(cs, q, clock, at);
    NamesOf(Matching(cs, q, clock, at));
    hide Meets, Matching, ExtensionNames;
  }

  lemma FlagMeans(cs: seq<Variant>, q: Requirements, v: Vocabulary, clock: Clock, at: int)
    ensures AnyMissing(Matching(cs, q, clock, at), v, q) <==>
            exists r :: r in q.prefers && Unavailable(cs, q, v, clock, at, r)
  {
    Stages(cs, q, clock, at);
    hide Meets, Offers, Matching;
    forall r ensures PreferenceMissing(Matching(cs, q, clock, at), v, r) == Unavailable(cs, q, v, clock, at, r) {
    }
  }

  lemma SomeIsMember(cs: seq<Variant>)
    ensures cs != [] <==> exists c :: c in cs
  {
    assert cs != [] ==> cs[0] in cs;
  }

  // A preference that is unknown, or that none of the variants in the answer offers.
  ghost predicate Unavailable(
    cs: seq<Variant>, q: Requirements, v: Vocabulary, clock: Clock, at: int, r: Requirement)
  {
    || !(r.capabilityClass in v && r.identifier in v[r.capabilityClass])
    || forall c :: c in cs && Meets(c, q, clock, at) ==> !Offers(c, r)
  }

  // What it takes to be in the answer, field by field.
  lemma MeetsExactly(c: Variant, q: Requirements, clock: Clock, at: int)
    ensures Meets(c, q, clock, at) <==>
            && c.intent == q.intent
            && (forall r :: r in q.requires_ ==>
                  || (r.capabilityClass == "input_modality" && r.identifier in c.inputModalities)
                  || (r.capabilityClass == "output_modality" && r.identifier in c.outputModalities)
                  || (r.capabilityClass == "feature" && r.identifier in c.features)
                  || (r.capabilityClass == "execution_capability" && r.identifier in c.executionCapabilities)
                  || (r.capabilityClass == "profile" && r.identifier in c.supportedProfiles))
            && (c.provenance.Some? && c.provenance.value.validUntil.Some? ==>
                  clock(c.provenance.value.validUntil.value).Some?
                  && at <= clock(c.provenance.value.validUntil.value).value)
            && (forall l :: l in q.limits ==>
                  && l.identifier in c.limits && c.limits[l.identifier].unit == l.unit
                  && (|| (l.operator == "gte" && c.limits[l.identifier].value >= l.value)
                      || (l.operator == "lte" && c.limits[l.identifier].value <= l.value)
                      || (l.operator == "eq" && c.limits[l.identifier].value == l.value)))
  {
    forall r ensures Offers(c, r) <==>
                     || (r.capabilityClass == "input_modality" && r.identifier in c.inputModalities)
                     || (r.capabilityClass == "output_modality" && r.identifier in c.outputModalities)
                     || (r.capabilityClass == "feature" && r.identifier in c.features)
                     || (r.capabilityClass == "execution_capability" && r.identifier in c.executionCapabilities)
                     || (r.capabilityClass == "profile" && r.identifier in c.supportedProfiles)
    {
    }
    hide Offers;
  }

  // Which answer is given.
  ghost predicate StageDecides(
    m: Match, cs: seq<Variant>, q: Requirements, v: Vocabulary, clock: Clock, at: int, denied: set<Requirement>)
  {
    var open := Gate(q.requires_, v, denied).None?;
    var supported := exists c :: c in cs && Supports(c, q);
    var unreadable := exists c :: c in cs && Supports(c, q) && Unreadable(c, clock);
    var current := exists c :: c in cs && Supports(c, q) && Fresh(c, clock, at);
    var met := exists c :: c in cs && Meets(c, q, clock, at);
    && (m == Refused(RequiredUnsupported) <==> open && !supported)
    && (m == BadTimestamp <==> open && unreadable)
    && (m == Refused(RequiredStale) <==> open && supported && !unreadable && !current)
    && (m == Refused(LimitUnsatisfied) <==> open && !unreadable && current && !met)
    && (m.Eligible? <==> open && !unreadable && met)
  }

  // What an eligible answer says.
  ghost predicate AnswerSays(m: Match, cs: seq<Variant>, q: Requirements, v: Vocabulary, clock: Clock, at: int)
    requires m.Eligible?
  {
    && m.variantIds == Ids(Filter(cs, Meeting(q, clock, at)))
    && (forall name :: name in m.preservedExtensions <==>
          exists c :: c in cs && Meets(c, q, clock, at) && name in c.extensions)
    && (m.preferenceUnavailable <==> exists r :: r in q.prefers && Unavailable(cs, q, v, clock, at, r))
  }

  lemma DecidesRight(cs: seq<Variant>, q: Requirements, v: Vocabulary, clock: Clock, at: int, denied: set<Requirement>)
    ensures StageDecides(MatchCapabilities(cs, q, v, clock, at, denied), cs, q, v, clock, at, denied)
  {
    Stages(cs, q, clock, at);
    hide Supports, Fresh, WithinLimits, Unreadable, Candidates, Current, Matching, Gate;
    SomeIsMember(Candidates(cs, q));
    SomeIsMember(Current(cs, q, clock, at));
    SomeIsMember(Matching(cs, q, clock, at));
  }

  // The answer lists exactly the variants that alone meet intent, every requirement, freshness
  // and every limit, in the order advertised; it keeps exactly the extension names some of them
  // carry, and flags exactly a preference none of them offers. The refusal names the first stage
  // left empty.
  lemma MatchIsExact(cs: seq<Variant>, q: Requirements, v: Vocabulary, clock: Clock, at: int, denied: set<Requirement>)
    ensures var m := MatchCapabilities(cs, q, v, clock, at, denied);
            StageDecides(m, cs, q, v, clock, at, denied) && (m.Eligible? ==> AnswerSays(m, cs, q, v, clock, at))
  {
    DecidesRight(cs, q, v, clock, at, denied);
    Stages(cs, q, clock, at);
    NamesMean(cs, q, clock, at);
    FlagMeans(cs, q, v, clock, at);
    hide StageDecides, Candidates, Current, Matching, AnyUnreadable, AnyMissing, Unavailable, ExtensionNames, Ids;
    hide Gate, Meets, Supports, Fresh, WithinLimits;
  }

  lemma {:induction false} NamesOf(cs: seq<Variant>)
    ensures forall name :: name in ExtensionNames(cs) <==> exists c :: c in cs && name in c.extensions
  {
    if cs != [] {
      NamesOf(cs[1..]);
      assert cs == [cs[0]] + cs[1..];
    }
  }

  // ---- reordering and adding ----

  predicate SameVariants(cs: seq<Variant>, ds: seq<Variant>) {
    multiset(cs) == multiset(ds)
  }

  // Reordering the advertisement only reorders the answer.
  lemma ReorderingOnlyReorders(
    cs: seq<Variant>, ds: seq<Variant>, q: Requirements, v: Vocabulary, clock: Clock, at: int, denied: set<Requirement>)
    requires SameVariants(cs, ds)
    ensures var m, n := MatchCapabilities(cs, q, v, clock, at, denied), MatchCapabilities(ds, q, v, clock, at, denied);
            if m.Eligible? then
              n.Eligible? && multiset(n.variantIds) == multiset(m.variantIds)
              && n.preferenceUnavailable == m.preferenceUnavailable && n.preservedExtensions == m.preservedExtensions
            else n == m
  {
    StagesReorder(cs, ds, q, clock, at);
    hide AnyUnreadable, Candidates, Current, Matching, Gate, AnyMissing, Ids, ExtensionNames, SameVariants;
    AnswerReorders(Matching(cs, q, clock, at), Matching(ds, q, clock, at), q, v);
    hide *;
    SameAnswer(cs, ds, q, v, clock, at, denied);
  }

  // The stages alone decide which kind of answer is given.
  lemma SameAnswer(
    cs: seq<Variant>, ds: seq<Variant>, q: Requirements, v: Vocabulary, clock: Clock, at: int, denied: set<Requirement>)
    requires Candidates(cs, q) == [] <==> Candidates(ds, q) == []
    requires AnyUnreadable(Candidates(cs, q), clock) == AnyUnreadable(Candidates(ds, q), clock)
    requires Current(cs, q, clock, at) == [] <==> Current(ds, q, clock, at) == []
    requires Matching(cs, q, clock, at) == [] <==> Matching(ds, q, clock, at) == []
    ensures var m, n := MatchCapabilities(cs, q, v, clock, at, denied), MatchCapabilities(ds, q, v, clock, at, denied);
            var a, b := Matching(cs, q, clock, at), Matching(ds, q, clock, at);
            if m.Eligible? then
              m == Eligible(Ids(a), AnyMissing(a, v, q), ExtensionNames(a))
              && n == Eligible(Ids(b), AnyMissing(b, v, q), ExtensionNames(b))
            else n == m
  {
    hide AnyUnreadable, Candidates, Current, Matching, Gate, AnyMissing, Ids, ExtensionNames;
  }

  lemma StagesReorder(cs: seq<Variant>, ds: seq<Variant>, q: Requirements, clock: Clock, at: int)
    requires SameVariants(cs, ds)
    ensures Candidates(cs, q) == [] <==> Candidates(ds, q) == []
    ensures AnyUnreadable(Candidates(cs, q), clock) == AnyUnreadable(Candidates(ds, q), clock)
    ensures Current(cs, q, clock, at) == [] <==> Current(ds, q, clock, at) == []
    ensures SameVariants(Matching(cs, q, clock, at), Matching(ds, q, clock, at))
    ensures Matching(cs, q, clock, at) == [] <==> Matching(ds, q, clock, at) == []
  {
    FilterReorders(cs, ds, Supporting(q));
    FilterReorders(Candidates(cs, q), Candidates(ds, q), FreshAt(clock, at));
    FilterReorders(Current(cs, q, clock, at), Current(ds, q, clock, at), Within(q));
    SameMembers(Candidates(cs, q), Candidates(ds, q));
    SameMembers(Current(cs, q, clock, at), Current(ds, q, clock, at));
    SameMembers(Matching(cs, q, clock, at), Matching(ds, q, clock, at));
  }

  lemma AnswerReorders(a: seq<Variant>, b: seq<Variant>, q: Requirements, v: Vocabulary)
    requires SameVariants(a, b)
    ensures multiset(Ids(a)) == multiset(Ids(b)) && ExtensionNames(a) == ExtensionNames(b)
    ensures AnyMissing(a, v, q) == AnyMissing(b, v, q)
  {
    SameMembers(a, b);
    IdsReorder(a, b);
    NamesOf(a);
    NamesOf(b);
    assert forall r :: PreferenceMissing(a, v, r) == PreferenceMissing(b, v, r);
  }

  lemma SameMembers(a: seq<Variant>, b: seq<Variant>)
    requires SameVariants(a, b)
    ensures forall c :: c in a <==> c in b
    ensures a == [] <==> b == []
  {
    assert |multiset(a)| == |a| && |multiset(b)| == |b|;
    forall c ensures c in a <==> c in b {
      assert c in a <==> c in multiset(a);
      assert c in b <==> c in multiset(b);
    }
  }

  lemma FilterReorders(cs: seq<Variant>, ds: seq<Variant>, keep: Variant -> bool)
    requires SameVariants(cs, ds)
    ensures SameVariants(Filter(cs, keep), Filter(ds, keep))
  {
    forall c ensures multiset(Filter(cs, keep))[c] == multiset(Filter(ds, keep))[c] {
      FilterMultiset(cs, keep, c);
      FilterMultiset(ds, keep, c);
    }
  }

  function IdOf(x: Value): Variant -> bool {
    (c: Variant) => c.variantId == x
  }

  lemma {:induction false} CountIds(a: seq<Variant>, x: Value)
    ensures multiset(Ids(a))[x] == |Filter(a, IdOf(x))|
  {
    if a != [] {
      CountIds(a[1..], x);
      assert Ids(a) == [a[0].variantId] + Ids(a[1..]);
    }
  }

  lemma IdsReorder(a: seq<Variant>, b: seq<Variant>)
    requires SameVariants(a, b)
    ensures multiset(Ids(a)) == multiset(Ids(b))
  {
    forall x ensures multiset(Ids(a))[x] == multiset(Ids(b))[x] {
      CountIds(a, x);
      CountIds(b, x);
      FilterReorders(a, b, IdOf(x));
      var f, g := Filter(a, IdOf(x)), Filter(b, IdOf(x));
      assert |multiset(f)| == |f| && |multiset(g)| == |g|;
    }
  }

  // A further variant, wherever it is put, never turns an eligible answer into a refusal, and
  // the answers of before are still among the new ones; only one that supports the request
  // under a deadline that cannot be read raises instead.
  lemma AddingNeverRefuses(
      front: seq<Variant>, more: Variant, back: seq<Variant>,
      q: Requirements, v: Vocabulary, clock: Clock, at: int, denied: set<Requirement>)
    requires MatchCapabilities(front + back, q, v, clock, at, denied).Eligible?
    ensures var m := MatchCapabilities(front + back, q, v, clock, at, denied);
            var n := MatchCapabilities(front + [more] + back, q, v, clock, at, denied);
            && !n.Refused?
            && (n.BadTimestamp? <==> Supports(more, q) && Unreadable(more, clock))
            && (n.Eligible? ==> multiset(m.variantIds) <= multiset(n.variantIds))
  {
    var cs, ds := front + back, front + [more] + back;
    MatchIsExact(cs, q, v, clock, at, denied);
    MatchIsExact(ds, q, v, clock, at, denied);
    hide MatchCapabilities, Meets, Supports, Unreadable, Gate;
    assert forall c :: c in ds <==> c in cs || c == more;
    IdsGrow(front, more, back, Meeting(q, clock, at));
  }

  lemma IdsGrow(front: seq<Variant>, more: Variant, back: seq<Variant>, keep: Variant -> bool)
    ensures multiset(Ids(Filter(front + back, keep))) <= multiset(Ids(Filter(front + [more] + back, keep)))
  {
    FilterAppend(front, back, keep);
    FilterAppend(front + [more], back, keep);
    FilterAppend(front, [more], keep);
    var a, x, b := Filter(front, keep), Filter([more], keep), Filter(back, keep);
    assert Ids(a + b) == Ids(a) + Ids(b);
    assert Ids(a + x + b) == Ids(a) + Ids(x) + Ids(b);
  }

  lemma {:induction false} FilterAppend(cs: seq<Variant>, ds: seq<Variant>, keep: Variant -> bool)
    ensures Filter(cs + ds, keep) == Filter(cs, keep) + Filter(ds, keep)
  {
    if cs == [] {
      assert cs + ds == ds;
    } else {
      assert (cs + ds)[1..] == cs[1..] + ds && (cs + ds)[0] == cs[0];
      FilterAppend(cs[1..], ds, keep);
      var first := if keep(cs[0]) then [cs[0]] else [];
      assert first + (Filter(cs[1..], keep) + Filter(ds, keep)) == first + Filter(cs[1..], keep) + Filter(ds, keep);
    }
  }
}
