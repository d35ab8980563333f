// Trust bundles, their canonical form, the parser that undoes it, and the stored state file.
module TrustBundles {
  import opened Common
  import opened Sorting

  const PROFILE := "dispatch_ticket_v2"
  const KEY_STATES: set<string> := {"active", "retiring", "revoked"}

  datatype TrustKey = TrustKey(
    keyId: string, publicKey: string, state: string, validFrom: int, validUntil: int,
    allowedProfiles: set<string>, issuers: set<string>, audiences: set<string>)

  // The key dictionary is a map together with the order in which it lists its keys.
  datatype RawBundle = RawBundle(
    version: int, keys: map<string, TrustKey>, order: seq<string>,
    issuer: Option<string>, validFrom: Option<int>, validUntil: Option<int>)

  ghost predicate OrderLists(order: seq<string>, keys: map<string, TrustKey>) {
    Enumerates(order, keys.Keys)
  }

  type TrustBundle = b: RawBundle | OrderLists(b.order, b.keys)
    ghost witness RawBundle(0, map[], [], None, None, None)

  // Equality of bundles is equality of dictionaries: the order does not count.
  ghost predicate Same(a: TrustBundle, b: TrustBundle) {
    a.version == b.version && a.keys == b.keys
    && a.issuer == b.issuer && a.validFrom == b.validFrom && a.validUntil == b.validUntil
  }

  // Every key is filed under its own id.
  predicate WellKeyed(b: RawBundle) {
    forall k :: k in b.keys ==> b.keys[k].keyId == k
  }

  // ---- the canonical document ----

  // JSON text with sorted names stands for the document it denotes.
  datatype KeyDoc = KeyDoc(
    keyId: string, publicKey: string, state: string, validFrom: int, validUntil: int,
    allowedProfiles: Option<seq<string>>, issuers: seq<string>, audiences: seq<string>)

  datatype Doc = Doc(
    version: int, keys: seq<KeyDoc>, issuer: Option<string>, validFrom: Option<int>, validUntil: Option<int>)

  const BY_ID: TrustKey -> string := (k: TrustKey) => k.keyId

  function DocOfKey(k: TrustKey): KeyDoc {
    KeyDoc(k.keyId, k.publicKey, k.state, k.validFrom, k.validUntil,
           Some(SortedSet(k.allowedProfiles)), SortedSet(k.issuers), SortedSet(k.audiences))
  }

  function DocsOf(keys: seq<TrustKey>): seq<KeyDoc> {
    seq(|keys|, i requires 0 <= i < |keys| => DocOfKey(keys[i]))
  }

  function ValuesInOrder(order: seq<string>, keys: map<string, TrustKey>): seq<TrustKey>
    requires forall k :: k in order ==> k in keys
  {
    seq(|order|, i requires 0 <= i < |order| => keys[order[i]])
  }

  function Values(b: TrustBundle): seq<TrustKey> {
    ValuesInOrder(b.order, b.keys)
  }

  function Canonical(b: TrustBundle): Doc {
    Doc(b.version, DocsOf(SortBy(BY_ID, Values(b))), b.issuer, b.validFrom, b.validUntil)
  }

  lemma NoDocs()
    ensures DocsOf([]) == []
  {
  }

  lemma DocsAppend(keys: seq<TrustKey>, k: TrustKey)
    ensures DocsOf(keys + [k]) == DocsOf(keys) + [DocOfKey(k)]
  {
  }

  method KeyDocument(k: TrustKey) returns (d: KeyDoc)
    ensures d == DocOfKey(k)
  {
    var profiles := SortStrings(k.allowedProfiles);
    var issuers := SortStrings(k.issuers);
    var audiences := SortStrings(k.audiences);
    d := KeyDoc(k.keyId, k.publicKey, k.state, k.validFrom, k.validUntil, Some(profiles), issuers, audiences);
  }

  method CanonicalTrustBundle(b: TrustBundle) returns (doc: Doc)
    ensures doc == Canonical(b)
  {
    hide DocsOf, SortBy, DocOfKey;
    var sorted := SortBy(BY_ID, Values(b));
    var docs: seq<KeyDoc> := [];
    NoDocs();
    for i := 0 to |sorted|
      invariant docs == DocsOf(sorted[..i])
    {
      var k := sorted[i];
      var d := KeyDocument(k);
      DocsAppend(sorted[..i], k);
      assert sorted[..i + 1] == sorted[..i] + [k];
      docs := docs + [d];
    }
    assert sorted[..|sorted|] == sorted;
    doc := Doc(b.version, docs, b.issuer, b.validFrom, b.validUntil);
  }

  // ---- the parser ----

  datatype ParseError = DuplicateKey(keyId: string) | InvalidState(state: string)

  function Elements(q: seq<string>): set<string> {
    set x | x in q
  }

  function KeyOfDoc(d: KeyDoc): TrustKey {
    TrustKey(d.keyId, d.publicKey, d.state, d.validFrom, d.validUntil,
             if d.allowedProfiles.Some? then Elements(d.allowedProfiles.value) else {PROFILE},
             Elements(d.issuers), Elements(d.audiences))
  }

  function IdsOf(docs: seq<KeyDoc>): seq<string> {
    seq(|docs|, i requires 0 <= i < |docs| => docs[i].keyId)
  }

  // The dictionary the parser fills: one entry for each document, under its id.
  function Filed(docs: seq<KeyDoc>): map<string, TrustKey> {
    if docs == [] then map[]
    else
      var last := docs[|docs| - 1];
      Filed(docs[..|docs| - 1])[last.keyId := KeyOfDoc(last)]
  }

  ghost predicate DistinctIds(docs: seq<KeyDoc>) {
    forall i, j :: 0 <= i < j < |docs| ==> docs[i].keyId != docs[j].keyId
  }

  ghost predicate Parsable(docs: seq<KeyDoc>) {
    (forall d :: d in docs ==> d.state in KEY_STATES) && DistinctIds(docs)
  }

  lemma FiledAppend(docs: seq<KeyDoc>, d: KeyDoc)
    ensures Filed(docs + [d]) == Filed(docs)[d.keyId := KeyOfDoc(d)]
    ensures IdsOf(docs + [d]) == IdsOf(docs) + [d.keyId]
    ensures Filed([]) == map[] && IdsOf([]) == []
  {
    assert (docs + [d])[..|docs|] == docs;
  }

  lemma {:induction false} FiledIds(docs: seq<KeyDoc>)
    ensures forall x :: x in Filed(docs) <==> exists d :: d in docs && d.keyId == x
  {
    if docs != [] {
      var front, last := docs[..|docs| - 1], docs[|docs| - 1];
      assert docs == front + [last];
      FiledIds(front);
      FiledAppend(front, last);
    }
  }

  lemma IdsFiled(docs: seq<KeyDoc>)
    ensures forall x :: x in IdsOf(docs) <==> x in Filed(docs)
  {
    FiledIds(docs);
    forall x | x in IdsOf(docs) ensures x in Filed(docs) {
      var i :| 0 <= i < |docs| && IdsOf(docs)[i] == x;
      assert docs[i] in docs;
    }
    forall x | x in Filed(docs) ensures x in IdsOf(docs) {
      var d :| d in docs && d.keyId == x;
      var i :| 0 <= i < |docs| && docs[i] == d;
      assert IdsOf(docs)[i] == x;
    }
  }

  lemma {:induction false} FiledIs(docs: seq<KeyDoc>)
    requires DistinctIds(docs)
    ensures OrderLists(IdsOf(docs), Filed(docs))
    ensures forall d :: d in docs ==> d.keyId in Filed(docs) && Filed(docs)[d.keyId] == KeyOfDoc(d)
  {
    IdsFiled(docs);
    if docs != [] {
      var front, last := docs[..|docs| - 1], docs[|docs| - 1];
      assert docs == front + [last];
      FiledIs(front);
      FiledAppend(front, last);
      forall d | d in front ensures d.keyId != last.keyId {
        var i :| 0 <= i < |front| && front[i] == d;
        assert docs[i] == d;
      }
    }
  }

  lemma ParsableExtends(docs: seq<KeyDoc>, i: nat)
    requires i < |docs| && Parsable(docs[..i])
    ensures Parsable(docs[..i + 1]) <==> docs[i].state in KEY_STATES && docs[i].keyId !in Filed(docs[..i])
    ensures !Parsable(docs[..i + 1]) ==> !Parsable(docs)
    ensures Filed(docs[..i + 1]) == Filed(docs[..i])[docs[i].keyId := KeyOfDoc(docs[i])]
    ensures IdsOf(docs[..i + 1]) == IdsOf(docs[..i]) + [docs[i].keyId]
  {
    var front, more, item := docs[..i], docs[..i + 1], docs[i];
    assert more == front + [item];
    FiledAppend(front, item);
    FiledIds(front);
    if item.keyId in Filed(front) {
      var d :| d in front && d.keyId == item.keyId;
      var j :| 0 <= j < i && front[j] == d;
      assert more[j].keyId == more[i].keyId && docs[j].keyId == docs[i].keyId;
    } else {
      forall j | 0 <= j < i ensures more[j].keyId != item.keyId {
        assert more[j] in front;
      }
    }
    if item.state !in KEY_STATES {
      assert item in more && item in docs;
    }
  }

  function RawOf(doc: Doc): RawBundle {
    RawBundle(doc.version, Filed(doc.keys), IdsOf(doc.keys), doc.issuer, doc.validFrom, doc.validUntil)
  }

  method FromDict(doc: Doc) returns (r: Result<RawBundle, ParseError>)
    ensures r.Ok? <==> Parsable(doc.keys)
    ensures r.Ok? ==> r.value == RawOf(doc)
    ensures r.Ok? ==> OrderLists(r.value.order, r.value.keys)
  {
    var keys: map<string, TrustKey>, order: seq<string> := map[], [];
    if doc.keys != [] {
      FiledAppend([], doc.keys[0]);
    }
    for i := 0 to |doc.keys|
      invariant keys == Filed(doc.keys[..i]) && order == IdsOf(doc.keys[..i])
      invariant Parsable(doc.keys[..i])
    {
      hide Filed, IdsOf, Parsable;
      var item := doc.keys[i];
      ParsableExtends(doc.keys, i);
      if item.keyId in keys {
        return Err(DuplicateKey(item.keyId));
      }
      if item.state !in KEY_STATES {
        return Err(InvalidState(item.state));
      }
      keys := keys[item.keyId := KeyOfDoc(item)];
      order := order + [item.keyId];
    }
    assert doc.keys[..|doc.keys|] == doc.keys;
    FiledIs(doc.keys);
    r := Ok(RawBundle(doc.version, keys, order, doc.issuer, doc.validFrom, doc.validUntil));
  }

  // What FromDict returns, when it returns.
  ghost function Parsed(doc: Doc): (b: TrustBundle)
    requires Parsable(doc.keys)
    ensures WellKeyed(b)
  {
    FiledIs(doc.keys);
    FiledIds(doc.keys);
    RawOf(doc)
  }

  // The document of a key, field by field, and the one field that may be missing.
  lemma FieldsOfDocument(k: TrustKey, d: KeyDoc)
    ensures var doc := DocOfKey(k);
            && doc.keyId == k.keyId && doc.publicKey == k.publicKey && doc.state == k.state
            && doc.validFrom == k.validFrom && doc.validUntil == k.validUntil
            && doc.allowedProfiles.Some? && Elements(doc.allowedProfiles.value) == k.allowedProfiles
            && Elements(doc.issuers) == k.issuers && Elements(doc.audiences) == k.audiences
    ensures d.allowedProfiles.None? ==> KeyOfDoc(d).allowedProfiles == {"dispatch_ticket_v2"}
  {
    SortedSetElements(k.allowedProfiles);
    SortedSetElements(k.issuers);
    SortedSetElements(k.audiences);
  }

  // ---- the canonical form and the parser ----

  lemma SortedSetElements(s: set<string>)
    ensures Elements(SortedSet(s)) == s
  {
  }

  lemma KeyRoundTrip(k: TrustKey)
    ensures KeyOfDoc(DocOfKey(k)) == k
  {
    SortedSetElements(k.allowedProfiles);
    SortedSetElements(k.issuers);
    SortedSetElements(k.audiences);
  }

  lemma ValuesDistinct(b: TrustBundle)
    requires WellKeyed(b)
    ensures DistinctKeys(BY_ID, Values(b))
    ensures forall k :: k in Values(b) <==> k.keyId in b.keys && b.keys[k.keyId] == k
  {
    forall i | 0 <= i < |b.order| ensures Values(b)[i].keyId == b.order[i] {
      assert b.order[i] in b.keys;
    }
    forall k | k in Values(b) ensures k.keyId in b.keys && b.keys[k.keyId] == k {
      var i :| 0 <= i < |b.order| && Values(b)[i] == k;
      assert b.order[i] in b.keys;
    }
    forall k: TrustKey | k.keyId in b.keys && b.keys[k.keyId] == k ensures k in Values(b) {
      assert k.keyId in b.order;
      var i :| 0 <= i < |b.order| && b.order[i] == k.keyId;
      assert Values(b)[i] == k;
    }
  }

  // The canonical form does not depend on the order of the dictionary.
  lemma CanonicalForgetsOrder(a: TrustBundle, b: TrustBundle)
    requires WellKeyed(a) && Same(a, b)
    ensures Canonical(a) == Canonical(b)
  {
    ValuesDistinct(a);
    ValuesDistinct(b);
    SortForgetsOrder(BY_ID, Values(a), Values(b));
  }

  // The documents of a canonical form carry exactly the keys of the bundle.
  lemma DocHasKey(b: TrustBundle, d: KeyDoc)
    requires d in Canonical(b).keys
    ensures KeyOfDoc(d) in Values(b)
  {
    var sorted, docs := SortBy(BY_ID, Values(b)), Canonical(b).keys;
    SortElements(BY_ID, Values(b));
    var i :| 0 <= i < |docs| && docs[i] == d;
    KeyRoundTrip(sorted[i]);
    assert sorted[i] in sorted;
  }

  lemma KeyHasDoc(b: TrustBundle, k: TrustKey)
    requires k in Values(b)
    ensures DocOfKey(k) in Canonical(b).keys
  {
    var sorted, docs := SortBy(BY_ID, Values(b)), Canonical(b).keys;
    SortElements(BY_ID, Values(b));
    var i :| 0 <= i < |sorted| && sorted[i] == k;
    assert docs[i] == DocOfKey(k);
  }

  lemma CanonicalAscending(b: TrustBundle)
    requires DistinctKeys(BY_ID, Values(b))
    ensures DistinctIds(Canonical(b).keys)
  {
    var sorted, docs := SortBy(BY_ID, Values(b)), Canonical(b).keys;
    SortSorts(BY_ID, Values(b));
    forall i, j | 0 <= i < j < |docs| ensures docs[i].keyId != docs[j].keyId {
      assert Less(BY_ID(sorted[i]), BY_ID(sorted[j]));
      LessTrichotomy(sorted[i].keyId, sorted[j].keyId);
    }
  }

  lemma FiledHas(b: TrustBundle, docs: seq<KeyDoc>, k: string)
    requires WellKeyed(b) && k in b.keys && DistinctIds(docs) && DocOfKey(b.keys[k]) in docs
    ensures k in Filed(docs) && Filed(docs)[k] == b.keys[k]
  {
    FiledIs(docs);
    KeyRoundTrip(b.keys[k]);
    assert DocOfKey(b.keys[k]).keyId == k;
  }

  lemma FiledOnly(b: TrustBundle, k: string)
    requires WellKeyed(b) && k in Filed(Canonical(b).keys)
    ensures k in b.keys
  {
    FiledIds(Canonical(b).keys);
    var d :| d in Canonical(b).keys && d.keyId == k;
    DocHasKey(b, d);
    ValuesDistinct(b);
  }

  // Filing the canonical documents gives a well-keyed bundle its own dictionary back.
  lemma FiledCanonical(b: TrustBundle)
    requires WellKeyed(b)
    ensures Filed(Canonical(b).keys) == b.keys
  {
    var docs := Canonical(b).keys;
    ValuesDistinct(b);
    CanonicalAscending(b);
    hide Canonical, DocOfKey, Filed, Values;
    forall k | k in b.keys ensures k in Filed(docs) && Filed(docs)[k] == b.keys[k] {
      assert b.keys[k] in Values(b);
      KeyHasDoc(b, b.keys[k]);
      FiledHas(b, docs, k);
    }
    forall k | k in Filed(docs) ensures k in b.keys {
      FiledOnly(b, k);
    }
  }

  // Equal canonical forms mean equal bundles.
  lemma CanonicalInjective(a: TrustBundle, b: TrustBundle)
    requires WellKeyed(a) && WellKeyed(b)
    ensures Canonical(a) == Canonical(b) <==> Same(a, b)
  {
    if Canonical(a) == Canonical(b) {
      FiledCanonical(a);
      FiledCanonical(b);
    } else if Same(a, b) {
      CanonicalForgetsOrder(a, b);
    }
  }

  // The parser takes a canonical form exactly when the key states are known and no two keys
  // share an id.
  ghost predicate Acceptable(b: TrustBundle) {
    (forall k :: k in b.keys ==> b.keys[k].state in KEY_STATES) && DistinctKeys(BY_ID, Values(b))
  }

  lemma CanonicalParsable(b: TrustBundle)
    ensures Parsable(Canonical(b).keys) <==> Acceptable(b)
  {
    var docs, values := Canonical(b).keys, Values(b);
    StatesAgree(b);
    if DistinctIds(docs) {
      var sorted := SortBy(BY_ID, values);
      forall i, j | 0 <= i < j < |sorted| ensures BY_ID(sorted[i]) != BY_ID(sorted[j]) {
        assert docs[i].keyId != docs[j].keyId;
      }
      DistinctFromSorted(values);
    } else if DistinctKeys(BY_ID, values) {
      CanonicalAscending(b);
    }
  }

  lemma StatesAgree(b: TrustBundle)
    ensures (forall d :: d in Canonical(b).keys ==> d.state in KEY_STATES) <==>
            (forall k :: k in b.keys ==> b.keys[k].state in KEY_STATES)
  {
    var docs := Canonical(b).keys;
    hide Canonical, DocsOf;
    if forall d :: d in docs ==> d.state in KEY_STATES {
      forall k | k in b.keys ensures b.keys[k].state in KEY_STATES {
        assert k in b.order;
        var i :| 0 <= i < |b.order| && b.order[i] == k;
        assert Values(b)[i] == b.keys[k];
        KeyHasDoc(b, b.keys[k]);
      }
    } else {
      var d :| d in docs && d.state !in KEY_STATES;
      DocHasKey(b, d);
      var i :| 0 <= i < |b.order| && Values(b)[i] == KeyOfDoc(d);
      assert b.order[i] in b.keys;
    }
  }

  // Sorting is a permutation, so ids distinct after it were distinct before it.
  lemma DistinctFromSorted(values: seq<TrustKey>)
    requires DistinctKeys(BY_ID, SortBy(BY_ID, values))
    ensures DistinctKeys(BY_ID, values)
  {
    var sorted := SortBy(BY_ID, values);
    SortSorts(BY_ID, values);
    forall i, j | 0 <= i < j < |values| ensures BY_ID(values[i]) != BY_ID(values[j]) {
      if values[i] == values[j] {
        TwiceIsTwo(values, i, j);
        DistinctOnce(sorted, values[i]);
      } else {
        assert values[i] in multiset(values) && values[j] in multiset(values);
        assert values[i] in multiset(sorted) && values[j] in multiset(sorted);
        var k :| 0 <= k < |sorted| && sorted[k] == values[i];
        var l :| 0 <= l < |sorted| && sorted[l] == values[j];
      }
    }
  }

  lemma TwiceIsTwo(q: seq<TrustKey>, i: nat, j: nat)
    requires i < j < |q| && q[i] == q[j]
    ensures multiset(q)[q[i]] >= 2
  {
    assert q == q[..j] + q[j..];
    assert q[i] in q[..j] && q[j] in q[j..];
    assert multiset(q) == multiset(q[..j]) + multiset(q[j..]);
    assert q[i] in multiset(q[..j]) && q[j] in multiset(q[j..]);
  }

  lemma {:induction false} DistinctOnce(q: seq<TrustKey>, x: TrustKey)
    requires DistinctKeys(BY_ID, q)
    ensures multiset(q)[x] <= 1
  {
    if q != [] {
      DistinctOnce(q[1..], x);
      assert q == [q[0]] + q[1..];
      assert forall i :: 0 < i < |q| ==> BY_ID(q[0]) != BY_ID(q[i]);
      assert q[0] !in q[1..];
    }
  }

  // Parsing the canonical form of an acceptable, well-keyed bundle gives the bundle back.
  lemma CanonicalRoundTrip(b: TrustBundle)
    requires WellKeyed(b) && forall k :: k in b.keys ==> b.keys[k].state in KEY_STATES
    ensures Parsable(Canonical(b).keys) && Same(Parsed(Canonical(b)), b)
  {
    ValuesDistinct(b);
    CanonicalParsable(b);
    FiledCanonical(b);
  }

  // Parsing and printing again changes nothing, however the bundle was keyed.
  lemma CanonicalStable(b: TrustBundle)
    requires Acceptable(b)
    ensures Parsable(Canonical(b).keys) && Canonical(Parsed(Canonical(b))) == Canonical(b)
  {
    CanonicalParsable(b);
    var doc := Canonical(b);
    var c := Parsed(doc);
    ValuesDistinct(c);
    SameValues(b);
    SortForgetsOrder(BY_ID, Values(b), Values(c));
  }

  lemma SameValues(b: TrustBundle)
    requires Parsable(Canonical(b).keys)
    ensures forall k :: k in Values(Parsed(Canonical(b))) <==> k in Values(b)
  {
    var doc := Canonical(b);
    var c := Parsed(doc);
    ValuesDistinct(c);
    hide Canonical;
    FiledIs(doc.keys);
    FiledIds(doc.keys);
    forall k | k in Values(c) ensures k in Values(b) {
      var d :| d in doc.keys && d.keyId == k.keyId;
      assert c.keys[d.keyId] == KeyOfDoc(d);
      DocHasKey(b, d);
    }
    forall k | k in Values(b) ensures k in Values(c) {
      KeyRoundTrip(k);
      KeyHasDoc(b, k);
      assert DocOfKey(k) in doc.keys;
    }
  }
}
