// The owner-local trust bundle store, one call at a time: lock file, load, commit, install and
// recover.
module TrustStore {
  import opened Common
  import opened TrustBundles

  const SIZE_LIMIT := 4 * 1024 * 1024

  // SHA-256 of canonical bytes, taken to be injective.
  datatype Digest = Digest(of: Doc)

  // The JSON state file; `size` is its length in bytes.
  datatype State = State(bundle: Doc, digest: Digest, version: int, highWater: int, size: nat)

  // Garbled stands for whatever is no private regular file holding such a state.
  datatype File = Absent | Garbled | Holds(state: State)

  datatype Stored = Stored(bundle: TrustBundle, canonical: Doc, digest: Digest, highWater: int)

  datatype LoadResult = Nothing | Corrupt | Found(stored: Stored)

  // ---- the length of the text that commit writes ----

  // One character inside a JSON string, in UTF-8.
  function CharSize(c: char): nat {
    if c == '"' || c == '\\' || c == '\n' || c == '\r' || c == '\t' || c == '\U{08}' || c == '\U{0c}' then 2
    else if c < ' ' then 6
    else if c < '\U{80}' then 1
    else if c < '\U{800}' then 2
    else if c < '\U{10000}' then 3
    else 4
  }

  function CharsSize(s: string): nat {
    if s == "" then 0 else CharsSize(s[..|s| - 1]) + CharSize(s[|s| - 1])
  }

  function StringSize(s: string): nat {
    2 + CharsSize(s)
  }

  function DigitCount(n: nat): nat {
    if n < 10 then 1 else 1 + DigitCount(n / 10)
  }

  function IntSize(n: int): nat {
    if n < 0 then 1 + DigitCount(-n) else DigitCount(n)
  }

  // Brackets around the elements, commas between them.
  function ListSize(elements: seq<nat>): nat {
    if elements == [] then 2
    else if |elements| == 1 then 2 + elements[0]
    else ListSize(elements[..|elements| - 1]) + 1 + elements[|elements| - 1]
  }

  function StringsSize(ss: seq<string>): nat {
    ListSize(seq(|ss|, i requires 0 <= i < |ss| => StringSize(ss[i])))
  }

  // A name of an object, a colon and the value.
  function FieldSize(name: string, value: nat): nat {
    StringSize(name) + 1 + value
  }

  function ProfilesSize(profiles: Option<seq<string>>): seq<nat> {
    if profiles.Some? then [FieldSize("allowed_profiles", StringsSize(profiles.value))] else []
  }

  function KeySize(k: KeyDoc): nat {
    ListSize(
      ProfilesSize(k.allowedProfiles)
      + [FieldSize("audiences", StringsSize(k.audiences)), FieldSize("issuers", StringsSize(k.issuers)),
         FieldSize("key_id", StringSize(k.keyId)), FieldSize("public_key_b64url", StringSize(k.publicKey)),
         FieldSize("state", StringSize(k.state)),
         FieldSize("valid_from", IntSize(k.validFrom)), FieldSize("valid_until", IntSize(k.validUntil))])
  }

  function DocSize(d: Doc): nat {
    ListSize(
      [FieldSize("bundle_version", IntSize(d.version)),
       FieldSize("keys", ListSize(seq(|d.keys|, i requires 0 <= i < |d.keys| => KeySize(d.keys[i]))))]
      + (if d.issuer.Some? then [FieldSize("issuer", StringSize(d.issuer.value))] else [])
      + (if d.validFrom.Some? then [FieldSize("valid_from", IntSize(d.validFrom.value))] else [])
      + (if d.validUntil.Some? then [FieldSize("valid_until", IntSize(d.validUntil.value))] else []))
  }

  const DIGEST_TEXT := 2 + 7 + 64  // quotes, "sha256:" and the hexadecimal digest

  // The state file: the document in base 64, its digest and the two numbers.
  function StateSize(d: Doc, highWater: int): nat {
    ListSize(
      [FieldSize("bundle_b64", 2 + 4 * ((DocSize(d) + 2) / 3)), FieldSize("bundle_digest", DIGEST_TEXT),
       FieldSize("bundle_version", IntSize(d.version)), FieldSize("high_water", IntSize(highWater))])
  }

  // One to four bytes of UTF-8 for a character, and longer escapes for the few that need them.
  lemma CharSizes()
    ensures CharSize('a') == 1 && CharSize('"') == 2 && CharSize('\n') == 2 && CharSize('\U{01}') == 6
    ensures CharSize('\U{e9}') == 2 && CharSize('\U{20ac}') == 3 && CharSize('\U{1f600}') == 4
  {
  }

  predicate PlainText(s: string) {
    forall i :: 0 <= i < |s| ==> '0' <= s[i] <= '9' || '_' <= s[i] <= 'z'
  }

  lemma {:induction false} PlainSize(s: string)
    requires PlainText(s)
    ensures CharsSize(s) == |s|
  {
    if s != "" {
      PlainSize(s[..|s| - 1]);
    }
  }

  lemma PlainField(name: string, value: nat)
    requires PlainText(name)
    ensures FieldSize(name, value) == |name| + 3 + value
  {
    PlainSize(name);
  }

  lemma EmptyDocSize(d: Doc)
    requires d == Doc(1, [], None, None, None)
    ensures DocSize(d) == 30
  {
    PlainField("bundle_version", IntSize(1));
    var keys := seq(|d.keys|, i requires 0 <= i < |d.keys| => KeySize(d.keys[i]));
    assert keys == [] && ListSize(keys) == 2;
    PlainField("keys", ListSize(keys));
    TwoSize(18, 9);
    hide FieldSize, KeySize;
    var fields := [FieldSize("bundle_version", IntSize(1)), FieldSize("keys", ListSize(keys))];
    assert fields == [18, 9] && fields + [] + [] + [] == fields;
  }

  // An empty bundle of version 1 takes 30 bytes, and its state file 181.
  lemma EmptyBundleSize(d: Doc)
    requires d == Doc(1, [], None, None, None)
    ensures DocSize(d) == 30 && StateSize(d, 1) == 181
  {
    EmptyDocSize(d);
    PlainField("bundle_b64", 42);
    PlainField("bundle_digest", DIGEST_TEXT);
    PlainField("bundle_version", IntSize(1));
    PlainField("high_water", IntSize(1));
    hide DocSize, FieldSize;
    FourSize(55, 89, 18, 14);
  }

  lemma TwoSize(a: nat, b: nat)
    ensures ListSize([a, b]) == 3 + a + b
  {
    assert [a, b][..1] == [a];
  }

  lemma FourSize(a: nat, b: nat, c: nat, d: nat)
    ensures ListSize([a, b, c, d]) == 5 + a + b + c + d
  {
    TwoSize(a, b);
    assert [a, b, c, d][..3] == [a, b, c] && [a, b, c][..2] == [a, b];
  }

  function StateOf(d: Doc, highWater: int): State {
    State(d, Digest(d), d.version, highWater, StateSize(d, highWater))
  }

  // ---- load and commit ----

  ghost predicate Loadable(s: State) {
    && s.size <= SIZE_LIMIT
    && s.digest == Digest(s.bundle)
    && Parsable(s.bundle.keys)
    && s.highWater >= 0 && s.bundle.version >= 0 && s.version == s.bundle.version && s.highWater >= s.bundle.version
    && Canonical(Parsed(s.bundle)) == s.bundle
  }

  ghost function Load(f: File): LoadResult {
    match f
    case Absent => Nothing
    case Garbled => Corrupt
    case Holds(s) =>
      if Loadable(s) then Found(Stored(Parsed(s.bundle), s.bundle, s.digest, s.highWater)) else Corrupt
  }

  predicate CommitAllowed(b: TrustBundle, highWater: int) {
    0 <= b.version <= highWater
  }

  function Committed(b: TrustBundle, highWater: int): File {
    Holds(StateOf(Canonical(b), highWater))
  }

  // What commit writes passes every check of load exactly when the bundle's key states are
  // known, no two of its keys share an id, and its text is not too long. Load then gives the
  // bundle itself back exactly when each key was filed under its own id.
  lemma CommitLoadable(b: TrustBundle, highWater: int)
    requires CommitAllowed(b, highWater)
    ensures var r := Load(Committed(b, highWater));
            && (r.Found? <==> Acceptable(b) && StateSize(Canonical(b), highWater) <= SIZE_LIMIT)
            && (r.Found? ==> r.stored.canonical == Canonical(b) && r.stored.highWater == highWater
                             && r.stored.bundle.version == b.version
                             && (Same(r.stored.bundle, b) <==> WellKeyed(b)))
  {
    hide StateSize;
    CanonicalParsable(b);
    if Acceptable(b) {
      CanonicalStable(b);
      if WellKeyed(b) {
        CanonicalRoundTrip(b);
      }
    }
  }

  // A bundle with an unknown key state installs, and from then on the store cannot be loaded.
  lemma UnloadableInstall() returns (b: TrustBundle)
    ensures InstallDecision(None, b, None) == Commit(b.version)
    ensures Load(Committed(b, b.version)) == Corrupt
  {
    var k := TrustKey("k", "", "expired", 0, 0, {}, {}, {});
    b := RawBundle(1, map["k" := k], ["k"], None, None, None);
    assert b.keys["k"].state !in KEY_STATES;
    CommitLoadable(b, b.version);
  }

  // ---- what install and recover decide from what they loaded ----

  datatype Status = Conflict | Stale | Unchanged | Installed | Recovered | RecoveryRequired

  datatype Decision = Answer(status: Status) | Commit(highWater: int)

  function Max(a: int, b: int): int {
    if a < b then b else a
  }

  function InstallDecision(current: Option<Stored>, b: TrustBundle, expected: Option<int>): Decision {
    var version := if current.Some? then Some(current.value.bundle.version) else None;
    var highWater := if current.Some? then current.value.highWater else 0;
    if expected.Some? && expected != version then Answer(Conflict)
    else if b.version < highWater then Answer(Stale)
    else if current.Some? && b.version == current.value.bundle.version then
      Answer(if Digest(Canonical(b)) == current.value.digest then Unchanged else Conflict)
    else Commit(Max(highWater, b.version))
  }

  // The expected version is compared before anything is written: with one given, a commit is
  // decided only over a loadable store of exactly that version.
  lemma ExpectedIsMet(f: File, b: TrustBundle, v: int)
    requires InstallDecision(Current(f), b, Some(v)).Commit?
    ensures Load(f).Found? && Load(f).stored.bundle.version == v
  {
  }

  // What each answer means.
  lemma DecisionMeans(current: Option<Stored>, b: TrustBundle, expected: Option<int>)
    requires current.Some? ==> current.value.bundle.version <= current.value.highWater
    ensures var d := InstallDecision(current, b, expected);
            var expectedMet :=
              expected.None? || (current.Some? && current.value.bundle.version == expected.value);
            var mark := if current.Some? then current.value.highWater else 0;
            var sameVersion := current.Some? && current.value.bundle.version == b.version;
            var sameContent := current.Some? && current.value.digest == Digest(Canonical(b));
            && (d == Answer(Stale) <==> expectedMet && b.version < mark)
            && (d == Answer(Unchanged) <==> expectedMet && b.version >= mark && sameVersion && sameContent)
            && (d.Commit? <==> expectedMet && b.version >= mark && !sameVersion)
            && (d == Answer(Conflict) <==>
                !expectedMet || (b.version >= mark && sameVersion && !sameContent))
            && (d.Commit? ==> d.highWater == b.version)
  {
  }

  function RecoveredHighWater(current: Option<Stored>, b: TrustBundle, minimum: int): int {
    Max(Max(b.version, minimum), if current.Some? then current.value.highWater else 0)
  }

  // The new mark is the largest of the three, no more.
  lemma RecoveredIsLargest(current: Option<Stored>, b: TrustBundle, minimum: int)
    ensures var mark := RecoveredHighWater(current, b, minimum);
            && mark >= b.version && mark >= minimum && (current.Some? ==> mark >= current.value.highWater)
            && (mark == b.version || mark == minimum || mark == 0 || (current.Some? && mark == current.value.highWater))
            && (b.version >= 0 && mark == 0 ==> b.version == 0)
  {
  }

  datatype Authorization = Authorization(reason: string, minimumHighWater: int)

  predicate Blank(s: string) {
    forall i :: 0 <= i < |s| ==> IsBlank(s[i])
  }

  datatype StoreError = BadVersion | Locked | CorruptStore

  datatype InstallResult = InstallResult(status: Status, state: Option<Stored>)

  ghost function Current(f: File): Option<Stored> {
    if Load(f).Found? then Some(Load(f).stored) else None
  }

  // ---- one call at a time ----

  class FileTrustBundleStore {
    var file: File
    var lockFile: bool

    constructor (file: File)
      ensures this.file == file && !lockFile
    {
      this.file := file;
      lockFile := false;
    }

    method LoadFile() returns (r: LoadResult)
      ensures r == Load(file)
    {
      match file {
        case Absent =>
          return Nothing;
        case Garbled =>
          return Corrupt;
        case Holds(s) =>
          if s.size > SIZE_LIMIT || s.digest != Digest(s.bundle) {
            return Corrupt;
          }
          var parsed := FromDict(s.bundle);
          if parsed.Err? {
            return Corrupt;
          }
          var b: TrustBundle := parsed.value;
          if s.highWater < 0 || b.version < 0 || s.version != b.version || s.highWater < b.version {
            return Corrupt;
          }
          var again := CanonicalTrustBundle(b);
          if again != s.bundle {
            return Corrupt;
          }
          r := Found(Stored(b, s.bundle, s.digest, s.highWater));
      }
    }

    // False when the lock file is still there at the deadline.
    method AcquireLock() returns (acquired: bool)
      modifies this`lockFile
      ensures acquired <==> !old(lockFile)
      ensures lockFile
    {
      acquired := !lockFile;
      lockFile := true;
    }

    method Commit(b: TrustBundle, highWater: int) returns (ok: bool, stored: Stored)
      modifies this`file
      ensures ok <==> CommitAllowed(b, highWater)
      ensures file == if ok then Committed(b, highWater) else old(file)
      ensures ok ==> stored == Stored(b, Canonical(b), Digest(Canonical(b)), highWater)
    {
      var doc := CanonicalTrustBundle(b);
      stored := Stored(b, doc, Digest(doc), highWater);
      if b.version < 0 || highWater < b.version {
        return false, stored;
      }
      file := Holds(StateOf(doc, highWater));
      ok := true;
    }

    // The file changes only by a commit, the lock is given back on every way out, and a
    // bundle older than the high-water mark or unequal to the expected version changes nothing.
    method Install(b: TrustBundle, expected: Option<int>) returns (r: Result<InstallResult, StoreError>)
      modifies this
      ensures lockFile == old(lockFile)
      ensures r == Err(Locked) <==> b.version >= 0 && old(lockFile)
      ensures b.version < 0 <==> r == Err(BadVersion)
      ensures r == Err(CorruptStore) <==> b.version >= 0 && !old(lockFile) && Load(old(file)) == Corrupt
      ensures r.Err? ==> file == old(file)
      ensures r.Ok? && r.value.status == Installed && expected.Some? ==>
                Load(old(file)).Found? && Load(old(file)).stored.bundle.version == expected.value
      ensures r.Ok? ==>
                match InstallDecision(Current(old(file)), b, expected)
                case Answer(status) => r.value == InstallResult(status, Current(old(file))) && file == old(file)
                case Commit(highWater) =>
                  r.value.status == Installed && file == Committed(b, highWater) && CommitAllowed(b, highWater)
    {
      if b.version < 0 {
        return Err(BadVersion);
      }
      var acquired := AcquireLock();
      if !acquired {
        return Err(Locked);
      }
      var loaded := LoadFile();
      if loaded == Corrupt {
        lockFile := false;
        return Err(CorruptStore);
      }
      var current := if loaded.Found? then Some(loaded.stored) else None;
      var candidate := CanonicalTrustBundle(b);
      var decision := InstallDecision(current, b, expected);
      match decision {
        case Answer(status) =>
          r := Ok(InstallResult(status, current));
        case Commit(highWater) =>
          var ok, stored := Commit(b, highWater);
          r := Ok(InstallResult(Installed, Some(stored)));
      }
      lockFile := false;
    }

    method Recover(b: TrustBundle, authorization: Option<Authorization>) returns (r: Result<InstallResult, StoreError>)
      modifies this
      ensures lockFile == old(lockFile)
      ensures b.version < 0 <==> r == Err(BadVersion)
      ensures b.version >= 0 && (authorization.None? || Blank(authorization.value.reason)) ==>
                r == Ok(InstallResult(RecoveryRequired, None)) && file == old(file)
      ensures b.version >= 0 && authorization.Some? && !Blank(authorization.value.reason) ==>
                if old(lockFile) then r == Err(Locked) && file == old(file)
                else
                  var highWater := RecoveredHighWater(Current(old(file)), b, authorization.value.minimumHighWater);
                  r.Ok? && r.value.status == Recovered && file == Committed(b, highWater) && CommitAllowed(b, highWater)
    {
      if b.version < 0 {
        return Err(BadVersion);
      }
      if authorization.None? || Blank(authorization.value.reason) {
        return Ok(InstallResult(RecoveryRequired, None));
      }
      var acquired := AcquireLock();
      if !acquired {
        return Err(Locked);
      }
      var loaded := LoadFile();
      var current := if loaded.Found? then Some(loaded.stored) else None;
      var ok, stored := Commit(b, RecoveredHighWater(current, b, authorization.value.minimumHighWater));
      r := Ok(InstallResult(Recovered, Some(stored)));
      lockFile := false;
    }
  }
}
