// The registration form of one capability variant: the printer and the strict parser.
module CapabilityCodec {
  import opened Common
  import opened Capability

  type Dict = map<string, Value>

  const ALLOWED: set<string> :=
    {"intent", "version", "phase", "variant_id", "models", "max_tokens", "input_modalities", "output_modalities",
     "features", "execution_capabilities", "limits", "supported_profiles", "claim_provenance", "extensions"}
  const UNITS: set<string> := {"tokens", "items", "bytes", "milliseconds", "dimensions"}
  const SOURCES: set<string> :=
    {"heuristic_fallback", "operator_assertion", "provider_metadata", "runtime_introspection", "conformance_probe"}

  datatype Fault = UnknownField | BadIntent | BadLimits | BadProvenance | BadExtensions | BadPhase | BadMaxTokens
    | BadStrings

  function Get(d: Dict, key: string): Value {
    if key in d then d[key] else Null
  }

  // ---- printing ----

  function OptInt(n: Option<int>): Value {
    if n.Some? then Int(n.value) else Null
  }

  function OptStr(s: Option<string>): Value {
    if s.Some? then Str(s.value) else Null
  }

  function PrintStrings(ss: seq<string>): Value {
    if ss == [] then Null else Arr(seq(|ss|, i requires 0 <= i < |ss| => Str(ss[i])))
  }

  function PrintLimit(l: Limit): Value {
    Obj(map["value" := Real(l.value), "unit" := Str(l.unit)])
  }

  function PrintLimits(limits: map<string, Limit>): Value {
    if limits == map[] then Null else Obj(map k | k in limits :: PrintLimit(limits[k]))
  }

  // Only the fields that are not None.
  function PrintProvenance(p: Option<Provenance>): Value {
    if p.None? then Null
    else
      var all := map[
        "source" := Str(p.value.source), "observed_at" := OptStr(p.value.observedAt),
        "valid_until" := OptStr(p.value.validUntil), "evidence_ref" := p.value.evidenceRef];
      Obj(map k | k in all && all[k] != Null :: all[k])
  }

  function PrintExtension(e: Extension): Value {
    Obj(map["required" := Bool(e.required), "value" := e.value])
  }

  function PrintExtensions(extensions: map<string, Extension>): Value {
    if extensions == map[] then Null else Obj(map k | k in extensions :: PrintExtension(extensions[k]))
  }

  // The value printed for a field; Null when the field is left out.
  function FieldOf(c: Variant, key: string): Value {
    if key == "intent" then Str(c.intent)
    else if key == "version" then c.version
    else if key == "phase" then OptInt(c.phase)
    else if key == "variant_id" then c.variantId
    else if key == "max_tokens" then OptInt(c.maxTokens)
    else if key == "models" then PrintStrings(c.models)
    else if key == "input_modalities" then PrintStrings(c.inputModalities)
    else if key == "output_modalities" then PrintStrings(c.outputModalities)
    else if key == "features" then PrintStrings(c.features)
    else if key == "execution_capabilities" then PrintStrings(c.executionCapabilities)
    else if key == "supported_profiles" then PrintStrings(c.supportedProfiles)
    else if key == "limits" then PrintLimits(c.limits)
    else if key == "claim_provenance" then PrintProvenance(c.provenance)
    else if key == "extensions" then PrintExtensions(c.extensions)
    else Null
  }

  function ToDict(c: Variant): Dict {
    map key | key in ALLOWED && FieldOf(c, key) != Null :: FieldOf(c, key)
  }

  // ---- parsing ----

  predicate StringsOk(v: Value) {
    v == Null
    || (v.Arr? && (forall i :: 0 <= i < |v.items| ==> v.items[i].Str? && v.items[i].s != "")
        && forall i, j :: 0 <= i < j < |v.items| ==> v.items[i] != v.items[j])
  }

  function StringsOf(v: Value): seq<string>
    requires StringsOk(v)
  {
    if v == Null then [] else seq(|v.items|, i requires 0 <= i < |v.items| => v.items[i].s)
  }

  predicate LimitOk(v: Value) {
    && v.Obj? && v.fields.Keys == {"value", "unit"}
    && var value, unit := v.fields["value"], v.fields["unit"];
    && ((value.Int? && value.n >= 0) || (value.Real? && value.r >= 0.0))
    && unit.Str? && unit.s in UNITS
  }

  function LimitOf(v: Value): Limit
    requires LimitOk(v)
  {
    var value := v.fields["value"];
    Limit(if value.Int? then value.n as real else value.r, v.fields["unit"].s)
  }

  predicate ExtensionOk(v: Value) {
    v.Obj? && v.fields.Keys == {"required", "value"} && v.fields["required"].Bool?
  }

  function ExtensionOf(v: Value): Extension
    requires ExtensionOk(v)
  {
    Extension(v.fields["required"].b, v.fields["value"])
  }

  predicate TimeOk(v: Value, clock: Clock) {
    v == Null || (v.Str? && clock(v.s).Some?)
  }

  predicate ProvenanceOk(v: Value, clock: Clock) {
    v == Null
    || (v.Obj? && Get(v.fields, "source").Str? && Get(v.fields, "source").s in SOURCES
        && TimeOk(Get(v.fields, "observed_at"), clock) && TimeOk(Get(v.fields, "valid_until"), clock))
  }

  function ProvenanceOf(v: Value, clock: Clock): Option<Provenance>
    requires ProvenanceOk(v, clock)
  {
    if v == Null then None
    else
      var d := v.fields;
      Some(Provenance(Get(d, "source").s,
                      if Get(d, "observed_at") == Null then None else Some(Get(d, "observed_at").s),
                      if Get(d, "valid_until") == Null then None else Some(Get(d, "valid_until").s),
                      Get(d, "evidence_ref")))
  }

  predicate PositiveOk(v: Value) {
    v == Null || (v.Int? && v.n >= 1)
  }

  function IntOf(v: Value): Option<int>
    requires PositiveOk(v)
  {
    if v == Null then None else Some(v.n)
  }

  predicate LimitsOk(d: Dict) {
    forall k :: k in d ==> LimitOk(d[k])
  }

  function LimitsOf(d: Dict): map<string, Limit>
    requires LimitsOk(d)
  {
    map k | k in d :: LimitOf(d[k])
  }

  predicate ExtensionsOk(d: Dict) {
    forall k :: k in d ==> ExtensionOk(d[k])
  }

  function ExtensionsOf(d: Dict): map<string, Extension>
    requires ExtensionsOk(d)
  {
    map k | k in d :: ExtensionOf(d[k])
  }

  // A missing object is an empty one; anything else must be an object.
  function ObjectAt(raw: Dict, key: string): Option<Dict> {
    if key !in raw then Some(map[]) else if raw[key].Obj? then Some(raw[key].fields) else None
  }

  predicate StringFieldsOk(raw: Dict) {
    && StringsOk(Get(raw, "models"))
    && StringsOk(Get(raw, "input_modalities")) && StringsOk(Get(raw, "output_modalities"))
    && StringsOk(Get(raw, "features")) && StringsOk(Get(raw, "execution_capabilities"))
    && StringsOk(Get(raw, "supported_profiles"))
  }

  function Parse(raw: Dict, clock: Clock): Result<Variant, Fault> {
    var intent, limits, extensions := Get(raw, "intent"), ObjectAt(raw, "limits"), ObjectAt(raw, "extensions");
    if !(raw.Keys <= ALLOWED) then Err(UnknownField)
    else if !intent.Str? || intent.s == "" then Err(BadIntent)
    else if limits.None? || !LimitsOk(limits.value) then Err(BadLimits)
    else if !ProvenanceOk(Get(raw, "claim_provenance"), clock) then Err(BadProvenance)
    else if extensions.None? || !ExtensionsOk(extensions.value) then Err(BadExtensions)
    else if !PositiveOk(Get(raw, "phase")) then Err(BadPhase)
    else if !PositiveOk(Get(raw, "max_tokens")) then Err(BadMaxTokens)
    else if !StringFieldsOk(raw) then Err(BadStrings)
    else
      Ok(Variant(
           intent.s, Get(raw, "version"), IntOf(Get(raw, "phase")), Get(raw, "variant_id"),
           StringsOf(Get(raw, "models")), IntOf(Get(raw, "max_tokens")),
           StringsOf(Get(raw, "input_modalities")), StringsOf(Get(raw, "output_modalities")),
           StringsOf(Get(raw, "features")), StringsOf(Get(raw, "execution_capabilities")),
           LimitsOf(limits.value),
           StringsOf(Get(raw, "supported_profiles")),
           ProvenanceOf(Get(raw, "claim_provenance"), clock),
           ExtensionsOf(extensions.value)))
  }

  // The loop over the limits, in any order; None is the ValueError.
  method ParseLimits(raw: Dict) returns (r: Option<map<string, Limit>>)
    ensures r == if LimitsOk(raw) then Some(LimitsOf(raw)) else None
  {
    var limits: map<string, Limit> := map[];
    var left := raw.Keys;
    while left != {}
      invariant left <= raw.Keys && limits.Keys == raw.Keys - left
      invariant forall k :: k in limits ==> LimitOk(raw[k]) && limits[k] == LimitOf(raw[k])
      decreases left
    {
      var k :| k in left;
      if !LimitOk(raw[k]) {
        assert !LimitsOk(raw);
        return None;
      }
      limits := limits[k := LimitOf(raw[k])];
      left := left - {k};
    }
    assert LimitsOk(raw) && limits == LimitsOf(raw);
    r := Some(limits);
  }

  method ParseExtensions(raw: Dict) returns (r: Option<map<string, Extension>>)
    ensures r == if ExtensionsOk(raw) then Some(ExtensionsOf(raw)) else None
  {
    var extensions: map<string, Extension> := map[];
    var left := raw.Keys;
    while left != {}
      invariant left <= raw.Keys && extensions.Keys == raw.Keys - left
      invariant forall k :: k in extensions ==> ExtensionOk(raw[k]) && extensions[k] == ExtensionOf(raw[k])
      decreases left
    {
      var k :| k in left;
      if !ExtensionOk(raw[k]) {
        assert !ExtensionsOk(raw);
        return None;
      }
      extensions := extensions[k := ExtensionOf(raw[k])];
      left := left - {k};
    }
    assert ExtensionsOk(raw) && extensions == ExtensionsOf(raw);
    r := Some(extensions);
  }

  // The parser: the two objects are read entry by entry, and the first thing wrong is raised.
  method FromDict(raw: Dict, clock: Clock) returns (r: Result<Variant, Fault>)
    ensures r == Parse(raw, clock)
  {
    hide LimitsOk, LimitsOf, ExtensionsOk, ExtensionsOf, StringsOk, StringsOf, ProvenanceOk, ProvenanceOf;
    hide ObjectAt, Get;
    if !(raw.Keys <= ALLOWED) {
      return Err(UnknownField);
    }
    var intent := Get(raw, "intent");
    if !intent.Str? || intent.s == "" {
      return Err(BadIntent);
    }
    var rawLimits := ObjectAt(raw, "limits");
    if rawLimits.None? {
      return Err(BadLimits);
    }
    var limits := ParseLimits(rawLimits.value);
    if limits.None? {
      return Err(BadLimits);
    }
    if !ProvenanceOk(Get(raw, "claim_provenance"), clock) {
      return Err(BadProvenance);
    }
    var rawExtensions := ObjectAt(raw, "extensions");
    if rawExtensions.None? {
      return Err(BadExtensions);
    }
    var extensions := ParseExtensions(rawExtensions.value);
    if extensions.None? {
      return Err(BadExtensions);
    }
    if !PositiveOk(Get(raw, "phase")) {
      return Err(BadPhase);
    }
    if !PositiveOk(Get(raw, "max_tokens")) {
      return Err(BadMaxTokens);
    }
    if !StringFieldsOk(raw) {
      return Err(BadStrings);
    }
    r := Ok(Variant(
              intent.s, Get(raw, "version"), IntOf(Get(raw, "phase")), Get(raw, "variant_id"),
              StringsOf(Get(raw, "models")), IntOf(Get(raw, "max_tokens")),
              StringsOf(Get(raw, "input_modalities")), StringsOf(Get(raw, "output_modalities")),
              StringsOf(Get(raw, "features")), StringsOf(Get(raw, "execution_capabilities")),
              limits.value, StringsOf(Get(raw, "supported_profiles")),
              ProvenanceOf(Get(raw, "claim_provenance"), clock), extensions.value));
  }

  // ---- parsing undoes printing ----

  // What the parser demands of a variant.
  predicate ValidStrings(ss: seq<string>) {
    (forall i :: 0 <= i < |ss| ==> ss[i] != "") && forall i, j :: 0 <= i < j < |ss| ==> ss[i] != ss[j]
  }

  predicate StringFieldsValid(c: Variant) {
    && ValidStrings(c.models) && ValidStrings(c.inputModalities) && ValidStrings(c.outputModalities)
    && ValidStrings(c.features) && ValidStrings(c.executionCapabilities) && ValidStrings(c.supportedProfiles)
  }

  predicate ValidTime(t: Option<string>, clock: Clock) {
    t.Some? ==> clock(t.value).Some?
  }

  predicate ValidProvenance(p: Option<Provenance>, clock: Clock) {
    p.Some? ==>
      p.value.source in SOURCES && ValidTime(p.value.observedAt, clock) && ValidTime(p.value.validUntil, clock)
  }

  predicate ValidLimits(limits: map<string, Limit>) {
    forall k :: k in limits ==> limits[k].value >= 0.0 && limits[k].unit in UNITS
  }

  predicate Valid(c: Variant, clock: Clock) {
    && c.intent != ""
    && ValidLimits(c.limits) && ValidProvenance(c.provenance, clock)
    && (c.phase.Some? ==> c.phase.value >= 1) && (c.maxTokens.Some? ==> c.maxTokens.value >= 1)
    && StringFieldsValid(c)
  }

  lemma StringsRoundTrip(ss: seq<string>)
    ensures StringsOk(PrintStrings(ss)) <==> ValidStrings(ss)
    ensures StringsOk(PrintStrings(ss)) ==> StringsOf(PrintStrings(ss)) == ss
  {
    if ss != [] {
      var v := PrintStrings(ss);
      forall i | 0 <= i < |ss| ensures v.items[i] == Str(ss[i]) {
      }
      if StringsOk(v) {
        forall i, j | 0 <= i < j < |ss| ensures ss[i] != ss[j] {
          assert v.items[i] != v.items[j];
        }
        forall i | 0 <= i < |ss| ensures ss[i] != "" {
          assert v.items[i].s != "";
        }
      }
    }
  }

  lemma LimitRoundTrip(l: Limit)
    ensures LimitOk(PrintLimit(l)) <==> l.value >= 0.0 && l.unit in UNITS
    ensures LimitOk(PrintLimit(l)) ==> LimitOf(PrintLimit(l)) == l
  {
    assert PrintLimit(l).fields.Keys == {"value", "unit"};
  }

  lemma ExtensionRoundTrip(e: Extension)
    ensures ExtensionOk(PrintExtension(e)) && ExtensionOf(PrintExtension(e)) == e
  {
    assert PrintExtension(e).fields.Keys == {"required", "value"};
  }

  lemma ProvenanceRoundTrip(p: Option<Provenance>, clock: Clock)
    ensures ProvenanceOk(PrintProvenance(p), clock) <==> ValidProvenance(p, clock)
    ensures ProvenanceOk(PrintProvenance(p), clock) ==> ProvenanceOf(PrintProvenance(p), clock) == p
  {
    if p.Some? {
      var d := PrintProvenance(p).fields;
      assert Get(d, "source") == Str(p.value.source);
      assert Get(d, "observed_at") == OptStr(p.value.observedAt);
      assert Get(d, "valid_until") == OptStr(p.value.validUntil);
      assert Get(d, "evidence_ref") == p.value.evidenceRef;
    }
  }

  lemma PrintedField(c: Variant, key: string)
    requires key in ALLOWED
    ensures Get(ToDict(c), key) == FieldOf(c, key)
  {
    hide FieldOf;
  }

  lemma PrintedScalars(c: Variant)
    ensures ToDict(c).Keys <= ALLOWED
    ensures var d := ToDict(c);
            && Get(d, "intent") == Str(c.intent) && Get(d, "version") == c.version
            && Get(d, "phase") == OptInt(c.phase) && Get(d, "variant_id") == c.variantId
            && Get(d, "max_tokens") == OptInt(c.maxTokens)
  {
    PrintedField(c, "intent");
    PrintedField(c, "version");
    PrintedField(c, "phase");
    PrintedField(c, "variant_id");
    PrintedField(c, "max_tokens");
    assert ToDict(c).Keys <= ALLOWED by {
      hide FieldOf;
    }
    hide ToDict;
  }

  lemma PrintedStrings(c: Variant)
    ensures var d := ToDict(c);
            && Get(d, "models") == PrintStrings(c.models)
            && Get(d, "input_modalities") == PrintStrings(c.inputModalities)
            && Get(d, "output_modalities") == PrintStrings(c.outputModalities)
            && Get(d, "features") == PrintStrings(c.features)
            && Get(d, "execution_capabilities") == PrintStrings(c.executionCapabilities)
            && Get(d, "supported_profiles") == PrintStrings(c.supportedProfiles)
  {
    PrintedField(c, "models");
    PrintedField(c, "input_modalities");
    PrintedField(c, "output_modalities");
    PrintedField(c, "features");
    PrintedField(c, "execution_capabilities");
    PrintedField(c, "supported_profiles");
    hide ToDict, PrintStrings, Get;
  }

  lemma PrintedObjects(c: Variant)
    ensures var d := ToDict(c);
            && Get(d, "limits") == PrintLimits(c.limits)
            && Get(d, "claim_provenance") == PrintProvenance(c.provenance)
            && Get(d, "extensions") == PrintExtensions(c.extensions)
  {
    PrintedField(c, "limits");
    PrintedField(c, "claim_provenance");
    PrintedField(c, "extensions");
    hide ToDict, PrintLimits, PrintProvenance, PrintExtensions, Get;
  }

  lemma PrintedObject(raw: Dict, key: string, fields: Dict)
    requires Get(raw, key) == if fields == map[] then Null else Obj(fields)
    requires key in raw ==> raw[key] != Null
    ensures ObjectAt(raw, key) == Some(fields)
  {
  }

  lemma LimitsRoundTrip(limits: map<string, Limit>)
    ensures var d: Dict := map k | k in limits :: PrintLimit(limits[k]);
            && (PrintLimits(limits) == if d == map[] then Null else Obj(d))
            && (LimitsOk(d) <==> ValidLimits(limits))
            && (LimitsOk(d) ==> LimitsOf(d) == limits)
  {
    var d: Dict := map k | k in limits :: PrintLimit(limits[k]);
    assert d.Keys == limits.Keys;
    forall k | k in limits
      ensures LimitOk(d[k]) <==> limits[k].value >= 0.0 && limits[k].unit in UNITS
      ensures LimitOk(d[k]) ==> LimitOf(d[k]) == limits[k]
    {
      LimitRoundTrip(limits[k]);
    }
    hide LimitOk, LimitOf, PrintLimit;
  }

  lemma ExtensionsRoundTrip(extensions: map<string, Extension>)
    ensures var d: Dict := map k | k in extensions :: PrintExtension(extensions[k]);
            && (PrintExtensions(extensions) == if d == map[] then Null else Obj(d))
            && ExtensionsOk(d) && ExtensionsOf(d) == extensions
  {
    var d: Dict := map k | k in extensions :: PrintExtension(extensions[k]);
    assert d.Keys == extensions.Keys;
    forall k | k in extensions ensures ExtensionOk(d[k]) && ExtensionOf(d[k]) == extensions[k] {
      ExtensionRoundTrip(extensions[k]);
    }
    hide ExtensionOk, ExtensionOf, PrintExtension;
  }

  lemma NoNulls(c: Variant)
    ensures forall key :: key in ToDict(c) ==> ToDict(c)[key] != Null
  {
    hide FieldOf;
  }

  lemma ObjectsRoundTrip(c: Variant)
    ensures var l, e := ObjectAt(ToDict(c), "limits"), ObjectAt(ToDict(c), "extensions");
            && l.Some? && (LimitsOk(l.value) <==> ValidLimits(c.limits))
            && (LimitsOk(l.value) ==> LimitsOf(l.value) == c.limits)
            && e.Some? && ExtensionsOk(e.value) && ExtensionsOf(e.value) == c.extensions
  {
    NoNulls(c);
    PrintedObjects(c);
    LimitsRoundTrip(c.limits);
    ExtensionsRoundTrip(c.extensions);
    hide *;
    PrintedObject(ToDict(c), "limits", map k | k in c.limits :: PrintLimit(c.limits[k]));
    PrintedObject(ToDict(c), "extensions", map k | k in c.extensions :: PrintExtension(c.extensions[k]));
  }

  lemma AllStringsRoundTrip(c: Variant)
    ensures var d := ToDict(c);
            && (StringFieldsOk(d) <==> StringFieldsValid(c))
            && (StringFieldsOk(d) ==>
                  && StringsOf(Get(d, "models")) == c.models
                  && StringsOf(Get(d, "input_modalities")) == c.inputModalities
                  && StringsOf(Get(d, "output_modalities")) == c.outputModalities
                  && StringsOf(Get(d, "features")) == c.features
                  && StringsOf(Get(d, "execution_capabilities")) == c.executionCapabilities
                  && StringsOf(Get(d, "supported_profiles")) == c.supportedProfiles)
  {
    PrintedStrings(c);
    StringsRoundTrip(c.models);
    StringsRoundTrip(c.inputModalities);
    StringsRoundTrip(c.outputModalities);
    StringsRoundTrip(c.features);
    StringsRoundTrip(c.executionCapabilities);
    StringsRoundTrip(c.supportedProfiles);
    hide StringsOk, ValidStrings, PrintStrings, StringsOf, ToDict, Get;
  }

  // Whatever the parser accepts, printed before or not, is valid.
  lemma AcceptedIsValid(raw: Dict, clock: Clock)
    ensures Parse(raw, clock).Ok? ==> Valid(Parse(raw, clock).value, clock)
  {
    if Parse(raw, clock).Ok? {
      var c := Parse(raw, clock).value;
      StringsAreValid(Get(raw, "models"));
      StringsAreValid(Get(raw, "input_modalities"));
      StringsAreValid(Get(raw, "output_modalities"));
      StringsAreValid(Get(raw, "features"));
      StringsAreValid(Get(raw, "execution_capabilities"));
      StringsAreValid(Get(raw, "supported_profiles"));
      ProvenanceIsValid(Get(raw, "claim_provenance"), clock);
      LimitsAreValid(ObjectAt(raw, "limits").value);
      hide Get, ObjectAt, StringsOk, StringsOf, ValidStrings, ProvenanceOk, ProvenanceOf, ValidProvenance;
      hide LimitsOk, LimitsOf, ValidLimits, ExtensionsOk, ExtensionsOf, ALLOWED;
    }
  }

  lemma StringsAreValid(v: Value)
    ensures StringsOk(v) ==> ValidStrings(StringsOf(v))
  {
    if StringsOk(v) && v != Null {
      var ss := StringsOf(v);
      forall i, j | 0 <= i < j < |ss| ensures ss[i] != ss[j] {
        assert v.items[i] != v.items[j];
      }
    }
  }

  lemma ProvenanceIsValid(v: Value, clock: Clock)
    ensures ProvenanceOk(v, clock) ==> ValidProvenance(ProvenanceOf(v, clock), clock)
  {
  }

  lemma LimitsAreValid(d: Dict)
    ensures LimitsOk(d) ==> ValidLimits(LimitsOf(d))
  {
  }

  // No field, of a variant, of one of its limits or of one of its extensions, is accepted beyond
  // those the form has.
  lemma ShadowFieldsRefused(raw: Dict, clock: Clock, key: string)
    ensures key in raw && key !in ALLOWED ==> Parse(raw, clock) == Err(UnknownField)
    ensures raw.Keys <= ALLOWED && "limits" in raw && raw["limits"].Obj? && key in raw["limits"].fields
            && !(raw["limits"].fields[key].Obj? && raw["limits"].fields[key].fields.Keys == {"value", "unit"}) ==>
              Parse(raw, clock).Err?
    ensures raw.Keys <= ALLOWED && "extensions" in raw && raw["extensions"].Obj? && key in raw["extensions"].fields
            && !(raw["extensions"].fields[key].Obj?
                 && raw["extensions"].fields[key].fields.Keys == {"required", "value"}) ==>
              Parse(raw, clock).Err?
  {
    hide StringsOk, ProvenanceOk;
  }

  // Printing what was parsed, and parsing it again, changes nothing any more.
  lemma ReparseIsStable(raw: Dict, clock: Clock)
    ensures Parse(raw, clock).Ok? ==> Parse(ToDict(Parse(raw, clock).value), clock) == Parse(raw, clock)
  {
    AcceptedIsValid(raw, clock);
    hide *;
    if Parse(raw, clock).Ok? {
      ParseUndoesPrint(Parse(raw, clock).value, clock);
    }
  }

  // Parsing what was printed succeeds exactly for the valid variants, and gives them back.
  lemma ParseUndoesPrint(c: Variant, clock: Clock)
    ensures Parse(ToDict(c), clock).Ok? <==> Valid(c, clock)
    ensures Valid(c, clock) ==> Parse(ToDict(c), clock) == Ok(c)
  {
    PrintedScalars(c);
    PrintedObjects(c);
    ObjectsRoundTrip(c);
    AllStringsRoundTrip(c);
    ProvenanceRoundTrip(c.provenance, clock);
    hide ToDict, Get, ObjectAt, LimitsOk, LimitsOf, ExtensionsOk, ExtensionsOf, StringFieldsOk, StringFieldsValid;
    hide StringsOf,
    ProvenanceOk, ProvenanceOf, ValidProvenance, PrintProvenance, PrintLimits, PrintExtensions, ValidLimits;
  }
}
