/** Settings resolution (`ensureSettings`): the stored settings and the
    enabled presets' documents are merged, the keyword matcher and the
    seller set are compiled from the result, and the outcome is cached
    until a forced refresh. Reading storage and fetching presets are the
    caller's inputs: the loaded `Settings` value, and `fetch`, the settled
    outcome of fetching one preset by name. */
module SettingsResolution {
  import opened JsValues
  import opened Records
  import opened RegExps

  /** The settings as `loadSettings` returns them. */
  datatype Settings = Settings(
    presets: Record,
    hideAD: bool,
    hideRecommender: bool,
    hideProductKeywords: Record,
    hideSellers: Record,
    hideSellerCreditLessThan: int)
  {
    ghost predicate Valid() {
      presets.Valid() && hideProductKeywords.Valid() && hideSellers.Valid()
    }
  }

  /** The parsed JSON body of a preset: `null`, or an object whose two maps
      are each present (truthy) or not. */
  datatype PresetDoc =
    | NullDoc
    | PresetObject(hideProductKeywords: Option<Record>, hideSellers: Option<Record>)

  /** One entry of `Promise.allSettled` over the preset fetches. */
  datatype PresetResult = Rejected | Fulfilled(doc: PresetDoc) {
    ghost predicate Valid() {
      Fulfilled? && doc.PresetObject? ==>
        (doc.hideProductKeywords.Some? ==> doc.hideProductKeywords.value.Valid()) &&
        (doc.hideSellers.Some? ==> doc.hideSellers.value.Valid())
    }
  }

  ghost predicate AllValid(results: seq<PresetResult>) {
    forall i :: 0 <= i < |results| ==> results[i].Valid()
  }

  /** The two user maps that presets are merged into. */
  datatype Field = Keywords | Sellers

  /** The map a preset result contributes to `field`, if any: nothing for a
      rejected fetch, a `null` document or a missing map. */
  function Source(r: PresetResult, field: Field): Option<Record> {
    if r.Fulfilled? && r.doc.PresetObject? then
      (if field == Keywords then r.doc.hideProductKeywords else r.doc.hideSellers)
    else None
  }

  /** Preset `j` defines key `k` for `field`. */
  predicate PresetDefines(results: seq<PresetResult>, field: Field, j: int, k: string) {
    0 <= j < |results| && Source(results[j], field).Some? && Defines(Source(results[j], field).value, k)
  }

  /** The user's map after the presets' maps have been merged into it, in order. */
  function MergePresets(user: Record, results: seq<PresetResult>, field: Field): (r: Record)
    requires user.Valid() && AllValid(results)
    ensures r.Valid()
    decreases |results|
  {
    if results == [] then user
    else
      var acc := MergePresets(user, results[..|results| - 1], field);
      match Source(results[|results| - 1], field)
      case None => acc
      case Some(m) => Merge(acc, m)
  }

  /** The fetch outcomes for the named presets, in order. */
  function FetchAll(names: seq<string>, fetch: string -> PresetResult): (r: seq<PresetResult>)
    ensures |r| == |names| && forall i :: 0 <= i < |names| ==> r[i] == fetch(names[i])
  {
    seq(|names|, i requires 0 <= i < |names| => fetch(names[i]))
  }

  /** The fetch outcomes for the enabled presets. */
  function FetchPresets(presets: Record, fetch: string -> PresetResult): seq<PresetResult>
    requires presets.Valid()
  {
    FetchAll(EnabledKeys(presets), fetch)
  }

  predicate HasNullDoc(results: seq<PresetResult>) {
    exists j :: 0 <= j < |results| && results[j] == Fulfilled(NullDoc)
  }

  /** The keyword matcher: none when no keyword is enabled, otherwise the
      regular expression of the escaped keywords joined by `|`. */
  function CompileKeywords(keywords: Record): Option<Matcher>
    requires keywords.Valid()
  {
    var enabled := EnabledKeys(keywords);
    if |enabled| > 0 then CompileRegExp(Pattern(enabled)) else None
  }

  /** `keys.reduce((set, key) => set.add(key), new Set())`. */
  function KeySet(keys: seq<string>): (r: set<SetKey>)
    ensures forall x :: x in r <==> x.StrKey? && x.s in keys
  {
    if keys == [] then {}
    else KeySet(keys[..|keys| - 1]) + {StrKey(keys[|keys| - 1])}
  }

  /** The seller set: none when no seller is enabled, otherwise the set of
      enabled seller keys. */
  function CompileSellers(sellers: Record): Option<set<SetKey>>
    requires sellers.Valid()
  {
    var enabled := EnabledKeys(sellers);
    if |enabled| > 0 then Some(KeySet(enabled)) else None
  }

  /** The object `ensureSettings` resolves to. Its two maps are the very
      objects the presets were merged into. */
  datatype ParsedSettings = ParsedSettings(
    hideAD: bool,
    hideRecommender: bool,
    hideProductKeywords: RecordObject,
    hideSellers: RecordObject,
    hideSellerCreditLessThan: int,
    hideProductKeywordMatcher: Option<Matcher>,
    hideSellerSet: Option<set<SetKey>>)

  /** `p` is what resolving `loaded` against the preset outcomes `results` gives. */
  ghost predicate Resolved(p: ParsedSettings, loaded: Settings, results: seq<PresetResult>)
    requires loaded.Valid() && AllValid(results)
    reads p.hideProductKeywords, p.hideSellers
  {
    var keywords := MergePresets(loaded.hideProductKeywords, results, Keywords);
    var sellers := MergePresets(loaded.hideSellers, results, Sellers);
    && p.hideAD == loaded.hideAD
    && p.hideRecommender == loaded.hideRecommender
    && p.hideSellerCreditLessThan == loaded.hideSellerCreditLessThan
    && p.hideProductKeywords.Value() == keywords
    && p.hideSellers.Value() == sellers
    && p.hideProductKeywordMatcher == CompileKeywords(keywords)
    && p.hideSellerSet == CompileSellers(sellers)
  }

  /** The loop over the settled preset fetches in `ensureSettings`:
      rejected fetches are skipped, each fulfilled preset's keyword and
      seller maps are merged into the user's, and a `null` document throws. */
  method MergePresetResults(keywords: RecordObject, sellers: RecordObject, results: seq<PresetResult>)
    returns (threw: bool)
    requires keywords != sellers && keywords.Valid() && sellers.Valid() && AllValid(results)
    modifies keywords, sellers
    ensures threw <==> HasNullDoc(results)
    ensures keywords.Valid() && sellers.Valid()
    ensures !threw ==>
      && keywords.Value() == MergePresets(old(keywords.Value()), results, Keywords)
      && sellers.Value() == MergePresets(old(sellers.Value()), results, Sellers)
  {
    var i := 0;
    while i < |results|
      invariant 0 <= i <= |results|
      invariant keywords.Valid() && sellers.Valid()
      invariant !HasNullDoc(results[..i])
      invariant keywords.Value() == MergePresets(old(keywords.Value()), results[..i], Keywords)
      invariant sellers.Value() == MergePresets(old(sellers.Value()), results[..i], Sellers)
    {
      var presetResult := results[i];
      assert results[..i + 1][..i] == results[..i];
      assert results[..i + 1][i] == presetResult;
      match presetResult {
        case Rejected =>
        case Fulfilled(NullDoc) =>
          return true;
        case Fulfilled(PresetObject(presetKeywords, presetSellers)) =>
          if presetKeywords.Some? {
            MergeRecords(keywords, presetKeywords.value);
          }
          if presetSellers.Some? {
            MergeRecords(sellers, presetSellers.value);
          }
      }
      i := i + 1;
    }
    assert results[..i] == results;
    return false;
  }

  /** The keyword-matcher step of `ensureSettings`. */
  method CompileKeywordMatcher(keywords: Record) returns (matcher: Option<Matcher>)
    requires keywords.Valid()
    ensures matcher == CompileKeywords(keywords)
  {
    matcher := None;
    var keywordArray := GetEnabledArray(keywords);
    if |keywordArray| > 0 {
      // Never `None`: every pattern built here is in the literal-alternation
      // fragment (`PatternCompiles`), so the `catch` around `new RegExp` is not taken.
      matcher := CompileRegExp(Pattern(keywordArray));
    }
  }

  /** The seller-set step of `ensureSettings`. */
  method CompileSellerSet(sellers: Record) returns (sellerSet: Option<set<SetKey>>)
    requires sellers.Valid()
    ensures sellerSet == CompileSellers(sellers)
  {
    sellerSet := None;
    var sellerArray := GetEnabledArray(sellers);
    if |sellerArray| > 0 {
      sellerSet := Some(KeySet(sellerArray));
    }
  }

  /** The module-level `cachedSettings` slot and `ensureSettings`. */
  class SettingsCache {
    var cachedSettings: Option<ParsedSettings>

    constructor ()
      ensures cachedSettings == None
    {
      cachedSettings := None;
    }

    /** `ensureSettings(force)`. A cached value is returned unchanged unless
        `force`; otherwise the settings are resolved afresh and cached. A
        `null` preset document makes the property read on it throw, which
        rejects the whole call and leaves the cache as it was. */
    method EnsureSettings(force: bool, loaded: Settings, fetch: string -> PresetResult)
      returns (result: Outcome<ParsedSettings>)
      requires loaded.Valid()
      requires forall name :: fetch(name).Valid()
      modifies this
      ensures !force && old(cachedSettings).Some? ==>
        result == Done(old(cachedSettings).value) && cachedSettings == old(cachedSettings)
      ensures force || old(cachedSettings).None? ==>
        var results := FetchPresets(loaded.presets, fetch);
        && AllValid(results)
        && (result.Thrown? <==> HasNullDoc(results))
        && (result.Thrown? ==> cachedSettings == old(cachedSettings))
        && (result.Done? ==>
              && cachedSettings == Some(result.value)
              && fresh(result.value.hideProductKeywords)
              && fresh(result.value.hideSellers)
              && Resolved(result.value, loaded, results))
    {
      if !force && cachedSettings.Some? {
        return Done(cachedSettings.value);
      }

      var names := GetEnabledArray(loaded.presets);
      var presetResults := FetchAll(names, fetch);
      assert AllValid(presetResults);
      var keywords := new RecordObject(loaded.hideProductKeywords);
      var sellers := new RecordObject(loaded.hideSellers);
      var threw := MergePresetResults(keywords, sellers, presetResults);
      if threw {
        return Thrown;
      }
      var matcher := CompileKeywordMatcher(keywords.Value());
      var sellerSet := CompileSellerSet(sellers.Value());
      var parsed := ParsedSettings(loaded.hideAD, loaded.hideRecommender, keywords, sellers,
                                   loaded.hideSellerCreditLessThan, matcher, sellerSet);
      cachedSettings := Some(parsed);
      result := Done(parsed);
    }
  }

  // ---------------------------------------------------------------------
  // Properties of the resolution
  // ---------------------------------------------------------------------

  /** Preset `j` is the last one that defines `k` for `field`. */
  predicate LastDefines(results: seq<PresetResult>, field: Field, j: int, k: string) {
    PresetDefines(results, field, j, k) &&
    forall j' :: j < j' < |results| ==> !PresetDefines(results, field, j', k)
  }

  /** Merging presets never removes or moves a key of the user's map. */
  lemma {:induction false} MergePresetsKeepsKeys(user: Record, results: seq<PresetResult>, field: Field)
    requires user.Valid() && AllValid(results)
    ensures user.keys <= MergePresets(user, results, field).keys
    decreases |results|
  {
    if results != [] {
      var prefix := results[..|results| - 1];
      assert AllValid(prefix);
      MergePresetsKeepsKeys(user, prefix, field);
      match Source(results[|results| - 1], field) {
        case None =>
        case Some(m) => MergeSpec(MergePresets(user, prefix, field), m);
      }
    }
  }

  /** A key that no preset defines keeps the user's value and presence. */
  lemma {:induction false} MergePresetsUntouched(user: Record, results: seq<PresetResult>, field: Field, k: string)
    requires user.Valid() && AllValid(results)
    requires forall j :: !PresetDefines(results, field, j, k)
    ensures var r := MergePresets(user, results, field);
      (k in r.vals <==> k in user.vals) && (k in user.vals ==> r.vals[k] == user.vals[k])
    decreases |results|
  {
    if results != [] {
      var n := |results|;
      var prefix := results[..n - 1];
      assert AllValid(prefix);
      forall j ensures !PresetDefines(prefix, field, j, k) {
        if 0 <= j < n - 1 {
          assert !PresetDefines(results, field, j, k);
        }
      }
      MergePresetsUntouched(user, prefix, field, k);
      match Source(results[n - 1], field) {
        case None =>
        case Some(m) =>
          assert !PresetDefines(results, field, n - 1, k);
          MergeSpec(MergePresets(user, prefix, field), m);
      }
    }
  }

  /** For a key some preset defines, the last such preset's value wins, even
      over the user's own entry. */
  lemma {:induction false} MergePresetsLastWins(user: Record, results: seq<PresetResult>, field: Field, j: int, k: string)
    requires user.Valid() && AllValid(results)
    requires LastDefines(results, field, j, k)
    ensures k in MergePresets(user, results, field).vals
    ensures MergePresets(user, results, field).vals[k] == Source(results[j], field).value.vals[k]
    decreases |results|
  {
    var n := |results|;
    var prefix := results[..n - 1];
    assert AllValid(prefix);
    var acc := MergePresets(user, prefix, field);
    if j == n - 1 {
      MergeSpec(acc, Source(results[n - 1], field).value);
    } else {
      assert !PresetDefines(results, field, n - 1, k);
      assert prefix[j] == results[j];
      forall j' | j < j' < n - 1 ensures !PresetDefines(prefix, field, j', k) {
        assert !PresetDefines(results, field, j', k);
      }
      MergePresetsLastWins(user, prefix, field, j, k);
      match Source(results[n - 1], field) {
        case None =>
        case Some(m) => MergeSpec(acc, m);
      }
    }
  }

  /** The fulfilled results, in order. */
  function KeepFulfilled(results: seq<PresetResult>): (r: seq<PresetResult>)
    ensures forall x :: x in r ==> x in results && x.Fulfilled?
  {
    if results == [] then []
    else
      var last := results[|results| - 1];
      KeepFulfilled(results[..|results| - 1]) + (if last.Fulfilled? then [last] else [])
  }

  /** Rejected preset fetches are skipped: merging only the fulfilled
      results gives the same map. */
  lemma {:induction false} MergePresetsSkipsRejected(user: Record, results: seq<PresetResult>, field: Field)
    requires user.Valid() && AllValid(results)
    ensures AllValid(KeepFulfilled(results))
    ensures MergePresets(user, KeepFulfilled(results), field) == MergePresets(user, results, field)
    decreases |results|
  {
    var kept := KeepFulfilled(results);
    assert AllValid(kept) by {
      forall i | 0 <= i < |kept| ensures kept[i].Valid() {
        assert kept[i] in results;
      }
    }
    if results != [] {
      var n := |results|;
      var prefix := results[..n - 1];
      var last := results[n - 1];
      assert AllValid(prefix);
      MergePresetsSkipsRejected(user, prefix, field);
      var keptPrefix := KeepFulfilled(prefix);
      if last.Fulfilled? {
        assert kept == keptPrefix + [last];
        assert kept[..|kept| - 1] == keptPrefix;
      } else {
        assert kept == keptPrefix;
      }
    }
  }

  /** The keyword matcher is absent exactly when no keyword is enabled, and
      otherwise matches a name iff the name contains an enabled keyword. */
  lemma CompileKeywordsSpec(keywords: Record)
    requires keywords.Valid()
    ensures CompileKeywords(keywords).None? <==> forall k :: !IsEnabled(keywords, k)
    ensures CompileKeywords(keywords).Some? ==>
      forall name :: Test(CompileKeywords(keywords).value, name) <==>
        exists k :: IsEnabled(keywords, k) && Contains(name, k)
  {
    var enabled := EnabledKeys(keywords);
    if |enabled| > 0 {
      PatternCompiles(enabled);
      assert IsEnabled(keywords, enabled[0]);
    }
  }

  /** The seller set is absent exactly when no seller is enabled, and
      otherwise holds exactly the enabled seller keys, all as strings. */
  lemma CompileSellersSpec(sellers: Record)
    requires sellers.Valid()
    ensures CompileSellers(sellers).None? <==> forall k :: !IsEnabled(sellers, k)
    ensures CompileSellers(sellers).Some? ==>
      forall x :: x in CompileSellers(sellers).value <==> x.StrKey? && IsEnabled(sellers, x.s)
  {
    var enabled := EnabledKeys(sellers);
    if |enabled| > 0 {
      assert IsEnabled(sellers, enabled[0]);
    }
  }

  /** A user map `{foo: true}` and one preset `{bar: true}` resolve to the
      enabled keywords `foo` and `bar`. */
  lemma UserAndPresetKeywordsCombine()
    ensures var user := Record(["foo"], map["foo" := Bool(true)]);
      var preset := Record(["bar"], map["bar" := Bool(true)]);
      var results := [Fulfilled(PresetObject(Some(preset), None))];
      user.Valid() && AllValid(results) &&
      forall k :: IsEnabled(MergePresets(user, results, Keywords), k) <==> k == "foo" || k == "bar"
  {
    var user := Record(["foo"], map["foo" := Bool(true)]);
    var preset := Record(["bar"], map["bar" := Bool(true)]);
    var results := [Fulfilled(PresetObject(Some(preset), None))];
    assert LastDefines(results, Keywords, 0, "bar");
    MergePresetsLastWins(user, results, Keywords, 0, "bar");
    forall k | k != "bar"
      ensures IsEnabled(MergePresets(user, results, Keywords), k) <==> k == "foo"
    {
      assert forall j :: !PresetDefines(results, Keywords, j, k);
      MergePresetsUntouched(user, results, Keywords, k);
    }
  }

  /** Two calls without `force`: the second returns the very object the
      first one cached. */
  method EnsureSettingsTwice(cache: SettingsCache, loaded: Settings, fetch: string -> PresetResult)
    returns (first: Outcome<ParsedSettings>, second: Outcome<ParsedSettings>)
    requires loaded.Valid()
    requires forall name :: fetch(name).Valid()
    modifies cache
    ensures first.Done? ==> second == first
  {
    first := cache.EnsureSettings(false, loaded, fetch);
    second := cache.EnsureSettings(false, loaded, fetch);
  }
}
