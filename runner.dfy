/** One filtering pass (`run`): resolve the settings, decide the visibility
    of every listing on the page, then write each decision back to the
    listing's `style.display`, last listing first. The page's listings are
    the caller's input, and their `style.display` values are an array. */
module Runner {
  import opened JsValues
  import opened Records
  import opened RegExps
  import opened SettingsResolution
  import opened Listings

  /** The fields `run` destructures from the resolved settings. */
  function FiltersOf(p: ParsedSettings): Filters {
    Filters(p.hideAD, p.hideRecommender, p.hideProductKeywordMatcher, p.hideSellerSet, p.hideSellerCreditLessThan)
  }

  /** `setProductVisible`: the `style.display` a decision leads to. */
  function DisplayValue(visible: bool): string {
    if visible then "" else "none"
  }

  /** The `visibles` array: one decision per listing, in page order. */
  function Visibles(filters: Filters, listings: seq<Listing>): (r: seq<bool>)
    ensures |r| == |listings|
    ensures forall i :: 0 <= i < |listings| ==> r[i] == Visible(filters, listings[i])
  {
    seq(|listings|, i requires 0 <= i < |listings| => Visible(filters, listings[i]))
  }

  /** The write-back loop of `run`: from the last listing down to the first,
      each slot gets the display value of its own decision. */
  method ApplyVisibility(display: array<string>, visibles: seq<bool>)
    requires display.Length == |visibles|
    modifies display
    ensures forall i :: 0 <= i < display.Length ==> display[i] == DisplayValue(visibles[i])
  {
    var i := display.Length - 1;
    while i >= 0
      invariant -1 <= i < display.Length
      invariant forall j :: i < j < display.Length ==> display[j] == DisplayValue(visibles[j])
    {
      display[i] := DisplayValue(visibles[i]);
      i := i - 1;
    }
  }

  /** `run(force)`. The settings are resolved first; when that throws the
      pass is abandoned and no listing is touched. Otherwise every listing's
      display shows the decision made under the settings now cached. */
  method Run(cache: SettingsCache, force: bool, loaded: Settings, fetch: string -> PresetResult,
             listings: seq<Listing>, display: array<string>)
    returns (outcome: Outcome<()>)
    requires loaded.Valid()
    requires forall name :: fetch(name).Valid()
    requires display.Length == |listings|
    modifies cache, display
    ensures outcome.Thrown? <==>
      (force || old(cache.cachedSettings).None?) && HasNullDoc(FetchPresets(loaded.presets, fetch))
    ensures outcome.Thrown? ==> display[..] == old(display[..]) && cache.cachedSettings == old(cache.cachedSettings)
    ensures outcome.Done? ==>
      && cache.cachedSettings.Some?
      && (!force && old(cache.cachedSettings).Some? ==> cache.cachedSettings == old(cache.cachedSettings))
      && (force || old(cache.cachedSettings).None? ==>
            Resolved(cache.cachedSettings.value, loaded, FetchPresets(loaded.presets, fetch)))
      && forall i :: 0 <= i < |listings| ==>
           display[i] == DisplayValue(Visible(FiltersOf(cache.cachedSettings.value), listings[i]))
  {
    var settings := cache.EnsureSettings(force, loaded, fetch);
    if settings.Thrown? {
      return Thrown;
    }
    var filters := FiltersOf(settings.value);
    if |listings| == 0 {
      return Done(());
    }
    var visibles := Visibles(filters, listings);
    ApplyVisibility(display, visibles);
    outcome := Done(());
  }

  // ---------------------------------------------------------------------
  // Properties
  // ---------------------------------------------------------------------

  /** An enabled empty keyword (what a blank entry in the keyword field
      stores) compiles into a matcher that matches every name. */
  lemma EmptyKeywordMatchesEveryName(keywords: Record, name: string)
    requires keywords.Valid() && IsEnabled(keywords, "")
    ensures CompileKeywords(keywords).Some?
    ensures Test(CompileKeywords(keywords).value, name)
  {
    CompileKeywordsSpec(keywords);
    assert OccursAt(name, "", 0);
  }

  /** The keyword map `{foo: true}` compiles into the matcher of "foo". */
  lemma SingleKeywordCompiles()
    ensures Record(["foo"], map["foo" := Bool(true)]).Valid()
    ensures CompileKeywords(Record(["foo"], map["foo" := Bool(true)])) == Some(Matcher(["foo"]))
  {
    var keywords := Record(["foo"], map["foo" := Bool(true)]);
    assert EnabledKeys(keywords) == ["foo"] by {
      assert keywords.keys[..1] == ["foo"];
      assert keywords.keys[..0] == [];
    }
    PatternCompiles(["foo"]);
  }

  /** A page with an ad, a listing named "a foo b" and a listing named
      "bar", under settings that hide ads and the keyword "foo": the first
      two are hidden and the third stays visible. */
  lemma AdAndKeywordScenario()
    ensures var filters := Filters(true, false, Some(Matcher(["foo"])), None, 0);
      Visibles(filters, [Listing(true, false, Done(Some(Item(Some("x"), None)))),
                         Listing(false, false, Done(Some(Item(Some("a foo b"), None)))),
                         Listing(false, false, Done(Some(Item(Some("bar"), None))))]) == [false, false, true]
  {
    var filters := Filters(true, false, Some(Matcher(["foo"])), None, 0);
    var ad := Listing(true, false, Done(Some(Item(Some("x"), None))));
    var named := Listing(false, false, Done(Some(Item(Some("a foo b"), None))));
    var plain := Listing(false, false, Done(Some(Item(Some("bar"), None))));
    assert !Visible(filters, ad);
    assert !Visible(filters, named) by {
      var m := Matcher(["foo"]);
      assert "a foo b"[2..5] == "foo";
      assert OccursAt("a foo b", "foo", 2);
      assert "foo" in m.alternatives && Contains("a foo b", "foo");
      assert Test(m, "a foo b");
    }
    assert Visible(filters, plain) by {
      var m := Matcher(["foo"]);
      assert "bar"[0..3][0] != "foo"[0];
      assert !OccursAt("bar", "foo", 0);
      assert !Contains("bar", "foo");
      assert forall a :: a in m.alternatives ==> a == "foo";
      assert !Test(m, "bar");
    }
    var v := Visibles(filters, [ad, named, plain]);
    assert v[0] == false && v[1] == false && v[2] == true;
  }
}
