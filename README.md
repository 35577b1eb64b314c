# Custom Filter for Ruten — a Dafny model of the filtering core

`ruten-filter.user.js` is a user script for the product search pages of
ruten.com.tw. It hides product listings that the user does not want to see:

- advertisements and recommender placements;
- listings whose product name contains a blocked keyword;
- listings from blocked sellers, matched by seller id, nick or store name;
- listings from sellers whose credit is below a threshold.

The blocked keywords and sellers are the user's own maps. Enabled presets,
which are JSON documents bundled with the script, are merged over them.

This project models the script's core in Dafny and proves what it promises:

- `js_values.dfy` (`JsValues`): the JavaScript values the core relies on.
  - `undefined` versus defined property values.
  - Evaluations that may throw.
  - The keys of a `Set<number|string>`, which `has` compares by SameValueZero, so a number never equals a string.
  - `String(n)` for integers.
  - `parseInt` with no radix: leading white space, a sign, a `0x` prefix, and the longest run of digits.
- `records.dfy` (`Records`): plain objects used as maps.
  - A `Record` value: the keys in enumeration order and their values.
  - A `RecordObject` class whose properties are assigned in place.
  - `mergeRecords`, modelled as a loop proved against a specification function.
  - `getEnabledArray`, modelled the same way.
- `regexps.dfy` (`RegExps`):
  - `escapeRegExp`;
  - the alternation pattern built from the enabled keywords;
  - the meaning of `new RegExp` and `test` for patterns of that shape.
  
  The model proves that the escaped alternation compiles, and that it matches exactly the names that contain one of the keywords.
- `settings.dfy` (`SettingsResolution`): `ensureSettings`, as a `SettingsCache` class holding the `cachedSettings` slot.
  - It returns the cached value unless forced.
  - It fetches the enabled presets, skips the rejected ones and merges the rest in order into fresh copies of the user's maps.
  - It compiles the keyword matcher and the seller set, then caches the result.
  - A `null` preset document makes the property read on it throw. The whole call is then rejected and the cache is left as it was.
- `listings.dfy` (`Listings`):
  - the per-listing predicates `isAd`, `isRecommender`, `isProduceKeywordMatch`, `isSellers` and `isSellerCreditLessThan`;
  - the decision `run` makes for each listing.
  
  A listing is hidden iff some enabled predicate fires. The predicates are evaluated left to right with short-circuit `||`. If the evaluation throws, the listing stays visible (fail-open).
- `runner.dfy` (`Runner`): `run`.
  - It resolves the settings and computes every listing's visibility.
  - It then writes the visibilities back into the listings' `style.display` slots, an array, from the last index down.

The host environment becomes inputs:

- the settings `loadSettings` returns (a `Settings` value);
- the settled outcome of fetching each preset by name (a function `fetch`);
- the listings on the page, each reduced to its two tag flags and its `item` property;
- the array of their `style.display` values.

Two facts of the code combine into a behaviour worth knowing:

- `getEnabledArray` (`ruten-filter.user.js:63-72`) neither trims keys nor drops the empty key `""`.
- The settings panel stores `{"": true}` when the keyword field is cleared (`ruten-filter.user.js:431`).
- So an empty keyword is enabled. It compiles into an alternative that matches every name, and every listing with a name is hidden. `Runner.EmptyKeywordMatchesEveryName` proves this.

## Model

| member | source | states |
|---|---|---|
| JsValues.ParseIntOfIntToString | ruten-filter.user.js:250-256 | `parseInt(String(n))` is `n` for every integer, so a numeric seller id and its string form give the same number |
| JsValues.IntToString | ruten-filter.user.js:255 | `String(n)` of an integer: a minus sign for negatives, then the decimal digits without leading zeros |
| JsValues.ParseInt | ruten-filter.user.js:251 | `parseInt(s)` with no radix: leading white space skipped, an optional sign, a `0x`/`0X` prefix selecting base 16, then the longest run of digits; `NaN` (none) when there are no digits |
| JsValues.ParseIntStopsAtNonDigit | ruten-filter.user.js:251 | `parseInt` reads the leading decimal digits and stops at the first character that is not one; only a lone `0` followed by `x` or `X` is read as a hexadecimal prefix instead |
| Records.RecordObject.constructor | ruten-filter.user.js:115-122 | a fresh object holds exactly the given properties |
| Records.RecordObject.Assign | ruten-filter.user.js:54 | `dst[key] = value`: the key takes the value, a new key is appended to the enumeration order, and an existing key keeps its place |
| Records.MergeRecords | ruten-filter.user.js:51-57 | the loop leaves in `dst` the merge of the entries of `src`, in order, that are not `undefined` |
| Records.MergeSpec | ruten-filter.user.js:51-57 | after the merge, every key `src` defines holds `src`'s value; every other key keeps its presence and its value; no key of `dst` is removed or reordered |
| Records.EnabledKeys | ruten-filter.user.js:63-72 | the enabled list holds exactly the keys whose value is `=== true`, each once |
| Records.GetEnabledArray | ruten-filter.user.js:63-72 | the loop returns the keys whose value is `=== true`, in entry order, each once; `false`, `undefined` and any other value are skipped |
| RegExps.EscapeRegExp | ruten-filter.user.js:188-190 | `escapeRegExp`: a backslash is inserted before each of `. * + ? ^ $ { } ( ) \| [ ] \\` and every other character is copied |
| RegExps.EscapeRegExpSpec | ruten-filter.user.js:188-190 | the escaped string is longer by exactly the number of syntax characters, and removing the inserted backslashes gives the input back |
| RegExps.CompileRegExp | ruten-filter.user.js:151-153 | `new RegExp(p)` for a pattern of literal, escaped alternatives separated by `\|`: the list of alternatives, or none for a pattern outside that shape |
| RegExps.Test | ruten-filter.user.js:230 | `matcher.test(name)`: true iff some alternative occurs in the name as a substring |
| RegExps.PatternCompiles | ruten-filter.user.js:148-153 | the escaped keywords joined by `\|` always compile, and the regular expression's alternatives are exactly the keywords, in order |
| SettingsResolution.MergePresetResults | ruten-filter.user.js:131-144 | the loop merges each fulfilled preset's keyword and seller maps into the user's maps, in order; it throws iff some preset document is `null` |
| SettingsResolution.MergePresetsSkipsRejected | ruten-filter.user.js:131-135 | rejected fetches contribute nothing: dropping them does not change the merged map |
| SettingsResolution.MergePresetsLastWins | ruten-filter.user.js:131-144 | for a key that several presets define, the last preset that defines it wins, even over the user's own entry |
| SettingsResolution.MergePresetsUntouched | ruten-filter.user.js:131-144 | a key that no preset defines keeps its presence and the user's value |
| SettingsResolution.MergePresetsKeepsKeys | ruten-filter.user.js:131-144 | merging presets never removes or reorders a key of the user's map |
| SettingsResolution.UserAndPresetKeywordsCombine | ruten-filter.user.js:131-144 | a user map `{foo: true}` and a preset `{bar: true}` leave exactly `foo` and `bar` enabled |
| SettingsResolution.KeySet | ruten-filter.user.js:163-166 | the reduced set holds exactly the given keys, each as a string |
| SettingsResolution.CompileKeywordMatcher | ruten-filter.user.js:146-157 | the matcher is built from the enabled keywords of the merged map, and is absent when none is enabled |
| SettingsResolution.CompileKeywordsSpec | ruten-filter.user.js:146-157 | the matcher is absent iff no keyword is enabled; otherwise it matches a name iff the name contains some enabled keyword |
| SettingsResolution.CompileSellerSet | ruten-filter.user.js:159-167 | the seller set is built from the enabled sellers of the merged map, and is absent when none is enabled |
| SettingsResolution.CompileSellersSpec | ruten-filter.user.js:159-167 | the seller set is absent iff no seller is enabled; otherwise it holds exactly the enabled seller keys, all as strings |
| SettingsResolution.SettingsCache.constructor | ruten-filter.user.js:104 | the cache starts empty |
| SettingsResolution.SettingsCache.EnsureSettings | ruten-filter.user.js:110-178 | without `force`, a cached value is returned and nothing changes. Otherwise the call throws iff a preset document is `null`, which leaves the cache alone; else it returns and caches the settings resolved from the loaded settings and the preset outcomes, with freshly merged maps |
| SettingsResolution.EnsureSettingsTwice | ruten-filter.user.js:110-113 | a second call without `force` returns the very settings the first one cached |
| Listings.IsAd | ruten-filter.user.js:208-210 | the listing contains the ad tag |
| Listings.IsRecommender | ruten-filter.user.js:216-218 | the listing contains the recommender marker |
| Listings.IsProduceKeywordMatch | ruten-filter.user.js:225-231 | false when the listing has no `item` or its name is missing or empty; otherwise the matcher's `test` of the name; throws when reading the listing's properties throws |
| Listings.MissingNameNeverMatches | ruten-filter.user.js:225-231 | a listing without an `item`, or whose name is missing or empty, never keyword-matches, whatever the matcher |
| Listings.SellerMatches | ruten-filter.user.js:244-263 | the four lookups of `isSellers` in order: the id's number form when non-zero, its string form when non-empty, then the nick and the store name when non-empty |
| Listings.IsSellers | ruten-filter.user.js:238-264 | false without `sellerInfo`, otherwise the seller lookups; throws when reading the listing's properties throws |
| Listings.SellerMatchesCandidates | ruten-filter.user.js:244-263 | against a set of string keys, a seller matches iff one of its non-empty string id (or `String` of its numeric id), nick or store name is in the set |
| Listings.IsSellersSpec | ruten-filter.user.js:238-264 | `isSellers` is false without `sellerInfo`, and otherwise true iff one of the seller's candidate strings is in the set |
| Listings.NumericIdMatchesLikeItsString | ruten-filter.user.js:250-263 | a numeric id `n` is looked up exactly like the string id `String(n)`, whatever the set holds |
| Listings.NumericIdMatchesStoredString | ruten-filter.user.js:253-260 | the numeric id 123 matches the stored key "123" |
| Listings.CreditLessThan | ruten-filter.user.js:275-287 | a numeric credit is compared with the threshold; a string credit through `parseInt`, false when that gives `NaN`; any other credit is false |
| Listings.IsSellerCreditLessThan | ruten-filter.user.js:271-288 | the credit comparison on the listing's `sellerInfo.sellerCredit`, false when there is no `sellerInfo`; throws when reading the listing's properties throws |
| Listings.StringCreditComparesLikeNumber | ruten-filter.user.js:277-287 | a credit given as the string `String(n)` compares exactly like the number `n`, against every threshold |
| Listings.NumericStringCreditBelowThreshold | ruten-filter.user.js:279-287 | a credit string "30" is below a threshold of 50 |
| Listings.NonNumericCreditNeverBelow | ruten-filter.user.js:277-286 | the credit string "abc", which `parseInt` reads as `NaN`, and a credit that is neither a number nor a string are never below any threshold |
| Listings.Hidden | ruten-filter.user.js:317-327 | the `\|\|` of the five checks, each switched off by its setting (the credit check by a threshold not above 0), evaluated left to right and stopping at the first that fires or throws |
| Listings.Visible | ruten-filter.user.js:316-331 | a listing's entry of `visibles`: the negation of `Hidden`, and `true` when the evaluation throws |
| Listings.HiddenOnlyWhenACheckFires | ruten-filter.user.js:316-331 | fail-open: a listing is hidden only when some enabled predicate fired |
| Listings.VisibleIffNoCheckFires | ruten-filter.user.js:316-327 | when no predicate throws, a listing is visible iff no enabled predicate fires |
| Listings.ThrowingCheckLeavesVisible | ruten-filter.user.js:316-331 | a predicate that throws, reached because every earlier term of the `\|\|` was false, leaves the listing visible |
| Listings.UnreadableListingVisibleUnlessTagged | ruten-filter.user.js:316-331 | when the listing's properties cannot be read, only the ad and recommender checks can hide it |
| Listings.NonPositiveThresholdIgnoresCredit | ruten-filter.user.js:325-326 | a threshold of 0 (or below) switches the credit check off: the seller's credit has no effect on visibility |
| Runner.DisplayValue | ruten-filter.user.js:294-297 | `setProductVisible`: `''` for a visible listing, `'none'` for a hidden one |
| Runner.ApplyVisibility | ruten-filter.user.js:332-334 | the reverse loop sets every slot to `''` if its listing is visible and `'none'` if not |
| Runner.Run | ruten-filter.user.js:302-335 | the pass throws iff resolving the settings throws, and then neither a display nor the cache changes. Otherwise every listing's display shows its decision under the settings now cached, which are the freshly resolved ones when recomputed and the old ones when not |
| Runner.EmptyKeywordMatchesEveryName | ruten-filter.user.js:146-157 | an enabled empty keyword compiles into a matcher that matches every name |
| Runner.SingleKeywordCompiles | ruten-filter.user.js:146-153 | the keyword map `{foo: true}` compiles into the matcher whose only alternative is "foo" |
| Runner.AdAndKeywordScenario | ruten-filter.user.js:302-331 | with ads and the keyword "foo" hidden, an ad and a listing named "a foo b" are hidden and a listing named "bar" stays visible |

## Left out

- `loadSettings`, `GM.getValue`, `GM.setValue`, `GM.getResourceUrl`, `fetch` and `resp.json()` are storage and network I/O. Their outcomes are inputs: the loaded `Settings`, and the settled outcome of each preset fetch.
- The `MutationObserver`, its `running` flag, the unawaited `run()` calls and the `configuring` guard manage asynchronous re-entry. Each pass is modelled as one sequential call.
- The settings panel (`configure`, QuickSettings, the menu command) is UI glue around a library and is not part of this model.
- DOM access (`querySelectorAll`, `querySelector`, `firstElementChild`, `__vue__.$props`, `style.display`) is replaced by listing records and an array of display values. A throwing property read is the `Thrown` outcome of a listing's `item`.
- `console.warn` is dropped.
- JavaScript numbers are integers here: float credits and thresholds, `NaN`, `Infinity` and `-0` are not modelled.
- `String(n)` is plain decimal notation; the exponent form JavaScript uses from 1e21 up is not modelled.
- `parseInt` beyond 2^53 loses precision in JavaScript; the model's integers are exact.
- Records.RecordObject.Assign: an assignment to the key `__proto__` on an object without an own property of that name runs the `Object.prototype.__proto__` setter in JavaScript. A non-object value is ignored, an object value replaces the prototype, and no own key is added. The model treats `__proto__` as an ordinary key. The same gap carries into `Records.MergeRecords`, `Records.Merge` and the preset merge of `ensureSettings`: a preset map `{"__proto__": true}` enables a keyword `__proto__` in the model but not in the script.
- Object key order is insertion order; JavaScript enumerates integer-like keys first, in ascending order, and that is not modelled.
- The regular expression is given a meaning only for the literal-alternation patterns the script builds. General `RegExp` syntax, and the `catch` around `new RegExp`, are outside it; `RegExps.PatternCompiles` shows that the `catch` is never taken.
- Strings are sequences of characters; UTF-16 surrogate pairs and Unicode white space beyond the listed characters are not distinguished.
- A product name, nick or store name that is truthy but not a string is modelled as missing. The code would coerce such a name to a string for the regular expression, or look up such a nick by value.
- A preset document that is neither `null` nor an object is not modelled; one with neither map is.
- A user map value that is truthy but not an object (for `hideProductKeywords` or `hideSellers`) is not modelled.
