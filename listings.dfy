/** The per-listing predicates (`isAd`, `isRecommender`,
    `isProduceKeywordMatch`, `isSellers`, `isSellerCreditLessThan`) and the
    visibility decision `run` makes for one listing: hidden iff some enabled
    predicate fires, evaluated left to right with short-circuit `||`, and
    visible whenever the evaluation throws (fail-open). */
module Listings {
  import opened JsValues
  import opened RegExps

  /** `sellerInfo.sellerId`: a string, a number, or something else. */
  datatype SellerId = IdString(s: string) | IdNumber(n: int) | IdOther

  /** `sellerInfo.sellerCredit`: a number, a string, or something else. */
  datatype Credit = CreditNumber(n: int) | CreditString(s: string) | CreditOther

  /** `item.sellerInfo`. A nick or store name that is missing or not a
      string is `None`: it can never equal a string key of the seller set. */
  datatype SellerInfo = SellerInfo(
    sellerId: SellerId,
    sellerNick: Option<string>,
    sellerStoreName: Option<string>,
    sellerCredit: Credit)

  /** The product's `item` property. A name that is missing or not a string is `None`. */
  datatype Item = Item(name: Option<string>, sellerInfo: Option<SellerInfo>)

  /** One `.product-item` element: whether it contains the ad tag
      (`.rt-product-card-ad-tag`) and the recommender marker
      (`.recommender-keyword`), and the `item` read through
      `firstElementChild.__vue__.$props`: `Done(None)` when a link of that
      chain is missing, `Thrown` when reading it throws. */
  datatype Listing = Listing(adTag: bool, recommenderTag: bool, item: Outcome<Option<Item>>)

  function IsAd(listing: Listing): bool {
    listing.adTag
  }

  function IsRecommender(listing: Listing): bool {
    listing.recommenderTag
  }

  /** `isProduceKeywordMatch`: a missing or empty name never matches. */
  function IsProduceKeywordMatch(listing: Listing, matcher: Matcher): Outcome<bool> {
    match listing.item
    case Thrown => Thrown
    case Done(item) =>
      var name := if item.Some? then item.value.name else None;
      if name.None? || name.value == "" then Done(false) else Done(Test(matcher, name.value))
  }

  /** The number and string forms `isSellers` derives from a seller id:
      `parseInt` of a string id (`None` for `NaN`), or `String` of a numeric id. */
  function SellerIdForms(id: SellerId): (Option<int>, Option<string>) {
    match id
    case IdString(s) => (ParseInt(s), Some(s))
    case IdNumber(n) => (Some(n), Some(IntToString(n)))
    case IdOther => (None, None)
  }

  /** The `||` of the four lookups in `isSellers`; each form is looked up
      only when it is truthy (a non-zero number, a non-empty string). */
  function SellerMatches(info: SellerInfo, storeSet: set<SetKey>): bool {
    var (idNumber, idString) := SellerIdForms(info.sellerId);
    || (idNumber.Some? && idNumber.value != 0 && NumKey(idNumber.value) in storeSet)
    || (idString.Some? && idString.value != "" && StrKey(idString.value) in storeSet)
    || (info.sellerNick.Some? && info.sellerNick.value != "" && StrKey(info.sellerNick.value) in storeSet)
    || (info.sellerStoreName.Some? && info.sellerStoreName.value != "" && StrKey(info.sellerStoreName.value) in storeSet)
  }

  /** `isSellers`: false when there is no `sellerInfo`. */
  function IsSellers(listing: Listing, storeSet: set<SetKey>): Outcome<bool> {
    match listing.item
    case Thrown => Thrown
    case Done(item) =>
      if item.None? || item.value.sellerInfo.None? then Done(false)
      else Done(SellerMatches(item.value.sellerInfo.value, storeSet))
  }

  /** The comparison in `isSellerCreditLessThan`: a number is compared as
      is, a string through `parseInt` (`NaN` never compares), anything else
      never compares. */
  function CreditLessThan(raw: Credit, value: int): bool {
    match raw
    case CreditNumber(n) => n < value
    case CreditString(s) => ParseInt(s).Some? && ParseInt(s).value < value
    case CreditOther => false
  }

  /** `isSellerCreditLessThan`: a missing `sellerInfo` gives an `undefined`
      credit, which never compares. */
  function IsSellerCreditLessThan(listing: Listing, value: int): Outcome<bool> {
    match listing.item
    case Thrown => Thrown
    case Done(item) =>
      var raw := if item.Some? && item.value.sellerInfo.Some? then item.value.sellerInfo.value.sellerCredit else CreditOther;
      Done(CreditLessThan(raw, value))
  }

  // ---------------------------------------------------------------------
  // The visibility decision in `run`
  // ---------------------------------------------------------------------

  /** The fields of the resolved settings that `run` reads. */
  datatype Filters = Filters(
    hideAD: bool,
    hideRecommender: bool,
    hideProductKeywordMatcher: Option<Matcher>,
    hideSellerSet: Option<set<SetKey>>,
    hideSellerCreditLessThan: int)

  /** The five terms of the `||` in `run`, in order. */
  datatype Check = AdCheck | RecommenderCheck | KeywordCheck | SellerCheck | CreditCheck

  /** One term of the `||`: `Done(false)` when its setting disables it. */
  function Evaluate(filters: Filters, listing: Listing, check: Check): Outcome<bool> {
    match check
    case AdCheck => Done(filters.hideAD && IsAd(listing))
    case RecommenderCheck => Done(filters.hideRecommender && IsRecommender(listing))
    case KeywordCheck =>
      if filters.hideProductKeywordMatcher.Some?
      then IsProduceKeywordMatch(listing, filters.hideProductKeywordMatcher.value) else Done(false)
    case SellerCheck =>
      if filters.hideSellerSet.Some? then IsSellers(listing, filters.hideSellerSet.value) else Done(false)
    case CreditCheck =>
      if filters.hideSellerCreditLessThan > 0
      then IsSellerCreditLessThan(listing, filters.hideSellerCreditLessThan) else Done(false)
  }

  /** JavaScript's short-circuit `first || rest`: `rest` is reached, and may
      throw, only when `first` is false. */
  function OrElse(first: Outcome<bool>, rest: Outcome<bool>): Outcome<bool> {
    match first
    case Thrown => Thrown
    case Done(b) => if b then Done(true) else rest
  }

  function Hidden(filters: Filters, listing: Listing): Outcome<bool> {
    OrElse(Evaluate(filters, listing, AdCheck),
    OrElse(Evaluate(filters, listing, RecommenderCheck),
    OrElse(Evaluate(filters, listing, KeywordCheck),
    OrElse(Evaluate(filters, listing, SellerCheck),
           Evaluate(filters, listing, CreditCheck)))))
  }

  /** The element of `visibles` for one listing: the `catch` returns `true`. */
  function Visible(filters: Filters, listing: Listing): bool {
    match Hidden(filters, listing)
    case Thrown => true
    case Done(hidden) => !hidden
  }

  /** The position of a check in the `||`. */
  function Rank(check: Check): nat {
    match check
    case AdCheck => 0
    case RecommenderCheck => 1
    case KeywordCheck => 2
    case SellerCheck => 3
    case CreditCheck => 4
  }

  // ---------------------------------------------------------------------
  // Properties of the decision
  // ---------------------------------------------------------------------

  /** Fail-open: a listing is hidden only when some enabled check fired. */
  lemma HiddenOnlyWhenACheckFires(filters: Filters, listing: Listing)
    ensures !Visible(filters, listing) ==> exists c :: Evaluate(filters, listing, c) == Done(true)
  {
    var ad := Evaluate(filters, listing, AdCheck);
    var recommender := Evaluate(filters, listing, RecommenderCheck);
    var keyword := Evaluate(filters, listing, KeywordCheck);
    var seller := Evaluate(filters, listing, SellerCheck);
    if !Visible(filters, listing) {
      if ad != Done(false) {
        assert ad == Done(true);
      } else if recommender != Done(false) {
        assert recommender == Done(true);
      } else if keyword != Done(false) {
        assert keyword == Done(true);
      } else if seller != Done(false) {
        assert seller == Done(true);
      } else {
        assert Evaluate(filters, listing, CreditCheck) == Done(true);
      }
    }
  }

  /** When no check throws, a listing is visible iff no enabled check fires. */
  lemma VisibleIffNoCheckFires(filters: Filters, listing: Listing)
    requires forall c :: Evaluate(filters, listing, c) != Thrown
    ensures Visible(filters, listing) <==> forall c :: Evaluate(filters, listing, c) != Done(true)
  {
    assert Evaluate(filters, listing, AdCheck) != Thrown;
    assert Evaluate(filters, listing, RecommenderCheck) != Thrown;
    assert Evaluate(filters, listing, KeywordCheck) != Thrown;
    assert Evaluate(filters, listing, SellerCheck) != Thrown;
    assert Evaluate(filters, listing, CreditCheck) != Thrown;
  }

  /** A check that throws, reached because every earlier check was false,
      leaves the listing visible. */
  lemma ThrowingCheckLeavesVisible(filters: Filters, listing: Listing, check: Check)
    requires Evaluate(filters, listing, check) == Thrown
    requires forall c :: Rank(c) < Rank(check) ==> Evaluate(filters, listing, c) == Done(false)
    ensures Visible(filters, listing)
  {
    assert Rank(AdCheck) == 0 && Rank(RecommenderCheck) == 1 && Rank(KeywordCheck) == 2 && Rank(SellerCheck) == 3;
  }

  /** When the listing's properties cannot be read, only the ad and
      recommender checks, which look at the element itself, can hide it. */
  lemma UnreadableListingVisibleUnlessTagged(filters: Filters, adTag: bool, recommenderTag: bool)
    ensures Visible(filters, Listing(adTag, recommenderTag, Thrown)) <==>
      !(filters.hideAD && adTag) && !(filters.hideRecommender && recommenderTag)
  {
  }

  /** A listing without an `item`, or whose name is missing or empty, never
      matches a keyword, whatever the matcher. */
  lemma MissingNameNeverMatches(listing: Listing, matcher: Matcher)
    requires listing.item.Done?
    requires listing.item.value.None? || listing.item.value.value.name.None? ||
             listing.item.value.value.name == Some("")
    ensures IsProduceKeywordMatch(listing, matcher) == Done(false)
  {
  }

  /** A threshold of zero or below switches the credit check off: the
      listing's credit has no effect on its visibility. */
  lemma NonPositiveThresholdIgnoresCredit(filters: Filters, adTag: bool, recommenderTag: bool,
                                          name: Option<string>, id: SellerId, nick: Option<string>,
                                          store: Option<string>, credit1: Credit, credit2: Credit)
    requires filters.hideSellerCreditLessThan <= 0
    ensures Visible(filters, Listing(adTag, recommenderTag, Done(Some(Item(name, Some(SellerInfo(id, nick, store, credit1))))))) ==
            Visible(filters, Listing(adTag, recommenderTag, Done(Some(Item(name, Some(SellerInfo(id, nick, store, credit2)))))))
  {
  }

  // ---------------------------------------------------------------------
  // Properties of the seller lookup
  // ---------------------------------------------------------------------

  /** Every member is a string, as in a set built from `getEnabledArray`. */
  ghost predicate StringKeysOnly(storeSet: set<SetKey>) {
    forall x :: x in storeSet ==> x.StrKey?
  }

  /** The strings a seller can be matched by: a non-empty string id or the
      decimal form of a numeric id, a non-empty nick and a non-empty store name. */
  function CandidateKeys(info: SellerInfo): set<string> {
    (match info.sellerId
     case IdString(s) => if s != "" then {s} else {}
     case IdNumber(n) => {IntToString(n)}
     case IdOther => {})
    + (if info.sellerNick.Some? && info.sellerNick.value != "" then {info.sellerNick.value} else {})
    + (if info.sellerStoreName.Some? && info.sellerStoreName.value != "" then {info.sellerStoreName.value} else {})
  }

  /** Against a set of string keys the numeric lookup never hits, so a
      seller matches iff one of its candidate strings is in the set. */
  lemma SellerMatchesCandidates(info: SellerInfo, storeSet: set<SetKey>)
    requires StringKeysOnly(storeSet)
    ensures SellerMatches(info, storeSet) <==> exists k :: k in CandidateKeys(info) && StrKey(k) in storeSet
  {
    var (idNumber, idString) := SellerIdForms(info.sellerId);
    if idNumber.Some? {
      assert NumKey(idNumber.value) !in storeSet;
    }
    if info.sellerId.IdNumber? {
      assert IntToString(info.sellerId.n) != "";
    }
  }

  /** `isSellers` on a compiled set: false without `sellerInfo`, otherwise
      true iff a candidate string of the seller is in the set. */
  lemma IsSellersSpec(listing: Listing, storeSet: set<SetKey>)
    requires StringKeysOnly(storeSet)
    requires listing.item.Done?
    ensures IsSellers(listing, storeSet) == Done(
      listing.item.value.Some? && listing.item.value.value.sellerInfo.Some? &&
      exists k :: k in CandidateKeys(listing.item.value.value.sellerInfo.value) && StrKey(k) in storeSet)
  {
    if listing.item.value.Some? && listing.item.value.value.sellerInfo.Some? {
      SellerMatchesCandidates(listing.item.value.value.sellerInfo.value, storeSet);
    }
  }

  /** A numeric seller id `n` and the string id `String(n)` are looked up
      identically, whatever the set holds. */
  lemma NumericIdMatchesLikeItsString(n: int, nick: Option<string>, store: Option<string>,
                                      credit: Credit, storeSet: set<SetKey>)
    ensures SellerMatches(SellerInfo(IdNumber(n), nick, store, credit), storeSet) ==
            SellerMatches(SellerInfo(IdString(IntToString(n)), nick, store, credit), storeSet)
  {
    ParseIntOfIntToString(n);
  }

  /** The numeric id 123 matches the stored key "123". */
  lemma NumericIdMatchesStoredString(nick: Option<string>, store: Option<string>, credit: Credit)
    ensures SellerMatches(SellerInfo(IdNumber(123), nick, store, credit), {StrKey("123")})
  {
    assert NatToString(1) == "1";
    assert NatToString(12) == NatToString(1) + "2";
    assert NatToString(123) == NatToString(12) + "3";
    assert IntToString(123) == "123";
  }

  // ---------------------------------------------------------------------
  // Properties of the credit check
  // ---------------------------------------------------------------------

  /** A credit given as the string `String(n)` compares exactly like the
      number `n`, against every threshold. */
  lemma StringCreditComparesLikeNumber(n: int, value: int)
    ensures CreditLessThan(CreditString(IntToString(n)), value) == CreditLessThan(CreditNumber(n), value)
  {
    ParseIntOfIntToString(n);
  }

  /** With a threshold of 50, a credit "30" is below it. */
  lemma NumericStringCreditBelowThreshold()
    ensures CreditLessThan(CreditString("30"), 50)
  {
    var digits := "30";
    assert IsDigitOf(digits[0], 10) && IsDigitOf(digits[1], 10);
    assert digits[..1] == "3";
    assert DigitsValue(digits, 10) == 30;
    ParseMagnitudeOfDigits(digits);
    ParseIntOfUnsigned(digits, 30);
  }

  /** A credit "abc", which `parseInt` reads as `NaN`, and a missing credit
      never count as below a threshold. */
  lemma NonNumericCreditNeverBelow(value: int)
    ensures !CreditLessThan(CreditString("abc"), value)
    ensures !CreditLessThan(CreditOther, value)
  {
    var s := "abc";
    assert !IsJsWhiteSpace(s[0]);
    assert TrimStart(s) == s;
    assert !IsDigitOf(s[0], 10);
    assert LeadingDigits(s, 10) == 0;
  }
}
