/**
 * The Tax Invoices list's URL state (apps/staff/lib/operator-invoice-list.ts):
 * reading a view off the address bar and writing it back.
 *
 * A query is a map from keys to decoded values. Page numbers are whole numbers;
 * how a number prints and how `parseInt` reads it back are spelled out.
 */
module InvoiceList {
  import opened Wrappers
  import opened Text

  const INVOICE_KIND_FILTERS: seq<string> := ["all", "manual", "sale", "credit_note"]
  const INVOICE_STATUS_FILTERS: seq<string> :=
    ["all", "owed", "pending", "authorized", "not_authorized", "rejected", "needs_attention", "withdrawn", "annulled",
     "abandoned"]
  const INVOICE_ENVIRONMENT_FILTERS: seq<string> := ["all", "test", "production"]
  const OPERATOR_INVOICE_SORTS: seq<string> := ["date", "number", "total", "recipient"]
  const OPERATOR_INVOICE_DIRS: seq<string> := ["asc", "desc"]
  const DEFAULT_SORT: string := "date"
  const DEFAULT_DIR: string := "desc"
  const FIRST_PAGE: int := 1

  datatype Filters = Filters(kind: string, status: string, recipientWarningOnly: bool, q: string, issuedFrom: string,
                             issuedTo: string, environment: string)

  datatype View = View(page: int, filters: Filters, sort: string, dir: string)

  /** The query parameters the list reads, and any other an address may carry. */
  datatype ParamKey =
    | PageKey | KindKey | StatusKey | RecipientWarningKey | QKey | IssuedFromKey | IssuedToKey | EnvironmentKey
    | SortKey | DirKey | OtherKey(name: string)

  type Params = map<ParamKey, string>

  // ---------------------------------------------------------------- numbers as text

  /** From here on `String(n)` is in exponent notation. */
  const EXPONENT_FROM: nat := 1_000_000_000_000_000_000_000

  /** Numerals from here on are read as Infinity: halfway past the largest double. */
  const INFINITE_FROM: nat :=
    0x3fffffffffffff * 0x400 * 0x1000000000000000000000000000000000000000000000000
    * 0x10000000000000000000000000000000000000000000000000000000000000000
    * 0x10000000000000000000000000000000000000000000000000000000000000000
    * 0x10000000000000000000000000000000000000000000000000000000000000000

  predicate IsDigit(c: char) {
    '0' <= c <= '9'
  }

  function DigitChar(d: nat): char
    requires d < 10
  {
    ('0' as int + d) as char
  }

  function Digits(n: nat): (text: string)
    ensures text != "" && forall k :: 0 <= k < |text| ==> IsDigit(text[k])
  {
    if n < 10 then [DigitChar(n)] else Digits(n / 10) + [DigitChar(n % 10)]
  }

  function DigitValue(c: char): nat
    requires IsDigit(c)
  {
    var value: int := c as int - '0' as int;
    value
  }

  /** The value of a run of digits. */
  function ValueOf(digits: string): nat
    requires forall k :: 0 <= k < |digits| ==> IsDigit(digits[k])
  {
    if digits == "" then 0
    else ValueOf(digits[..|digits| - 1]) * 10 + DigitValue(digits[|digits| - 1])
  }

  function DropZeros(digits: string): string {
    if digits != "" && digits[|digits| - 1] == '0' then DropZeros(digits[..|digits| - 1]) else digits
  }

  /** `String(n)`: the digits, or from 10^21 on the first digit, the rest as a fraction, and the exponent. */
  function NumberText(n: nat): string {
    if n < EXPONENT_FROM then Digits(n)
    else
      var digits := Digits(n);
      var fraction := DropZeros(digits[1..]);
      [digits[0]] + (if fraction == "" then "" else "." + fraction) + "e+" + Digits(|digits| - 1)
  }

  function LeadingDigits(text: string): (digits: string)
    ensures forall k :: 0 <= k < |digits| ==> IsDigit(digits[k])
  {
    if text != "" && IsDigit(text[0]) then [text[0]] + LeadingDigits(text[1..]) else ""
  }

  /** `Number.parseInt(text, 10)`: None for NaN. */
  function ParseInt(text: string): Option<int> {
    var trimmed := TrimStart(text);
    var signed := trimmed != "" && (trimmed[0] == '-' || trimmed[0] == '+');
    var digits := LeadingDigits(if signed then trimmed[1..] else trimmed);
    if digits == "" then None
    else
      var value: int := ValueOf(digits);
      if signed && trimmed[0] == '-' then Some(-value) else Some(value)
  }

  lemma {:induction false} ValueOfDigits(n: nat)
    ensures ValueOf(Digits(n)) == n
  {
    if n >= 10 {
      ValueOfDigits(n / 10);
      assert Digits(n)[..|Digits(n)| - 1] == Digits(n / 10);
    } else {
      assert Digits(n)[..0] == "";
    }
  }

  /** A run of digits is read up to whatever follows it. */
  lemma {:induction false} LeadingDigitsStop(digits: string, rest: string)
    requires forall k :: 0 <= k < |digits| ==> IsDigit(digits[k])
    requires rest == "" || !IsDigit(rest[0])
    ensures LeadingDigits(digits + rest) == digits
  {
    if digits == "" {
      assert digits + rest == rest;
    } else {
      LeadingDigitsStop(digits[1..], rest);
      assert (digits + rest)[1..] == digits[1..] + rest;
    }
  }

  lemma DigitsThenRest(digits: string, rest: string)
    requires digits != "" && forall k :: 0 <= k < |digits| ==> IsDigit(digits[k])
    requires rest == "" || !IsDigit(rest[0])
    ensures ParseInt(digits + rest) == Some(ValueOf(digits))
  {
    var text := digits + rest;
    assert text[0] == digits[0] && !IsSpace(text[0]);
    assert TrimStart(text) == text;
    LeadingDigitsStop(digits, rest);
  }

  /** A number is read behind white space and a sign, up to what is no digit. */
  lemma ParseIntReads(spaces: string, sign: string, digits: string, rest: string)
    requires AllSpaces(spaces) && (sign == "" || sign == "+" || sign == "-")
    requires digits != "" && forall k :: 0 <= k < |digits| ==> IsDigit(digits[k])
    requires rest == "" || !IsDigit(rest[0])
    ensures ParseInt(spaces + (sign + (digits + rest))) == Some(Signed(sign == "-", ValueOf(digits)))
  {
    var text := sign + (digits + rest);
    assert text[0] == if sign == "" then digits[0] else sign[0];
    NoSpaceInFront(text);
    SkipSpaces(spaces, text);
    SpacesAreSkipped(spaces, text);
    if sign == "" {
      DigitsThenRest(digits, rest);
      assert text == digits + rest;
    } else {
      SignThenDigits(sign[0], digits, rest);
      assert text == [sign[0]] + (digits + rest);
    }
  }

  function Signed(negative: bool, value: int): int {
    if negative then -value else value
  }

  lemma SpacesAreSkipped(spaces: string, text: string)
    requires TrimStart(text) == text && TrimStart(spaces + text) == text
    ensures ParseInt(spaces + text) == ParseInt(text)
  {
  }

  lemma SignThenDigits(sign: char, digits: string, rest: string)
    requires sign == '+' || sign == '-'
    requires digits != "" && forall k :: 0 <= k < |digits| ==> IsDigit(digits[k])
    requires rest == "" || !IsDigit(rest[0])
    ensures ParseInt([sign] + (digits + rest)) == Some(Signed(sign == '-', ValueOf(digits)))
  {
    hide ParseInt, TrimStart, LeadingDigits, ValueOf;
    var text := [sign] + (digits + rest);
    NoSpaceInFront(text);
    LeadingDigitsStop(digits, rest);
    assert text[1..] == digits + rest && text[0] == sign;
    SignIsRead(text);
  }

  lemma SignIsRead(text: string)
    requires text != "" && (text[0] == '+' || text[0] == '-') && TrimStart(text) == text
    ensures var digits := LeadingDigits(text[1..]);
            ParseInt(text) == if digits == "" then None else Some(Signed(text[0] == '-', ValueOf(digits)))
  {
    hide TrimStart, LeadingDigits, ValueOf;
  }

  lemma NoSpaceInFront(text: string)
    requires text != "" && (IsDigit(text[0]) || text[0] == '+' || text[0] == '-')
    ensures TrimStart(text) == text
  {
  }

  lemma {:induction false} SkipSpaces(spaces: string, text: string)
    requires AllSpaces(spaces) && TrimStart(text) == text
    ensures TrimStart(spaces + text) == text
  {
    hide IsSpace;
    if spaces == "" {
      assert spaces + text == text;
    } else {
      assert (spaces + text)[1..] == spaces[1..] + text;
      SkipSpaces(spaces[1..], text);
    }
  }

  /** Below 10^21 a printed number is read back; from there on only its first digit is. */
  lemma ParseNumberText(n: nat)
    ensures n < EXPONENT_FROM ==> ParseInt(NumberText(n)) == Some(n)
    ensures n >= EXPONENT_FROM ==> ParseInt(NumberText(n)).Some? && 0 <= ParseInt(NumberText(n)).value <= 9
  {
    if n < EXPONENT_FROM {
      ValueOfDigits(n);
      DigitsThenRest(Digits(n), "");
      assert Digits(n) + "" == Digits(n);
    } else {
      var first, rest := ExponentParts(n);
      DigitsThenRest(first, rest);
      assert first[..0] == "" && ValueOf(first) == ValueOf(first[..0]) * 10 + DigitValue(first[0]);
    }
  }

  /** Exponent notation is one digit, then something that is not a digit. */
  lemma ExponentParts(n: nat) returns (first: string, rest: string)
    requires n >= EXPONENT_FROM
    ensures NumberText(n) == first + rest
    ensures |first| == 1 && IsDigit(first[0]) && rest != "" && !IsDigit(rest[0])
  {
    hide Digits, DropZeros;
    var digits := Digits(n);
    var fraction := DropZeros(digits[1..]);
    first := [digits[0]];
    rest := (if fraction == "" then "" else "." + fraction) + "e+" + Digits(|digits| - 1);
    assert NumberText(n) == first + rest;
  }

  // ---------------------------------------------------------------- reading

  function Get(params: Params, key: ParamKey): Option<string> {
    if key in params then Some(params[key]) else None
  }

  function ParsePage(raw: Option<string>): int {
    var parsed := ParseInt(raw.GetOr(""));
    if parsed.Some? && parsed.value < INFINITE_FROM && parsed.value >= FIRST_PAGE then parsed.value else FIRST_PAGE
  }

  function OneOf(raw: Option<string>, allowed: seq<string>, otherwise: string): string {
    if raw.Some? && raw.value in allowed then raw.value else otherwise
  }

  function ParseFilters(params: Params): Filters {
    Filters(OneOf(Get(params, KindKey), INVOICE_KIND_FILTERS, "all"),
            OneOf(Get(params, StatusKey), INVOICE_STATUS_FILTERS, "all"),
            Get(params, RecipientWarningKey) == Some("true"),
            Trim(Get(params, QKey).GetOr("")),
            Trim(Get(params, IssuedFromKey).GetOr("")),
            Trim(Get(params, IssuedToKey).GetOr("")),
            OneOf(Get(params, EnvironmentKey), INVOICE_ENVIRONMENT_FILTERS, "all"))
  }

  function Parse(params: Params): View {
    View(ParsePage(Get(params, PageKey)),
         ParseFilters(params),
         OneOf(Get(params, SortKey), OPERATOR_INVOICE_SORTS, DEFAULT_SORT),
         OneOf(Get(params, DirKey), OPERATOR_INVOICE_DIRS, DEFAULT_DIR))
  }

  // ---------------------------------------------------------------- writing

  /** A `URLSearchParams` under construction. */
  class SearchParams {
    var entries: Params

    constructor ()
      ensures entries == map[]
    {
      entries := map[];
    }

    method Set(key: ParamKey, value: string)
      modifies this
      ensures entries == old(entries)[key := value]
    {
      entries := entries[key := value];
    }

    /** Written when it narrows anything. */
    method SetUnless(key: ParamKey, value: string, unwritten: string)
      modifies this
      ensures entries == Put(old(entries), key, value, value != unwritten)
    {
      if value != unwritten { Set(key, value); }
    }

    method AppendFilters(filters: Filters)
      modifies this
      ensures entries == WithFilters(old(entries), filters)
    {
      SetUnless(KindKey, filters.kind, "all");
      SetUnless(StatusKey, filters.status, "all");
      if filters.recipientWarningOnly { Set(RecipientWarningKey, "true"); }
      SetUnless(QKey, filters.q, "");
      SetUnless(IssuedFromKey, filters.issuedFrom, "");
      SetUnless(IssuedToKey, filters.issuedTo, "");
      SetUnless(EnvironmentKey, filters.environment, "all");
    }

    /** The pair is written together or not at all. */
    method AppendSort(sort: string, dir: string)
      modifies this
      ensures entries == WithSort(old(entries), sort, dir)
    {
      if sort != DEFAULT_SORT || dir != DEFAULT_DIR {
        Set(SortKey, sort);
        Set(DirKey, dir);
      }
    }
  }

  function Put(params: Params, key: ParamKey, value: string, written: bool): Params {
    if written then params[key := value] else params
  }

  function WithFilters(params: Params, f: Filters): Params {
    var p1 := Put(params, KindKey, f.kind, f.kind != "all");
    var p2 := Put(p1, StatusKey, f.status, f.status != "all");
    var p3 := Put(p2, RecipientWarningKey, "true", f.recipientWarningOnly);
    var p4 := Put(p3, QKey, f.q, f.q != "");
    var p5 := Put(p4, IssuedFromKey, f.issuedFrom, f.issuedFrom != "");
    var p6 := Put(p5, IssuedToKey, f.issuedTo, f.issuedTo != "");
    Put(p6, EnvironmentKey, f.environment, f.environment != "all")
  }

  function WithSort(params: Params, sort: string, dir: string): Params {
    if sort != DEFAULT_SORT || dir != DEFAULT_DIR then params[SortKey := sort][DirKey := dir] else params
  }

  function Query(view: View): Params {
    var page := if view.page > FIRST_PAGE then map[PageKey := NumberText(view.page)] else map[];
    WithSort(WithFilters(page, view.filters), view.sort, view.dir)
  }

  method BuildQuery(view: View) returns (query: Params)
    ensures query == Query(view)
  {
    var params := new SearchParams();
    if view.page > FIRST_PAGE { params.Set(PageKey, NumberText(view.page)); }
    params.AppendFilters(view.filters);
    params.AppendSort(view.sort, view.dir);
    query := params.entries;
  }

  predicate HasActiveFilters(f: Filters) {
    f.kind != "all" || f.status != "all" || f.recipientWarningOnly || f.q != "" || f.issuedFrom != ""
      || f.issuedTo != ""
    || f.environment != "all"
  }

  predicate IsDefaultView(view: View) {
    view.page <= FIRST_PAGE && !HasActiveFilters(view.filters) && view.sort == DEFAULT_SORT && view.dir == DEFAULT_DIR
  }

  // ---------------------------------------------------------------- what the address says

  lemma PutGet(params: Params, key: ParamKey, value: string, written: bool, k: ParamKey)
    ensures Get(Put(params, key, value, written), k) == if k == key && written then Some(value) else Get(params, k)
  {
  }

  lemma FiltersHold(params: Params, f: Filters, key: ParamKey)
    ensures Get(WithFilters(params, f), key) ==
      match key
      case KindKey => if f.kind != "all" then Some(f.kind) else Get(params, key)
      case StatusKey => if f.status != "all" then Some(f.status) else Get(params, key)
      case RecipientWarningKey => if f.recipientWarningOnly then Some("true") else Get(params, key)
      case QKey => if f.q != "" then Some(f.q) else Get(params, key)
      case IssuedFromKey => if f.issuedFrom != "" then Some(f.issuedFrom) else Get(params, key)
      case IssuedToKey => if f.issuedTo != "" then Some(f.issuedTo) else Get(params, key)
      case EnvironmentKey => if f.environment != "all" then Some(f.environment) else Get(params, key)
      case _ => Get(params, key)
  {
    hide Get, Put;
    var p1 := Put(params, KindKey, f.kind, f.kind != "all");
    var p2 := Put(p1, StatusKey, f.status, f.status != "all");
    var p3 := Put(p2, RecipientWarningKey, "true", f.recipientWarningOnly);
    var p4 := Put(p3, QKey, f.q, f.q != "");
    var p5 := Put(p4, IssuedFromKey, f.issuedFrom, f.issuedFrom != "");
    var p6 := Put(p5, IssuedToKey, f.issuedTo, f.issuedTo != "");
    PutGet(params, KindKey, f.kind, f.kind != "all", key);
    PutGet(p1, StatusKey, f.status, f.status != "all", key);
    PutGet(p2, RecipientWarningKey, "true", f.recipientWarningOnly, key);
    PutGet(p3, QKey, f.q, f.q != "", key);
    PutGet(p4, IssuedFromKey, f.issuedFrom, f.issuedFrom != "", key);
    PutGet(p5, IssuedToKey, f.issuedTo, f.issuedTo != "", key);
    PutGet(p6, EnvironmentKey, f.environment, f.environment != "all", key);
  }

  /** What each key of a built query holds, and nothing under any other key. */
  lemma QueryHolds(view: View, key: ParamKey)
    ensures Get(Query(view), key) == var f := view.filters;
      match key
      case PageKey => Written(NumberText(if view.page > FIRST_PAGE then view.page else 0), view.page > FIRST_PAGE)
      case KindKey => Written(f.kind, f.kind != "all")
      case StatusKey => Written(f.status, f.status != "all")
      case RecipientWarningKey => Written("true", f.recipientWarningOnly)
      case QKey => Written(f.q, f.q != "")
      case IssuedFromKey => Written(f.issuedFrom, f.issuedFrom != "")
      case IssuedToKey => Written(f.issuedTo, f.issuedTo != "")
      case EnvironmentKey => Written(f.environment, f.environment != "all")
      case SortKey => Written(view.sort, view.sort != DEFAULT_SORT || view.dir != DEFAULT_DIR)
      case DirKey => Written(view.dir, view.sort != DEFAULT_SORT || view.dir != DEFAULT_DIR)
      case OtherKey(_) => None
  {
    hide NumberText, WithFilters;
    var page: Params := if view.page > FIRST_PAGE then map[PageKey := NumberText(view.page)] else map[];
    FiltersHold(page, view.filters, key);
  }

  /** The same, for all keys at once. */
  lemma QueryHoldsAll(view: View)
    ensures var query := Query(view);
      && Get(query, PageKey) == Written(NumberText(if view.page > FIRST_PAGE then view.page else 0),
                                        view.page > FIRST_PAGE)
      && Get(query, KindKey) == Written(view.filters.kind, view.filters.kind != "all")
      && Get(query, StatusKey) == Written(view.filters.status, view.filters.status != "all")
      && Get(query, RecipientWarningKey) == Written("true", view.filters.recipientWarningOnly)
      && Get(query, QKey) == Written(view.filters.q, view.filters.q != "")
      && Get(query, IssuedFromKey) == Written(view.filters.issuedFrom, view.filters.issuedFrom != "")
      && Get(query, IssuedToKey) == Written(view.filters.issuedTo, view.filters.issuedTo != "")
      && Get(query, EnvironmentKey) == Written(view.filters.environment, view.filters.environment != "all")
      && Get(query, SortKey) == Written(view.sort, view.sort != DEFAULT_SORT || view.dir != DEFAULT_DIR)
      && Get(query, DirKey) == Written(view.dir, view.sort != DEFAULT_SORT || view.dir != DEFAULT_DIR)
    ensures forall name :: Get(Query(view), OtherKey(name)) == None
  {
    hide NumberText, Query, Get, Written;
    QueryHolds(view, PageKey);
    QueryHolds(view, KindKey);
    QueryHolds(view, StatusKey);
    QueryHolds(view, RecipientWarningKey);
    QueryHolds(view, QKey);
    QueryHolds(view, IssuedFromKey);
    QueryHolds(view, IssuedToKey);
    QueryHolds(view, EnvironmentKey);
    QueryHolds(view, SortKey);
    QueryHolds(view, DirKey);
    forall name ensures Get(Query(view), OtherKey(name)) == None { QueryHolds(view, OtherKey(name)); }
  }

  function Written(value: string, written: bool): Option<string> {
    if written then Some(value) else None
  }

  /** The address is bare exactly when the reset would change nothing. */
  lemma QueryEmptyIffDefault(view: View)
    ensures Query(view) == map[] <==> IsDefaultView(view)
  {
    hide NumberText, Query;
    QueryHoldsAll(view);
    if IsDefaultView(view) {
      forall key ensures key !in Query(view) {
        NothingIsWritten(view, key);
      }
    }
  }

  lemma NothingIsWritten(view: View, key: ParamKey)
    requires IsDefaultView(view)
    ensures key !in Query(view)
  {
    hide NumberText, Query;
    QueryHolds(view, key);
  }

  /** Values the controls can produce: allowlisted words, trimmed text, a page at least 1. */
  ghost predicate Presentable(view: View) {
    && view.page >= FIRST_PAGE
    && view.filters.kind in INVOICE_KIND_FILTERS
    && view.filters.status in INVOICE_STATUS_FILTERS
    && view.filters.environment in INVOICE_ENVIRONMENT_FILTERS
    && Trimmed(view.filters.q) && Trimmed(view.filters.issuedFrom) && Trimmed(view.filters.issuedTo)
    && view.sort in OPERATOR_INVOICE_SORTS && view.dir in OPERATOR_INVOICE_DIRS
  }

  /** Whatever the address bar holds, what is read off it is presentable. */
  lemma ParsedIsPresentable(params: Params)
    ensures Presentable(Parse(params))
  {
    hide ParseInt, Trim, Trimmed;
    TrimIsTrimmed(Get(params, QKey).GetOr(""));
    TrimIsTrimmed(Get(params, IssuedFromKey).GetOr(""));
    TrimIsTrimmed(Get(params, IssuedToKey).GetOr(""));
    DefaultsAllowed();
  }

  /**
   * What is read for each word: the word when it is one the list knows, and
   * otherwise the one that narrows nothing; the texts are read trimmed.
   */
  lemma UnknownWordsNarrowNothing(params: Params)
    ensures var view := Parse(params);
      && view.filters.kind == KnownOr(params, KindKey, INVOICE_KIND_FILTERS, "all")
      && view.filters.status == KnownOr(params, StatusKey, INVOICE_STATUS_FILTERS, "all")
      && view.filters.environment == KnownOr(params, EnvironmentKey, INVOICE_ENVIRONMENT_FILTERS, "all")
      && view.sort == KnownOr(params, SortKey, OPERATOR_INVOICE_SORTS, "date")
      && view.dir == KnownOr(params, DirKey, OPERATOR_INVOICE_DIRS, "desc")
      && (view.filters.recipientWarningOnly <==> RecipientWarningKey in params && params[RecipientWarningKey] == "true")
      && view.filters.q == (if QKey in params then Trim(params[QKey]) else "")
      && view.filters.issuedFrom == (if IssuedFromKey in params then Trim(params[IssuedFromKey]) else "")
      && view.filters.issuedTo == (if IssuedToKey in params then Trim(params[IssuedToKey]) else "")
  {
    hide ParseInt, Trim;
    EmptyTrims();
  }

  function KnownOr(params: Params, key: ParamKey, known: seq<string>, otherwise: string): string {
    if key in params && exists k :: 0 <= k < |known| && known[k] == params[key] then params[key] else otherwise
  }

  lemma DefaultsAllowed()
    ensures "all" in INVOICE_KIND_FILTERS && "all" in INVOICE_STATUS_FILTERS && "all" in INVOICE_ENVIRONMENT_FILTERS
    ensures DEFAULT_SORT in OPERATOR_INVOICE_SORTS && DEFAULT_DIR in OPERATOR_INVOICE_DIRS
  {
    assert INVOICE_KIND_FILTERS[0] == "all" && INVOICE_STATUS_FILTERS[0] == "all"
      && INVOICE_ENVIRONMENT_FILTERS[0] == "all";
    assert OPERATOR_INVOICE_SORTS[0] == DEFAULT_SORT && OPERATOR_INVOICE_DIRS[1] == DEFAULT_DIR;
  }

  lemma EmptyTrims()
    ensures Trim("") == ""
  {
  }

  /** Everything but the page is read back as it was written. */
  lemma FiltersAndSortRoundTrip(view: View)
    requires Presentable(view)
    ensures Parse(Query(view)) == view.(page := ParsePage(Get(Query(view), PageKey)))
  {
    hide ParseInt, Trim, Trimmed, NumberText, Query, ParsePage;
    QueryHoldsAll(view);
    EmptyTrims();
    TrimIsTrimmed(view.filters.q);
    TrimIsTrimmed(view.filters.issuedFrom);
    TrimIsTrimmed(view.filters.issuedTo);
  }

  lemma PageRoundTrip(page: nat)
    requires page > FIRST_PAGE
    ensures ParsePage(Some(NumberText(page))) == page <==> page < EXPONENT_FROM
    ensures page >= EXPONENT_FROM ==> ParsePage(Some(NumberText(page))) <= 9
  {
    hide ParseInt, NumberText;
    ParseNumberText(page);
  }

  /** A view survives the address bar exactly when its page number is printed in full. */
  lemma ViewRoundTrip(view: View)
    requires Presentable(view)
    ensures Parse(Query(view)) == view <==> view.page < EXPONENT_FROM
  {
    hide Query, Parse, ParsePage, NumberText, ParseInt;
    FiltersAndSortRoundTrip(view);
    QueryHoldsAll(view);
    if view.page > FIRST_PAGE {
      PageRoundTrip(view.page);
    } else {
      NoPage();
    }
  }

  lemma NoPage()
    ensures ParsePage(None) == FIRST_PAGE
  {
  }

  lemma TextLengths(n: nat)
    ensures n < 10 ==> |NumberText(n)| == 1
    ensures n >= EXPONENT_FROM ==> |NumberText(n)| >= 4
  {
  }

  /** Rebuilding an address from what was read off it changes nothing, on the same condition. */
  lemma BuildingIsAFixpoint(params: Params)
    ensures var view := Parse(params);
            Query(Parse(Query(view))) == Query(view) <==> view.page < EXPONENT_FROM
  {
    hide Query, Parse, ParsePage, NumberText, ParseInt;
    var view := Parse(params);
    ParsedIsPresentable(params);
    ViewRoundTrip(view);
    if view.page >= EXPONENT_FROM {
      var again := Parse(Query(view));
      FiltersAndSortRoundTrip(view);
      QueryHoldsAll(view);
      QueryHoldsAll(again);
      PageRoundTrip(view.page);
      ParsedIsPresentable(Query(view));
      TextLengths(view.page);
      TextLengths(again.page);
      assert Get(Query(again), PageKey) != Get(Query(view), PageKey);
    }
  }

  /** The first page number that does not come back. */
  lemma HugePageIsLost(view: View)
    requires Presentable(view) && view.page == EXPONENT_FROM
    ensures Parse(Query(view)) != view
  {
    hide Query, Parse;
    ViewRoundTrip(view);
  }
}
