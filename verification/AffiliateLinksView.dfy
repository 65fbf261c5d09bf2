/**
 * How the Affiliate Links table orders and narrows its rows
 * (apps/staff/lib/affiliate-links-view.ts).
 *
 * The browser's collation is a parameter: any comparison of names that is
 * itself a preorder. So is its lower-casing.
 */
module AffiliateLinksView {
  import opened Wrappers
  import Text
  import Sorting

  datatype SortField = Clicks | Sales | NetProceeds | Name | Created

  datatype SortDir = Asc | Desc

  datatype AffiliateSort = AffiliateSort(field: SortField, dir: SortDir)

  /** None is a figure the Event does not measure. */
  datatype Link = Link(id: string, name: string, code: string, clicks: int, salesCount: Option<int>,
                       netProceedsCents: Option<int>, createdAt: string)

  type Collation = (string, string) -> int

  // ---------------------------------------------------------------- comparators

  /** A comparator that orders: turning the arguments round turns the sign, and "not after" chains. */
  ghost predicate Orders<T(!new)>(c: (T, T) -> int) {
    && (forall x, y :: c(x, y) < 0 <==> c(y, x) > 0)
    && (forall x, y, z :: c(x, y) <= 0 && c(y, z) <= 0 ==> c(x, z) <= 0)
  }

  /** The first comparator, its ties broken by the second. */
  ghost predicate IsThen<T(!new)>(c: (T, T) -> int, c1: (T, T) -> int, c2: (T, T) -> int) {
    forall x, y :: c(x, y) == if c1(x, y) != 0 then c1(x, y) else c2(x, y)
  }

  lemma ThenOrders<T(!new)>(c: (T, T) -> int, c1: (T, T) -> int, c2: (T, T) -> int)
    requires Orders(c1) && Orders(c2) && IsThen(c, c1, c2)
    ensures Orders(c)
  {
    forall x, y ensures c(x, y) < 0 <==> c(y, x) > 0 {
      assert c(x, y) == if c1(x, y) != 0 then c1(x, y) else c2(x, y);
      assert c(y, x) == if c1(y, x) != 0 then c1(y, x) else c2(y, x);
    }
    forall x, y, z | c(x, y) <= 0 && c(y, z) <= 0 ensures c(x, z) <= 0 {
      assert c(x, y) == if c1(x, y) != 0 then c1(x, y) else c2(x, y);
      assert c(y, z) == if c1(y, z) != 0 then c1(y, z) else c2(y, z);
      assert c(x, z) == if c1(x, z) != 0 then c1(x, z) else c2(x, z);
      assert c1(x, y) <= 0 && c1(y, z) <= 0 && c1(x, z) <= 0;
      if c1(x, z) == 0 {
        assert c1(z, x) <= 0;
        assert c1(z, y) <= 0 && c1(y, x) <= 0;
      }
    }
  }

  lemma OrdersIsPreorder<T(!new)>(c: (T, T) -> int, le: (T, T) -> bool)
    requires Orders(c) && forall x, y :: le(x, y) <==> c(x, y) <= 0
    ensures Sorting.TotalPreorder(le)
  {
    forall x, y ensures le(x, y) || le(y, x) { assert c(x, y) < 0 <==> c(y, x) > 0; }
  }

  // ---------------------------------------------------------------- text order

  /** Where a character stands in code-unit order: those written as surrogate pairs come before U+E000. */
  function UnitRank(c: char): int {
    if c as int < 0xe000 then c as int
    else if c as int < 0x1_0000 then c as int + 0x10_0000
    else c as int - 0x2000
  }

  /** `a < b` on strings: by code unit, a proper prefix first. */
  predicate TextLess(a: string, b: string) {
    b != "" && (a == "" || UnitRank(a[0]) < UnitRank(b[0]) || (a[0] == b[0] && TextLess(a[1..], b[1..])))
  }

  function CompareText(a: string, b: string): int {
    if TextLess(a, b) then -1 else if TextLess(b, a) then 1 else 0
  }

  lemma {:induction false} TextLessTrichotomy(a: string, b: string)
    ensures TextLess(a, b) ==> !TextLess(b, a)
    ensures a == b || TextLess(a, b) || TextLess(b, a)
    ensures a == b ==> !TextLess(a, b)
  {
    if a != "" && b != "" {
      TextLessTrichotomy(a[1..], b[1..]);
      assert a == [a[0]] + a[1..] && b == [b[0]] + b[1..];
    }
  }

  lemma {:induction false} TextLessTransitive(a: string, b: string, c: string)
    requires TextLess(a, b) && TextLess(b, c)
    ensures TextLess(a, c)
  {
    if a != "" && a[0] == b[0] && b[0] == c[0] { TextLessTransitive(a[1..], b[1..], c[1..]); }
  }

  /** A string as its UTF-16 code units. */
  function Units(text: string): seq<int> {
    if text == "" then [] else UnitsOf(text[0]) + Units(text[1..])
  }

  function UnitsOf(c: char): (units: seq<int>)
    ensures |units| == 1 || |units| == 2
  {
    var code := c as int;
    if code < 0x1_0000 then [code] else [0xd800 + (code - 0x1_0000) / 0x400, 0xdc00 + (code - 0x1_0000) % 0x400]
  }

  /** The first unit in which two lists differ is less in the first, or the first ends where the second goes on. */
  predicate UnitsLess(x: seq<int>, y: seq<int>) {
    y != [] && (x == [] || x[0] < y[0] || (x[0] == y[0] && UnitsLess(x[1..], y[1..])))
  }

  lemma UnitsLessMore(u: int, x: seq<int>, y: seq<int>)
    ensures UnitsLess([u] + x, [u] + y) <==> UnitsLess(x, y)
  {
    assert ([u] + x)[1..] == x && ([u] + y)[1..] == y;
  }

  lemma SameCharacter(c: char, x: seq<int>, y: seq<int>)
    ensures UnitsLess(UnitsOf(c) + x, UnitsOf(c) + y) <==> UnitsLess(x, y)
  {
    var u := UnitsOf(c);
    if |u| == 1 {
      assert u == [u[0]];
      UnitsLessMore(u[0], x, y);
    } else {
      assert u + x == [u[0]] + ([u[1]] + x) && u + y == [u[0]] + ([u[1]] + y);
      UnitsLessMore(u[0], [u[1]] + x, [u[1]] + y);
      UnitsLessMore(u[1], x, y);
    }
  }

  lemma OtherCharacter(c: char, d: char, x: seq<int>, y: seq<int>)
    requires c != d
    ensures UnitsLess(UnitsOf(c) + x, UnitsOf(d) + y) <==> UnitRank(c) < UnitRank(d)
  {
    var u, v := UnitsOf(c), UnitsOf(d);
    var p, q := u + x, v + y;
    assert p[0] == u[0] && q[0] == v[0];
    if u[0] == v[0] {
      assert |u| == 2 && |v| == 2 && u[1] != v[1];
      assert p[1..][0] == u[1] && q[1..][0] == v[1];
    }
  }

  /** Strings are compared by their UTF-16 code units. */
  lemma {:induction false} TextLessIsByUnits(a: string, b: string)
    ensures TextLess(a, b) <==> UnitsLess(Units(a), Units(b))
  {
    hide UnitsOf, UnitRank, UnitsLess;
    if a == "" || b == "" {
      EmptyIsLess(Units(a), Units(b));
    } else if a[0] == b[0] {
      TextLessIsByUnits(a[1..], b[1..]);
      SameCharacter(a[0], Units(a[1..]), Units(b[1..]));
      RankOf(a[0], b[0]);
    } else {
      OtherCharacter(a[0], b[0], Units(a[1..]), Units(b[1..]));
    }
  }

  lemma EmptyIsLess(x: seq<int>, y: seq<int>)
    ensures y == [] ==> !UnitsLess(x, y)
    ensures x == [] ==> (UnitsLess(x, y) <==> y != [])
  {
  }

  lemma RankOf(c: char, d: char)
    ensures c == d ==> UnitRank(c) == UnitRank(d)
  {
  }

  lemma TextOrders(c: (string, string) -> int)
    requires forall a, b :: c(a, b) == CompareText(a, b)
    ensures Orders(c)
    ensures forall a, b :: c(a, b) == 0 <==> a == b
  {
    forall x, y ensures c(x, y) < 0 <==> c(y, x) > 0 ensures c(x, y) == 0 <==> x == y {
      TextLessTrichotomy(x, y);
    }
    forall x, y, z | c(x, y) <= 0 && c(y, z) <= 0 ensures c(x, z) <= 0 {
      TextLessTrichotomy(x, y);
      TextLessTrichotomy(y, z);
      TextLessTrichotomy(x, z);
      if x != y && y != z { TextLessTransitive(x, y, z); }
    }
  }

  // ---------------------------------------------------------------- the source's comparators

  predicate IsUnavailable(link: Link, field: SortField) {
    match field
    case Sales => link.salesCount.None?
    case NetProceeds => link.netProceedsCents.None?
    case _ => false
  }

  function CompareAvailability(a: Link, b: Link, field: SortField): int {
    (if IsUnavailable(a, field) then 1 else 0) - (if IsUnavailable(b, field) then 1 else 0)
  }

  function CompareAscending(a: Link, b: Link, field: SortField, collate: Collation): int {
    match field
    case Clicks => a.clicks - b.clicks
    case Sales => a.salesCount.GetOr(0) - b.salesCount.GetOr(0)
    case NetProceeds => a.netProceedsCents.GetOr(0) - b.netProceedsCents.GetOr(0)
    case Name => collate(a.name, b.name)
    case Created => CompareText(a.createdAt, b.createdAt)
  }

  function WithDirection(ascending: int, dir: SortDir): int {
    if dir == Asc then ascending else -ascending
  }

  function CompareByField(a: Link, b: Link, sort: AffiliateSort, collate: Collation): int {
    var availability := CompareAvailability(a, b, sort.field);
    if availability != 0 then availability else WithDirection(CompareAscending(a, b, sort.field, collate), sort.dir)
  }

  function CompareTiebreak(a: Link, b: Link): int {
    var byCreated := CompareText(b.createdAt, a.createdAt);
    if byCreated != 0 then byCreated
    else if TextLess(a.id, b.id) then 1 else if TextLess(b.id, a.id) then -1 else 0
  }

  function Compare(a: Link, b: Link, sort: AffiliateSort, collate: Collation): int {
    var byField := CompareByField(a, b, sort, collate);
    if byField != 0 then byField else CompareTiebreak(a, b)
  }

  predicate NotAfter(a: Link, b: Link, sort: AffiliateSort, collate: Collation) {
    Compare(a, b, sort, collate) <= 0
  }

  function Order(sort: AffiliateSort, collate: Collation): (Link, Link) -> bool {
    (a: Link, b: Link) => NotAfter(a, b, sort, collate)
  }

  function SortAffiliateLinks(links: seq<Link>, sort: AffiliateSort, collate: Collation): seq<Link> {
    Sorting.Sort(links, Order(sort, collate))
  }

  // ---------------------------------------------------------------- the order is total

  lemma AscendingOrders(field: SortField, collate: Collation, c: (Link, Link) -> int)
    requires Orders(collate) && forall a, b :: c(a, b) == CompareAscending(a, b, field, collate)
    ensures Orders(c)
  {
    match field
    case Created =>
      var text := (a: string, b: string) => CompareText(a, b);
      TextOrders(text);
      forall x, y, z | c(x, y) <= 0 && c(y, z) <= 0 ensures c(x, z) <= 0 {
        assert text(x.createdAt, y.createdAt) <= 0 && text(y.createdAt, z.createdAt) <= 0;
      }
      forall x, y ensures c(x, y) < 0 <==> c(y, x) > 0 {
        assert text(x.createdAt, y.createdAt) < 0 <==> text(y.createdAt, x.createdAt) > 0;
      }
    case Name =>
      forall x, y, z | c(x, y) <= 0 && c(y, z) <= 0 ensures c(x, z) <= 0 {
        assert collate(x.name, y.name) <= 0 && collate(y.name, z.name) <= 0;
      }
      forall x, y ensures c(x, y) < 0 <==> c(y, x) > 0 {
        assert collate(x.name, y.name) < 0 <==> collate(y.name, x.name) > 0;
      }
    case _ =>
  }

  /** Later creation first. */
  lemma CreatedOrders(c: (Link, Link) -> int)
    requires forall a, b :: c(a, b) == CompareText(b.createdAt, a.createdAt)
    ensures Orders(c)
    ensures forall a, b :: c(a, b) == 0 <==> a.createdAt == b.createdAt
  {
    hide CompareText;
    var text := (a: string, b: string) => CompareText(a, b);
    TextOrders(text);
    forall x, y ensures c(x, y) < 0 <==> c(y, x) > 0 ensures c(x, y) == 0 <==> x.createdAt == y.createdAt {
      assert text(y.createdAt, x.createdAt) < 0 <==> text(x.createdAt, y.createdAt) > 0;
      assert text(y.createdAt, x.createdAt) == 0 <==> y.createdAt == x.createdAt;
    }
    forall x, y, z | c(x, y) <= 0 && c(y, z) <= 0 ensures c(x, z) <= 0 {
      assert text(z.createdAt, y.createdAt) <= 0 && text(y.createdAt, x.createdAt) <= 0;
    }
  }

  /** Ids downwards. */
  lemma IdsOrder(c: (Link, Link) -> int)
    requires forall a, b :: c(a, b) == CompareText(b.id, a.id)
    ensures Orders(c)
    ensures forall a, b :: c(a, b) == 0 <==> a.id == b.id
  {
    hide CompareText;
    var text := (a: string, b: string) => CompareText(a, b);
    TextOrders(text);
    forall x, y ensures c(x, y) < 0 <==> c(y, x) > 0 ensures c(x, y) == 0 <==> x.id == y.id {
      assert text(y.id, x.id) < 0 <==> text(x.id, y.id) > 0;
      assert text(y.id, x.id) == 0 <==> y.id == x.id;
    }
    forall x, y, z | c(x, y) <= 0 && c(y, z) <= 0 ensures c(x, z) <= 0 {
      assert text(z.id, y.id) <= 0 && text(y.id, x.id) <= 0;
    }
  }

  lemma TiebreakOrders(c: (Link, Link) -> int)
    requires forall a, b :: c(a, b) == CompareTiebreak(a, b)
    ensures Orders(c)
    ensures forall a, b :: c(a, b) == 0 <==> a.createdAt == b.createdAt && a.id == b.id
  {
    hide TextLess, Orders;
    var created := (a: Link, b: Link) => CompareText(b.createdAt, a.createdAt);
    var ids := (a: Link, b: Link) => CompareText(b.id, a.id);
    CreatedOrders(created);
    IdsOrder(ids);
    forall x, y ensures c(x, y) == if created(x, y) != 0 then created(x, y) else ids(x, y) {
      TextLessTrichotomy(x.id, y.id);
    }
    ThenOrders(c, created, ids);
    forall x, y ensures c(x, y) == 0 <==> x.createdAt == y.createdAt && x.id == y.id {
      assert created(x, y) == 0 <==> x.createdAt == y.createdAt;
      assert ids(x, y) == 0 <==> x.id == y.id;
    }
  }

  /** For every field and direction the comparator orders all rows, and ties only rows with one id. */
  lemma CompareOrders(sort: AffiliateSort, collate: Collation)
    requires Orders(collate)
    ensures Sorting.TotalPreorder(Order(sort, collate))
    ensures forall a, b :: Order(sort, collate)(a, b) && Order(sort, collate)(b, a) ==> a.id == b.id
  {
    var availability := (a: Link, b: Link) => CompareAvailability(a, b, sort.field);
    assert Orders(availability);
    var ascending := (a: Link, b: Link) => CompareAscending(a, b, sort.field, collate);
    AscendingOrders(sort.field, collate, ascending);
    var directed := (a: Link, b: Link) => WithDirection(CompareAscending(a, b, sort.field, collate), sort.dir);
    DirectedOrders(ascending, directed, sort.dir);
    var byField := (a: Link, b: Link) => CompareByField(a, b, sort, collate);
    ThenOrders(byField, availability, directed);
    var tiebreak := (a: Link, b: Link) => CompareTiebreak(a, b);
    TiebreakOrders(tiebreak);
    var all := (a: Link, b: Link) => Compare(a, b, sort, collate);
    ThenOrders(all, byField, tiebreak);
    OrdersIsPreorder(all, Order(sort, collate));
    forall a, b | Order(sort, collate)(a, b) && Order(sort, collate)(b, a) ensures a.id == b.id {
      assert all(a, b) <= 0 && all(b, a) <= 0;
      assert all(a, b) < 0 <==> all(b, a) > 0;
      assert all(a, b) == 0;
      assert tiebreak(a, b) == 0;
    }
  }

  lemma DirectedOrders(ascending: (Link, Link) -> int, directed: (Link, Link) -> int, dir: SortDir)
    requires Orders(ascending) && forall a, b :: directed(a, b) == WithDirection(ascending(a, b), dir)
    ensures Orders(directed)
  {
    forall x, y ensures directed(x, y) < 0 <==> directed(y, x) > 0 {
      assert ascending(x, y) < 0 <==> ascending(y, x) > 0;
      assert ascending(y, x) < 0 <==> ascending(x, y) > 0;
    }
    forall x, y, z | directed(x, y) <= 0 && directed(y, z) <= 0 ensures directed(x, z) <= 0 {
      if dir == Desc {
        assert ascending(y, x) <= 0 && ascending(z, y) <= 0;
        assert ascending(z, x) <= 0;
        assert ascending(x, z) < 0 <==> ascending(z, x) > 0;
      } else {
        assert ascending(x, y) <= 0 && ascending(y, z) <= 0;
      }
    }
  }

  ghost predicate DistinctIds(links: seq<Link>) {
    forall a, b | a in links && b in links && a.id == b.id :: a == b
  }

  /** However the rows arrive, they are shown in one order: a permutation of the input, sorted, and the only such. */
  lemma OneOrderForAnyArrival(a: seq<Link>, b: seq<Link>, sort: AffiliateSort, collate: Collation)
    requires Orders(collate) && DistinctIds(a) && multiset(a) == multiset(b)
    ensures SortAffiliateLinks(a, sort, collate) == SortAffiliateLinks(b, sort, collate)
    ensures multiset(SortAffiliateLinks(a, sort, collate)) == multiset(a)
    ensures Sorting.Sorted(SortAffiliateLinks(a, sort, collate), Order(sort, collate))
  {
    CompareOrders(sort, collate);
    Sorting.SortIsSorted(a, Order(sort, collate));
    Sorting.SortIsCanonical(a, b, Order(sort, collate));
  }

  /** In both directions the rows without a figure make up the end of the list. */
  lemma HolesLast(links: seq<Link>, sort: AffiliateSort, collate: Collation, i: nat, j: nat)
    requires Orders(collate) && i < j < |SortAffiliateLinks(links, sort, collate)|
    ensures var sorted := SortAffiliateLinks(links, sort, collate);
            && (sort.field == Sales && sorted[i].salesCount.None? ==> sorted[j].salesCount.None?)
            && (sort.field == NetProceeds && sorted[i].netProceedsCents.None? ==> sorted[j].netProceedsCents.None?)
  {
    CompareOrders(sort, collate);
    Sorting.SortIsSorted(links, Order(sort, collate));
    var sorted := SortAffiliateLinks(links, sort, collate);
    assert Order(sort, collate)(sorted[i], sorted[j]);
  }

  /** How one row's figure stands to another's, both measured. */
  ghost predicate FigureAtMost(a: Link, b: Link, field: SortField, collate: Collation) {
    match field
    case Clicks => a.clicks <= b.clicks
    case Sales => a.salesCount.Some? && b.salesCount.Some? ==> a.salesCount.value <= b.salesCount.value
    case NetProceeds => a.netProceedsCents.Some? && b.netProceedsCents.Some?
      ==> a.netProceedsCents.value <= b.netProceedsCents.value
    case Name => collate(a.name, b.name) <= 0
    case Created => a.createdAt == b.createdAt || TextLess(a.createdAt, b.createdAt)
  }

  /** The column reads in the direction asked for; rows it cannot tell apart are newest first, then by id downwards. */
  lemma ColumnReadsInDirection(links: seq<Link>, sort: AffiliateSort, collate: Collation, i: nat, j: nat)
    requires Orders(collate) && i < j < |SortAffiliateLinks(links, sort, collate)|
    ensures var a, b := SortAffiliateLinks(links, sort, collate)[i], SortAffiliateLinks(links, sort, collate)[j];
      && (if sort.dir == Asc then FigureAtMost(a, b, sort.field, collate) else FigureAtMost(b, a, sort.field, collate))
      && (FigureAtMost(a, b, sort.field, collate) && FigureAtMost(b, a, sort.field, collate)
          && IsUnavailable(a, sort.field) == IsUnavailable(b, sort.field) ==>
            && !TextLess(a.createdAt, b.createdAt)
            && (a.createdAt == b.createdAt ==> !TextLess(a.id, b.id)))
  {
    hide TextLess;
    CompareOrders(sort, collate);
    Sorting.SortIsSorted(links, Order(sort, collate));
    var sorted := SortAffiliateLinks(links, sort, collate);
    var a, b := sorted[i], sorted[j];
    assert Order(sort, collate)(a, b);
    TextLessTrichotomy(a.createdAt, b.createdAt);
    TextLessTrichotomy(b.createdAt, a.createdAt);
    TextLessTrichotomy(a.id, b.id);
    assert collate(a.name, b.name) < 0 <==> collate(b.name, a.name) > 0;
    assert collate(b.name, a.name) < 0 <==> collate(a.name, b.name) > 0;
  }

  // ---------------------------------------------------------------- search

  /** The needle stands somewhere in the text. */
  ghost predicate Holds(text: string, needle: string) {
    exists before, rest :: text == before + needle + rest
  }

  lemma HoldsAt(text: string, before: string, needle: string, rest: string)
    requires text == before + needle + rest
    ensures Holds(text, needle)
  {
  }

  lemma {:induction false} IncludedIsHeld(text: string, needle: string)
    requires Includes(text, needle)
    ensures Holds(text, needle)
  {
    hide Holds;
    if needle <= text {
      assert "" + needle + text[|needle|..] == text;
      HoldsAt(text, "", needle, text[|needle|..]);
    } else {
      IncludedIsHeld(text[1..], needle);
      HeldFurtherOn(text, needle);
    }
  }

  lemma HeldFurtherOn(text: string, needle: string)
    requires text != "" && Holds(text[1..], needle)
    ensures Holds(text, needle)
  {
    var before, rest :| text[1..] == before + needle + rest;
    assert text == [text[0]] + before + needle + rest;
  }

  lemma {:induction false} HeldIsIncluded(text: string, before: string, needle: string, rest: string)
    requires text == before + needle + rest
    ensures Includes(text, needle)
  {
    if before == "" {
      assert text == needle + rest;
    } else {
      assert text[1..] == before[1..] + needle + rest;
      HeldIsIncluded(text[1..], before[1..], needle, rest);
    }
  }

  lemma IncludesMeans(text: string, needle: string)
    ensures Includes(text, needle) <==> Holds(text, needle)
  {
    hide Includes;
    if Includes(text, needle) { IncludedIsHeld(text, needle); }
    if Holds(text, needle) {
      var before, rest :| text == before + needle + rest;
      HeldIsIncluded(text, before, needle, rest);
    }
  }

  /** A search keeps the rows whose name or code holds the query somewhere, case and outer spaces aside. */
  lemma SearchFinds(links: seq<Link>, query: string, lower: string -> string, link: Link)
    ensures link in FilterAffiliateLinks(links, query, lower)
       <==> link in links && (lower(Text.Trim(query)) == ""
                              || Holds(lower(link.name), lower(Text.Trim(query)))
                              || Holds(lower(link.code), lower(Text.Trim(query))))
  {
    var needle := lower(Text.Trim(query));
    IncludesMeans(lower(link.name), needle);
    IncludesMeans(lower(link.code), needle);
  }

  predicate Includes(text: string, needle: string) {
    needle <= text || (text != "" && Includes(text[1..], needle))
  }

  function FilterAffiliateLinks(links: seq<Link>, query: string, lower: string -> string): seq<Link> {
    var needle := lower(Text.Trim(query));
    if needle == "" then links
    else Sorting.Filter(links, (link: Link) => Includes(lower(link.name), needle) || Includes(lower(link.code), needle))
  }

  /** Searching and ordering can be done either side of each other, for every query. */
  lemma SearchCommutesWithSort(links: seq<Link>, query: string, lower: string -> string, sort: AffiliateSort,
                               collate: Collation)
    requires Orders(collate)
    ensures FilterAffiliateLinks(SortAffiliateLinks(links, sort, collate), query, lower)
         == SortAffiliateLinks(FilterAffiliateLinks(links, query, lower), sort, collate)
  {
    var needle := lower(Text.Trim(query));
    if needle != "" {
      CompareOrders(sort, collate);
      var p := (link: Link) => Includes(lower(link.name), needle) || Includes(lower(link.code), needle);
      Sorting.FilterCommutesWithSort(links, p, Order(sort, collate));
    }
  }
}
