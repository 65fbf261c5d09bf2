/**
 * The rules about a draft edition (apps/staff/lib/legal-drafts.ts): what has
 * happened to each cell, whether the draft is complete, whether it changes the
 * artifact set, and the ordered list of cells the operator reads.
 */
module LegalDrafts {
  import opened Numbers
  import opened Text
  import Sorting

  type Locale = string

  /** One artifact: its slug and its text per language. */
  datatype Artifact = Artifact(slug: string, bodies: map<Locale, string>)

  /** An object keyed by slug, in key order. */
  type ArtifactSet = seq<Artifact>

  ghost predicate Distinct<T>(s: seq<T>) {
    forall i, j :: 0 <= i < j < |s| ==> s[i] != s[j]
  }

  datatype CellStatus = Unchanged | Modified | Added | Removed | Missing

  datatype Cell = Cell(slug: string, locale: Locale)

  /** `artifacts[slug]?.[locale]`, the empty text standing for absence too. */
  function Body(artifacts: ArtifactSet, slug: string, locale: Locale): string {
    if artifacts == [] then ""
    else if artifacts[0].slug == slug then
      if locale in artifacts[0].bodies then artifacts[0].bodies[locale] else ""
    else Body(artifacts[1..], slug, locale)
  }

  function Slugs(artifacts: ArtifactSet): seq<string> {
    seq(|artifacts|, k requires 0 <= k < |artifacts| => artifacts[k].slug)
  }

  predicate Blank(text: string) {
    Trim(text) == ""
  }

  function StatusOf(before: string, after: string): CellStatus {
    if before == "" && after == "" then Missing
    else if before == "" then if Blank(after) then Missing else Added
    else if after == "" then Removed
    else if Blank(after) then Missing
    else if Trim(before) == Trim(after) then Unchanged
    else Modified
  }

  function Status(published: ArtifactSet, draft: ArtifactSet, cell: Cell): CellStatus {
    StatusOf(Body(published, cell.slug, cell.locale), Body(draft, cell.slug, cell.locale))
  }

  /** One slug's cells in the first `n` languages. */
  function RowOf(slug: string, locales: seq<Locale>, n: nat): seq<Cell>
    requires n <= |locales|
  {
    if n == 0 then [] else RowOf(slug, locales, n - 1) + [Cell(slug, locales[n - 1])]
  }

  /** The (slug, locale) pairs of the first `n` slugs, slug by slug. */
  function CellsOf(slugs: seq<string>, locales: seq<Locale>, n: nat): seq<Cell>
    requires n <= |slugs|
  {
    if n == 0 then [] else CellsOf(slugs, locales, n - 1) + RowOf(slugs[n - 1], locales, |locales|)
  }

  function Cells(slugs: seq<string>, locales: seq<Locale>): seq<Cell> {
    CellsOf(slugs, locales, |slugs|)
  }

  lemma {:induction false} RowPairs(slug: string, locales: seq<Locale>, n: nat, cell: Cell)
    requires n <= |locales|
    ensures cell in RowOf(slug, locales, n) <==> cell.slug == slug && cell.locale in locales[..n]
  {
    if n > 0 {
      RowPairs(slug, locales, n - 1, cell);
      assert locales[..n] == locales[..n - 1] + [locales[n - 1]];
    }
  }

  lemma {:induction false} CellPairs(slugs: seq<string>, locales: seq<Locale>, n: nat, cell: Cell)
    requires n <= |slugs|
    ensures cell in CellsOf(slugs, locales, n) <==> cell.slug in slugs[..n] && cell.locale in locales
  {
    if n > 0 {
      CellPairs(slugs, locales, n - 1, cell);
      RowPairs(slugs[n - 1], locales, |locales|, cell);
      assert slugs[..n] == slugs[..n - 1] + [slugs[n - 1]] && locales[..|locales|] == locales;
    }
  }

  /** The cells are exactly the pairs. */
  lemma CellsAreAllPairs(slugs: seq<string>, locales: seq<Locale>, cell: Cell)
    ensures cell in Cells(slugs, locales) <==> cell.slug in slugs && cell.locale in locales
  {
    CellPairs(slugs, locales, |slugs|, cell);
    assert slugs[..|slugs|] == slugs;
  }

  /** The published slugs, then whatever the draft added. */
  function AllSlugs(published: ArtifactSet, draft: ArtifactSet): seq<string> {
    Slugs(published) + Sorting.Filter(Slugs(draft), slug => slug !in Slugs(published))
  }

  lemma DistinctAppend<T>(s: seq<T>, t: seq<T>)
    requires Distinct(s) && Distinct(t) && forall k :: 0 <= k < |t| ==> t[k] !in s
    ensures Distinct(s + t)
  {
  }

  lemma {:induction false} FilterDistinct<T>(s: seq<T>, p: T -> bool)
    requires Distinct(s)
    ensures Distinct(Sorting.Filter(s, p))
  {
    if s != [] {
      FilterDistinct(s[1..], p);
      assert Sorting.Filter(s, p) == (if p(s[0]) then [s[0]] else []) + Sorting.Filter(s[1..], p);
    }
  }

  lemma AllSlugsDistinct(published: ArtifactSet, draft: ArtifactSet)
    requires Distinct(Slugs(published)) && Distinct(Slugs(draft))
    ensures Distinct(AllSlugs(published, draft))
  {
    var added := Sorting.Filter(Slugs(draft), slug => slug !in Slugs(published));
    FilterDistinct(Slugs(draft), slug => slug !in Slugs(published));
    forall k | 0 <= k < |added| ensures added[k] !in Slugs(published) { assert added[k] in added; }
    DistinctAppend(Slugs(published), added);
  }

  lemma {:induction false} RowDistinct(slug: string, locales: seq<Locale>, n: nat)
    requires n <= |locales| && Distinct(locales)
    ensures Distinct(RowOf(slug, locales, n))
  {
    if n > 0 {
      RowDistinct(slug, locales, n - 1);
      RowPairs(slug, locales, n - 1, Cell(slug, locales[n - 1]));
      DistinctAppend(RowOf(slug, locales, n - 1), [Cell(slug, locales[n - 1])]);
    }
  }

  lemma {:induction false} CellsDistinct(slugs: seq<string>, locales: seq<Locale>, n: nat)
    requires n <= |slugs| && Distinct(slugs) && Distinct(locales)
    ensures Distinct(CellsOf(slugs, locales, n))
  {
    if n > 0 {
      CellsDistinct(slugs, locales, n - 1);
      RowIsNew(slugs, locales, n);
      DistinctAppend(CellsOf(slugs, locales, n - 1), RowOf(slugs[n - 1], locales, |locales|));
    }
  }

  lemma RowIsNew(slugs: seq<string>, locales: seq<Locale>, n: nat)
    requires 0 < n <= |slugs| && Distinct(slugs) && Distinct(locales)
    ensures Distinct(RowOf(slugs[n - 1], locales, |locales|))
    ensures var row := RowOf(slugs[n - 1], locales, |locales|);
            forall k :: 0 <= k < |row| ==> row[k] !in CellsOf(slugs, locales, n - 1)
  {
    hide RowOf, CellsOf;
    var row := RowOf(slugs[n - 1], locales, |locales|);
    RowDistinct(slugs[n - 1], locales, |locales|);
    forall k | 0 <= k < |row| ensures row[k] !in CellsOf(slugs, locales, n - 1) {
      RowPairs(slugs[n - 1], locales, |locales|, row[k]);
      CellPairs(slugs, locales, n - 1, row[k]);
      assert row[k] in row;
    }
  }

  /** No cell is listed twice, however the two sides overlap. */
  lemma EachCellOnce(published: ArtifactSet, draft: ArtifactSet, locales: seq<Locale>)
    requires Distinct(Slugs(published)) && Distinct(Slugs(draft)) && Distinct(locales)
    ensures Distinct(Cells(AllSlugs(published, draft), locales))
    ensures forall cell :: cell in Cells(AllSlugs(published, draft), locales)
                      <==> (cell.slug in Slugs(published) || cell.slug in Slugs(draft)) && cell.locale in locales
  {
    var slugs := AllSlugs(published, draft);
    AllSlugsDistinct(published, draft);
    CellsDistinct(slugs, locales, |slugs|);
    forall cell ensures cell in Cells(slugs, locales)
                   <==> (cell.slug in Slugs(published) || cell.slug in Slugs(draft)) && cell.locale in locales
    {
      CellsAreAllPairs(slugs, locales, cell);
      WhereTextIs(published, draft, cell.slug, cell.locale);
    }
  }

  // ---------------------------------------------------------------- completeness

  function Gaps(published: ArtifactSet, draft: ArtifactSet, locales: seq<Locale>): seq<Cell> {
    Sorting.Filter(Cells(Slugs(draft), locales), cell => Status(published, draft, cell) == Missing)
  }

  /** The inner loop: one artifact's holes. */
  method RowGaps(published: ArtifactSet, draft: ArtifactSet, slug: string, locales: seq<Locale>,
                 ghost missing: Cell -> bool)
    returns (gaps: seq<Cell>)
    requires forall cell :: missing(cell) <==> Status(published, draft, cell) == Missing
    ensures gaps == Sorting.Filter(RowOf(slug, locales, |locales|), missing)
  {
    hide Status;
    gaps := [];
    for j := 0 to |locales|
      invariant gaps == Sorting.Filter(RowOf(slug, locales, j), missing)
    {
      var cell := Cell(slug, locales[j]);
      Sorting.FilterSnoc(RowOf(slug, locales, j), cell, missing);
      if Status(published, draft, cell) == Missing {
        gaps := gaps + [cell];
      }
    }
  }

  method Completeness(published: ArtifactSet, draft: ArtifactSet, locales: seq<Locale>)
    returns (complete: bool, gaps: seq<Cell>)
    ensures gaps == Gaps(published, draft, locales)
    ensures complete <==> gaps == []
  {
    hide Status;
    gaps := [];
    var slugs := Slugs(draft);
    ghost var missing := (cell: Cell) => Status(published, draft, cell) == Missing;
    for i := 0 to |slugs|
      invariant gaps == Sorting.Filter(CellsOf(slugs, locales, i), missing)
    {
      var row := RowGaps(published, draft, slugs[i], locales, missing);
      Sorting.FilterAppend(CellsOf(slugs, locales, i), RowOf(slugs[i], locales, |locales|), missing);
      gaps := gaps + row;
    }
    complete := |gaps| == 0;
  }

  predicate IsComplete(published: ArtifactSet, draft: ArtifactSet, locales: seq<Locale>) {
    Gaps(published, draft, locales) == []
  }

  // ---------------------------------------------------------------- structure

  predicate Structural(status: CellStatus) {
    status == Added || status == Removed
  }

  predicate IsStructuralChange(published: ArtifactSet, draft: ArtifactSet, locales: seq<Locale>) {
    exists slug, locale | slug in AllSlugs(published, draft) && locale in locales ::
      Structural(Status(published, draft, Cell(slug, locale)))
  }

  lemma {:induction false} BodyOutside(artifacts: ArtifactSet, slug: string, locale: Locale)
    requires slug !in Slugs(artifacts)
    ensures Body(artifacts, slug, locale) == ""
  {
    if artifacts != [] {
      assert Slugs(artifacts)[0] == artifacts[0].slug;
      assert Slugs(artifacts)[1..] == Slugs(artifacts[1..]);
      BodyOutside(artifacts[1..], slug, locale);
    }
  }

  /**
   * The draft has non-blank text in exactly the cells the published edition has text in, and no
   * empty cell of its own.
   */
  ghost predicate SameCells(published: ArtifactSet, draft: ArtifactSet, locales: seq<Locale>) {
    && (forall slug, locale | locale in locales ::
          Body(published, slug, locale) != "" <==> Body(draft, slug, locale) != "")
    && (forall slug, locale | slug in Slugs(draft) && locale in locales :: !Blank(Body(draft, slug, locale)))
  }

  lemma GapsAreMissing(published: ArtifactSet, draft: ArtifactSet, locales: seq<Locale>)
    ensures IsComplete(published, draft, locales)
       <==> forall slug, locale | slug in Slugs(draft) && locale in locales ::
              Status(published, draft, Cell(slug, locale)) != Missing
  {
    forall cell ensures cell in Gaps(published, draft, locales)
                   <==> cell.slug in Slugs(draft) && cell.locale in locales && Status(published, draft, cell) == Missing
    {
      CellsAreAllPairs(Slugs(draft), locales, cell);
    }
    if !IsComplete(published, draft, locales) {
      var cell := Gaps(published, draft, locales)[0];
      assert cell in Gaps(published, draft, locales);
      assert cell == Cell(cell.slug, cell.locale);
    } else {
      forall slug, locale | slug in Slugs(draft) && locale in locales
        ensures Status(published, draft, Cell(slug, locale)) != Missing
      {
        assert Cell(slug, locale) !in Gaps(published, draft, locales);
      }
    }
  }

  /** The gaps are the draft's cells that are not written, in the order of the documents. */
  lemma GapsAreNotWritten(published: ArtifactSet, draft: ArtifactSet, locales: seq<Locale>, cell: Cell)
    ensures cell in Gaps(published, draft, locales)
       <==> cell.slug in Slugs(draft) && cell.locale in locales
            && NotWritten(Body(published, cell.slug, cell.locale), Body(draft, cell.slug, cell.locale))
    ensures var cells := Cells(Slugs(draft), locales);
            forall i, j :: 0 <= i < j < |cells| && cells[i] in Gaps(published, draft, locales)
                           && cells[j] in Gaps(published, draft, locales) ==>
              Before(Gaps(published, draft, locales), cells[i], cells[j])
  {
    hide Body, StatusOf, Blank, CellsOf;
    var missing := (cell: Cell) => Status(published, draft, cell) == Missing;
    var cells := Cells(Slugs(draft), locales);
    CellsAreAllPairs(Slugs(draft), locales, cell);
    StatusCases(Body(published, cell.slug, cell.locale), Body(draft, cell.slug, cell.locale));
    assert Gaps(published, draft, locales) == Sorting.Filter(cells, missing);
    forall i, j | 0 <= i < j < |cells| && missing(cells[i]) && missing(cells[j])
      ensures Before(Sorting.Filter(cells, missing), cells[i], cells[j])
    {
      FilterKeepsOrder(cells, missing, i, j);
    }
  }

  lemma StatusCases(before: string, after: string)
    ensures StatusOf(before, after) == Missing <==> Blank(after) && (before == "" || after != "")
    ensures Structural(StatusOf(before, after)) <==> (before == "" && !Blank(after)) || (before != "" && after == "")
    ensures after == "" ==> Blank(after)
  {
  }

  /** A slug outside a set has no text there. */
  lemma WhereTextIs(published: ArtifactSet, draft: ArtifactSet, slug: string, locale: Locale)
    ensures slug !in Slugs(draft) ==> Body(draft, slug, locale) == ""
    ensures slug !in Slugs(published) ==> Body(published, slug, locale) == ""
    ensures slug in AllSlugs(published, draft) <==> slug in Slugs(published) || slug in Slugs(draft)
  {
    if slug !in Slugs(draft) { BodyOutside(draft, slug, locale); }
    if slug !in Slugs(published) { BodyOutside(published, slug, locale); }
  }

  lemma CompleteGivesSameCells(published: ArtifactSet, draft: ArtifactSet, locales: seq<Locale>)
    requires IsComplete(published, draft, locales) && !IsStructuralChange(published, draft, locales)
    ensures SameCells(published, draft, locales)
  {
    GapsAreMissing(published, draft, locales);
    forall slug, locale | locale in locales
      ensures Body(published, slug, locale) != "" <==> Body(draft, slug, locale) != ""
      ensures slug in Slugs(draft) ==> !Blank(Body(draft, slug, locale))
    {
      hide Body, AllSlugs, StatusOf, Blank, Structural;
      WhereTextIs(published, draft, slug, locale);
      StatusCases(Body(published, slug, locale), Body(draft, slug, locale));
      if slug in AllSlugs(published, draft) {
        assert !Structural(Status(published, draft, Cell(slug, locale)));
      }
      if slug in Slugs(draft) {
        assert Status(published, draft, Cell(slug, locale)) != Missing;
      }
    }
  }

  lemma SameCellsGiveComplete(published: ArtifactSet, draft: ArtifactSet, locales: seq<Locale>)
    requires SameCells(published, draft, locales)
    ensures IsComplete(published, draft, locales) && !IsStructuralChange(published, draft, locales)
  {
    GapsAreMissing(published, draft, locales);
    forall slug, locale | locale in locales
      ensures slug in Slugs(draft) ==> Status(published, draft, Cell(slug, locale)) != Missing
      ensures slug in AllSlugs(published, draft) ==> !Structural(Status(published, draft, Cell(slug, locale)))
    {
      hide Body, AllSlugs, StatusOf, Blank, Structural;
      WhereTextIs(published, draft, slug, locale);
      StatusCases(Body(published, slug, locale), Body(draft, slug, locale));
      assert Body(published, slug, locale) != "" <==> Body(draft, slug, locale) != "";
      if slug in Slugs(draft) { assert !Blank(Body(draft, slug, locale)); }
    }
  }

  /** Complete and not structural: together, and only together, the two checks say the cells are the same. */
  lemma CompleteAndNotStructural(published: ArtifactSet, draft: ArtifactSet, locales: seq<Locale>)
    ensures IsComplete(published, draft, locales) && !IsStructuralChange(published, draft, locales)
       <==> SameCells(published, draft, locales)
  {
    if IsComplete(published, draft, locales) && !IsStructuralChange(published, draft, locales) {
      CompleteGivesSameCells(published, draft, locales);
    }
    if SameCells(published, draft, locales) {
      SameCellsGiveComplete(published, draft, locales);
    }
  }

  /** What completeness is documented to mean: every artifact of the draft has text in every language. */
  ghost predicate Written(draft: ArtifactSet, locales: seq<Locale>) {
    forall slug, locale | slug in Slugs(draft) && locale in locales :: !Blank(Body(draft, slug, locale))
  }

  /** Some cell among the draft's artifacts and the languages stands so to the published edition. */
  ghost predicate SomeDraftCell(published: ArtifactSet, draft: ArtifactSet, locales: seq<Locale>,
                                p: (string, string) -> bool) {
    exists slug, locale :: slug in Slugs(draft) && locale in locales
                           && p(Body(published, slug, locale), Body(draft, slug, locale))
  }

  /** A published text taken out altogether. */
  predicate Cleared(before: string, after: string) {
    before != "" && after == ""
  }

  /** No text where none was published, or nothing but whitespace. */
  predicate NotWritten(before: string, after: string) {
    Blank(after) && (before == "" || after != "")
  }

  /**
   * `completeness` answers whether every artifact is written in every language
   * exactly when no published text was taken out, or another cell of the draft
   * is not written anyway.
   */
  lemma CompletenessIsRightIff(published: ArtifactSet, draft: ArtifactSet, locales: seq<Locale>)
    ensures (IsComplete(published, draft, locales) <==> Written(draft, locales))
       <==> !SomeDraftCell(published, draft, locales, Cleared) || SomeDraftCell(published, draft, locales, NotWritten)
  {
    hide Body, Slugs, StatusOf, Blank, IsComplete;
    GapsAreMissing(published, draft, locales);
    forall slug, locale
      ensures var b, a := Body(published, slug, locale), Body(draft, slug, locale);
              && (Status(published, draft, Cell(slug, locale)) == Missing <==> NotWritten(b, a))
              && (Blank(a) <==> NotWritten(b, a) || Cleared(b, a))
    {
      StatusCases(Body(published, slug, locale), Body(draft, slug, locale));
    }
  }

  /** A published cell cleared to "" passes the completeness check: only the structural one catches it. */
  lemma ClearedCellIsComplete(slug: string, locale: Locale, text: string)
    requires text != ""
    ensures var published, draft := [Artifact(slug, map[locale := text])], [Artifact(slug, map[locale := ""])];
            && IsComplete(published, draft, [locale]) && !Written(draft, [locale])
            && IsStructuralChange(published, draft, [locale])
            && !SameCells(published, draft, [locale])
  {
    var published, draft := [Artifact(slug, map[locale := text])], [Artifact(slug, map[locale := ""])];
    assert Status(published, draft, Cell(slug, locale)) == Removed;
    forall s | s in Slugs(draft) ensures s == slug {}
    GapsAreMissing(published, draft, [locale]);
    assert Slugs(published)[0] == slug && Slugs(draft)[0] == slug;
    WhereTextIs(published, draft, slug, locale);
    assert Structural(Status(published, draft, Cell(slug, locale)));
  }

  // ---------------------------------------------------------------- has anything changed

  predicate Changed(status: CellStatus) {
    status != Unchanged && status != Missing
  }

  method HasChanges(published: ArtifactSet, draft: ArtifactSet, locales: seq<Locale>) returns (changes: bool)
    ensures changes <==> SomeCell(published, draft, locales, Counted)
  {
    var slugs := AllSlugs(published, draft);
    for i := 0 to |slugs|
      invariant forall slug, locale | slug in slugs[..i] && locale in locales ::
                  !Changed(Status(published, draft, Cell(slug, locale)))
    {
      for j := 0 to |locales|
        invariant forall locale | locale in locales[..j] :: !Changed(Status(published, draft, Cell(slugs[i], locale)))
      {
        var cell := Cell(slugs[i], locales[j]);
        if Changed(Status(published, draft, cell)) {
          CellsAreAllPairs(slugs, locales, cell);
          return true;
        }
      }
      assert locales[..|locales|] == locales;
    }
    assert slugs[..|slugs|] == slugs;
    forall cell | cell in Cells(slugs, locales) ensures !Changed(Status(published, draft, cell)) {
      CellsAreAllPairs(slugs, locales, cell);
      assert cell == Cell(cell.slug, cell.locale);
    }
    assert !SomeCell(published, draft, locales, Counted);
    return false;
  }

  /** The published text and the draft's text of some listed cell stand in this relation. */
  ghost predicate SomeCell(published: ArtifactSet, draft: ArtifactSet, locales: seq<Locale>,
                           p: (string, string) -> bool) {
    exists cell :: cell in Cells(AllSlugs(published, draft), locales)
                   && p(Body(published, cell.slug, cell.locale), Body(draft, cell.slug, cell.locale))
  }

  /** What `hasChanges` counts. */
  predicate Counted(before: string, after: string) {
    Changed(StatusOf(before, after))
  }

  /** Words written over with whitespace: never counted. */
  predicate Blanked(before: string, after: string) {
    !Blank(before) && Blank(after) && after != ""
  }

  /** Whitespace alone taken out: always counted. */
  predicate Emptied(before: string, after: string) {
    before != "" && Blank(before) && after == ""
  }

  /** Any other difference of words. */
  predicate Reworded(before: string, after: string) {
    Trim(before) != Trim(after) && !Blanked(before, after)
  }

  lemma CountedMeans(before: string, after: string)
    ensures Counted(before, after) <==> Reworded(before, after) || Emptied(before, after)
    ensures Trim(before) != Trim(after) <==> Reworded(before, after) || Blanked(before, after)
  {
  }

  /** Somewhere the two editions do not say the same words. */
  ghost predicate WordsDiffer(published: ArtifactSet, draft: ArtifactSet, locales: seq<Locale>) {
    exists slug, locale :: locale in locales && Trim(Body(published, slug, locale)) != Trim(Body(draft, slug, locale))
  }

  /** The draft is not the published edition: other words, or other artifacts, or the same in another order. */
  ghost predicate SaysDifferent(published: ArtifactSet, draft: ArtifactSet, locales: seq<Locale>) {
    WordsDiffer(published, draft, locales) || Slugs(published) != Slugs(draft)
  }

  lemma WordsDifferSomewhere(published: ArtifactSet, draft: ArtifactSet, locales: seq<Locale>)
    ensures WordsDiffer(published, draft, locales)
       <==> SomeCell(published, draft, locales, Reworded) || SomeCell(published, draft, locales, Blanked)
  {
    hide Body, AllSlugs, Trim, Reworded, Blanked, Cells;
    if WordsDiffer(published, draft, locales) {
      var slug, locale :| locale in locales && Trim(Body(published, slug, locale)) != Trim(Body(draft, slug, locale));
      WhereTextIs(published, draft, slug, locale);
      CountedMeans(Body(published, slug, locale), Body(draft, slug, locale));
      CellsAreAllPairs(AllSlugs(published, draft), locales, Cell(slug, locale));
      assert Cell(slug, locale).slug == slug;
    }
    forall cell: Cell | cell in Cells(AllSlugs(published, draft), locales)
      ensures cell.locale in locales
      ensures var b, a := Body(published, cell.slug, cell.locale), Body(draft, cell.slug, cell.locale);
              Trim(b) != Trim(a) <==> Reworded(b, a) || Blanked(b, a)
    {
      CellsAreAllPairs(AllSlugs(published, draft), locales, cell);
      CountedMeans(Body(published, cell.slug, cell.locale), Body(draft, cell.slug, cell.locale));
    }
  }

  lemma CountedSomewhere(published: ArtifactSet, draft: ArtifactSet, locales: seq<Locale>)
    ensures SomeCell(published, draft, locales, Counted)
       <==> SomeCell(published, draft, locales, Reworded) || SomeCell(published, draft, locales, Emptied)
  {
    hide Body, AllSlugs, Cells, Counted, Reworded, Emptied;
    forall cell: Cell
      ensures var b, a := Body(published, cell.slug, cell.locale), Body(draft, cell.slug, cell.locale);
              Counted(b, a) <==> Reworded(b, a) || Emptied(b, a)
    {
      CountedMeans(Body(published, cell.slug, cell.locale), Body(draft, cell.slug, cell.locale));
    }
  }

  /**
   * `hasChanges` answers whether the draft is different exactly when some cell
   * is reworded, or else whitespace was taken out of a cell just when some cell
   * was blanked or the artifacts are not the same ones in the same order.
   */
  lemma HasChangesIsRightIff(published: ArtifactSet, draft: ArtifactSet, locales: seq<Locale>)
    ensures (SomeCell(published, draft, locales, Counted) <==> SaysDifferent(published, draft, locales))
       <==> SomeCell(published, draft, locales, Reworded)
            || (SomeCell(published, draft, locales, Emptied)
                <==> SomeCell(published, draft, locales, Blanked) || Slugs(published) != Slugs(draft))
  {
    hide *;
    assert SaysDifferent(published, draft, locales)
      <==> WordsDiffer(published, draft, locales) || Slugs(published) != Slugs(draft)
        by { DifferentMeans(published, draft, locales); }
    WordsDifferSomewhere(published, draft, locales);
    CountedSomewhere(published, draft, locales);
  }

  lemma DifferentMeans(published: ArtifactSet, draft: ArtifactSet, locales: seq<Locale>)
    ensures SaysDifferent(published, draft, locales)
       <==> WordsDiffer(published, draft, locales) || Slugs(published) != Slugs(draft)
  {
  }

  /** Of the words alone it answers right on the same condition, order left aside. */
  lemma HasChangesIsRightOnWordsIff(published: ArtifactSet, draft: ArtifactSet, locales: seq<Locale>)
    ensures (SomeCell(published, draft, locales, Counted) <==> WordsDiffer(published, draft, locales))
       <==> SomeCell(published, draft, locales, Reworded)
            || (SomeCell(published, draft, locales, Emptied) <==> SomeCell(published, draft, locales, Blanked))
  {
    hide *;
    WordsDifferSomewhere(published, draft, locales);
    CountedSomewhere(published, draft, locales);
  }

  /** Two artifacts that change places make a different edition, and no cell of it is counted. */
  lemma ReorderingIsNotCounted(p: Artifact, q: Artifact, locales: seq<Locale>)
    requires p.slug != q.slug
    ensures SaysDifferent([p, q], [q, p], locales) && !SomeCell([p, q], [q, p], locales, Counted)
  {
    hide Trim;
    assert Slugs([p, q])[0] == p.slug && Slugs([q, p])[0] == q.slug;
    forall slug, locale ensures Body([p, q], slug, locale) == Body([q, p], slug, locale) {
      assert [p, q][1..] == [q] && [q, p][1..] == [p] && [p][1..] == [q][1..] == [];
    }
  }

  /** A cell written over with a space differs in its words, and is not counted. */
  lemma SpacesAreNotCounted(slug: string, locale: Locale, before: string, space: char)
    requires !Blank(before) && IsSpace(space)
    ensures var published, draft := [Artifact(slug, map[locale := before])], [Artifact(slug, map[locale := [space]])];
            WordsDiffer(published, draft, [locale]) && !SomeCell(published, draft, [locale], Counted)
  {
    hide IsSpace, Trim, Counted;
    var published, draft := [Artifact(slug, map[locale := before])], [Artifact(slug, map[locale := [space]])];
    SpaceIsBlank(space);
    CountedMeans(before, [space]);
    assert Body(published, slug, locale) == before && Body(draft, slug, locale) == [space];
    forall cell | cell in Cells(AllSlugs(published, draft), [locale])
      ensures !Counted(Body(published, cell.slug, cell.locale), Body(draft, cell.slug, cell.locale))
    {
      CellsAreAllPairs(AllSlugs(published, draft), [locale], cell);
      WhereTextIs(published, draft, cell.slug, cell.locale);
    }
  }

  lemma SpaceIsBlank(space: char)
    requires IsSpace(space)
    ensures Blank([space])
  {
    hide IsSpace;
    assert [space][1..] == "";
    assert TrimStart([space]) == TrimStart([space][1..]) == "";
  }

  // ---------------------------------------------------------------- the list of cells

  datatype CellDiff = CellDiff(slug: string, locale: Locale, status: CellStatus, before: string, after: string)

  function Rank(status: CellStatus): nat {
    match status
    case Added => 0
    case Removed => 0
    case Modified => 1
    case Missing => 2
    case Unchanged => 3
  }

  predicate RankedBefore(a: CellDiff, b: CellDiff) {
    Rank(a.status) <= Rank(b.status)
  }

  function DiffOf(published: ArtifactSet, draft: ArtifactSet, cell: Cell): CellDiff {
    CellDiff(cell.slug, cell.locale, Status(published, draft, cell),
             Body(published, cell.slug, cell.locale), Body(draft, cell.slug, cell.locale))
  }

  function DiffsOf(published: ArtifactSet, draft: ArtifactSet, cells: seq<Cell>): seq<CellDiff> {
    if cells == [] then []
    else DiffsOf(published, draft, cells[..|cells| - 1]) + [DiffOf(published, draft, cells[|cells| - 1])]
  }

  lemma DiffsSnoc(published: ArtifactSet, draft: ArtifactSet, cells: seq<Cell>, cell: Cell)
    ensures DiffsOf(published, draft, cells + [cell])
      == DiffsOf(published, draft, cells) + [DiffOf(published, draft, cell)]
  {
    assert (cells + [cell])[..|cells|] == cells;
  }

  /** The two loops that list every cell of either side. */
  method ListCells(published: ArtifactSet, draft: ArtifactSet, locales: seq<Locale>) returns (cells: seq<CellDiff>)
    ensures cells == DiffsOf(published, draft, Cells(AllSlugs(published, draft), locales))
  {
    hide AllSlugs, DiffOf, DiffsOf;
    var slugs := AllSlugs(published, draft);
    cells := [];
    assert DiffsOf(published, draft, []) == [] by { NoDiffs(published, draft); }
    for i := 0 to |slugs|
      invariant cells == DiffsOf(published, draft, CellsOf(slugs, locales, i))
    {
      ghost var before := CellsOf(slugs, locales, i);
      assert before + [] == before;
      for j := 0 to |locales|
        invariant cells == DiffsOf(published, draft, before + RowOf(slugs[i], locales, j))
      {
        var cell := Cell(slugs[i], locales[j]);
        DiffsSnoc(published, draft, before + RowOf(slugs[i], locales, j), cell);
        assert before + RowOf(slugs[i], locales, j) + [cell] == before + RowOf(slugs[i], locales, j + 1);
        cells := cells + [DiffOf(published, draft, cell)];
      }
    }
  }

  lemma NoDiffs(published: ArtifactSet, draft: ArtifactSet)
    ensures DiffsOf(published, draft, []) == []
  {
  }

  /** One entry per cell; structural changes first, unchanged cells last, otherwise in the order of the documents. */
  method DiffCells(published: ArtifactSet, draft: ArtifactSet, locales: seq<Locale>) returns (cells: seq<CellDiff>)
    ensures forall k :: 0 <= k < |cells| ==> EntryIsRight(published, draft, cells[k])
    ensures Sorting.Sorted(cells, RankedBefore)
    ensures Sorting.SameUpToTies(cells, DiffsOf(published, draft, Cells(AllSlugs(published, draft), locales)),
                                 RankedBefore)
  {
    var unsorted := ListCells(published, draft, locales);
    cells := Sorting.Sort(unsorted, RankedBefore);
    Sorting.SortIsSorted(unsorted, RankedBefore);
    Sorting.SortKeepsTies(unsorted, RankedBefore);
    forall k | 0 <= k < |cells| ensures EntryIsRight(published, draft, cells[k]) {
      ListedEntriesAreRight(published, draft, locales, cells, k);
    }
  }

  /** Structural changes lead, then rewordings, then holes; unchanged cells close the list. */
  lemma StructuralFirst(cells: seq<CellDiff>, i: nat, j: nat)
    requires Sorting.Sorted(cells, RankedBefore) && i < j < |cells|
    ensures Structural(cells[j].status) ==> Structural(cells[i].status)
    ensures cells[j].status == Modified ==> Structural(cells[i].status) || cells[i].status == Modified
    ensures cells[i].status == Unchanged ==> cells[j].status == Unchanged
  {
    assert RankedBefore(cells[i], cells[j]);
  }

  /** The order is fixed: whatever else is sorted by rank and stable is this list. */
  lemma OneOrder(a: seq<CellDiff>, b: seq<CellDiff>, unsorted: seq<CellDiff>)
    requires Sorting.Sorted(a, RankedBefore) && Sorting.SameUpToTies(a, unsorted, RankedBefore)
    requires Sorting.Sorted(b, RankedBefore) && Sorting.SameUpToTies(b, unsorted, RankedBefore)
    ensures a == b
  {
    forall p: CellDiff -> bool | Sorting.TieClass(p, RankedBefore)
      ensures Sorting.Filter(a, p) == Sorting.Filter(b, p) {
      assert Sorting.Filter(a, p) == Sorting.Filter(unsorted, p);
    }
    Sorting.StableSortUnique(a, b, RankedBefore);
  }

  // ---------------------------------------------------------------- what an entry says

  /** The text an edition has in a cell is the one written there, and none where nothing is. */
  lemma {:induction false} BodyIsWritten(artifacts: ArtifactSet, k: nat, locale: Locale)
    requires Distinct(Slugs(artifacts)) && k < |artifacts|
    ensures Body(artifacts, artifacts[k].slug, locale)
         == if locale in artifacts[k].bodies then artifacts[k].bodies[locale] else ""
  {
    assert forall i :: 0 <= i < |artifacts| ==> Slugs(artifacts)[i] == artifacts[i].slug;
    if k > 0 {
      assert Slugs(artifacts)[0] != Slugs(artifacts)[k];
      assert Slugs(artifacts[1..]) == Slugs(artifacts)[1..];
      BodyIsWritten(artifacts[1..], k - 1, locale);
    }
  }

  /**
   * An entry shows its cell's text in each edition, and its status says what
   * happened: added where none was published and there is some now, removed
   * where some was published and there is none, modified or unchanged where
   * there is some on both sides, missing otherwise.
   */
  ghost predicate EntryIsRight(published: ArtifactSet, draft: ArtifactSet, entry: CellDiff) {
    && entry.before == Body(published, entry.slug, entry.locale)
    && entry.after == Body(draft, entry.slug, entry.locale)
    && (entry.status == Added <==> entry.before == "" && !Blank(entry.after))
    && (entry.status == Removed <==> entry.before != "" && entry.after == "")
    && (entry.status == Modified <==>
          entry.before != "" && !Blank(entry.after) && Trim(entry.before) != Trim(entry.after))
    && (entry.status == Unchanged <==>
          entry.before != "" && !Blank(entry.after) && Trim(entry.before) == Trim(entry.after))
  }

  lemma EntryOf(published: ArtifactSet, draft: ArtifactSet, cell: Cell)
    ensures EntryIsRight(published, draft, DiffOf(published, draft, cell))
  {
    hide Body, Trim;
    EmptyIsBlank();
  }

  lemma EmptyIsBlank()
    ensures Blank("")
  {
  }

  lemma {:induction false} DiffsAreEntries(published: ArtifactSet, draft: ArtifactSet, cells: seq<Cell>)
    ensures var entries := DiffsOf(published, draft, cells);
            && |entries| == |cells|
            && forall k :: 0 <= k < |cells| ==>
                 && entries[k].slug == cells[k].slug && entries[k].locale == cells[k].locale
                 && EntryIsRight(published, draft, entries[k])
  {
    hide EntryIsRight;
    if cells != [] {
      DiffsAreEntries(published, draft, cells[..|cells| - 1]);
      EntryOf(published, draft, cells[|cells| - 1]);
    }
  }

  /** Every entry of the list the operator reads is right. */
  lemma ListedEntriesAreRight(published: ArtifactSet, draft: ArtifactSet, locales: seq<Locale>, listed: seq<CellDiff>,
                              k: nat)
    requires Sorting.SameUpToTies(listed, DiffsOf(published, draft, Cells(AllSlugs(published, draft), locales)),
                                  RankedBefore)
    requires k < |listed|
    ensures EntryIsRight(published, draft, listed[k])
  {
    hide EntryIsRight, DiffsOf, Cells, AllSlugs;
    var unsorted := DiffsOf(published, draft, Cells(AllSlugs(published, draft), locales));
    DiffsAreEntries(published, draft, Cells(AllSlugs(published, draft), locales));
    Sorting.InMultiset(listed[k], listed, unsorted);
  }

  /** Read the other way round, what was added was removed, and what was reworded was reworded. */
  lemma ExchangedEditions(published: ArtifactSet, draft: ArtifactSet, cell: Cell)
    requires var b, a := Body(published, cell.slug, cell.locale), Body(draft, cell.slug, cell.locale);
             (b == "" || !Blank(b)) && (a == "" || !Blank(a))
    ensures var there, back := Status(published, draft, cell), Status(draft, published, cell);
            && (there == Added <==> back == Removed) && (there == Removed <==> back == Added)
            && (there == Modified <==> back == Modified) && (there == Unchanged <==> back == Unchanged)
            && (there == Missing <==> back == Missing)
  {
    hide Body, Trim;
    EmptyIsBlank();
  }

  // ---------------------------------------------------------------- the order of the documents

  /** The published slugs lead, in their order; what the draft added follows, in the draft's. */
  lemma PublishedComeFirst(published: ArtifactSet, draft: ArtifactSet)
    requires Distinct(Slugs(published)) && Distinct(Slugs(draft))
    ensures Slugs(published) <= AllSlugs(published, draft)
    ensures forall i, j
              | 0 <= i < j < |draft| && draft[i].slug !in Slugs(published) && draft[j].slug !in Slugs(published) ::
              Before(AllSlugs(published, draft)[|published|..], draft[i].slug, draft[j].slug)
  {
    var p := slug => slug !in Slugs(published);
    var added := Sorting.Filter(Slugs(draft), p);
    assert AllSlugs(published, draft)[|published|..] == Sorting.Filter(Slugs(draft), slug => slug !in Slugs(published));
    Sorting.FilterCongruent(Slugs(draft), p, slug => slug !in Slugs(published));
    forall i, j | 0 <= i < j < |draft| && p(draft[i].slug) && p(draft[j].slug)
      ensures Before(added, draft[i].slug, draft[j].slug)
    {
      FilterKeepsOrder(Slugs(draft), p, i, j);
    }
  }

  /** One stands before the other. */
  ghost predicate Before<T>(s: seq<T>, x: T, y: T) {
    exists i, j :: 0 <= i < j < |s| && s[i] == x && s[j] == y
  }

  lemma {:induction false} FilterKeepsOrder<T>(s: seq<T>, p: T -> bool, i: nat, j: nat)
    requires i < j < |s| && p(s[i]) && p(s[j])
    ensures Before(Sorting.Filter(s, p), s[i], s[j])
  {
    var rest := Sorting.Filter(s[1..], p);
    if i > 0 {
      FilterKeepsOrder(s[1..], p, i - 1, j - 1);
      var k, m :| 0 <= k < m < |rest| && rest[k] == s[i] && rest[m] == s[j];
      if p(s[0]) {
        assert ([s[0]] + rest)[k + 1] == s[i] && ([s[0]] + rest)[m + 1] == s[j];
      }
    } else {
      assert s[1..][j - 1] == s[j] && s[j] in s[1..];
      var m :| 0 <= m < |rest| && rest[m] == s[j];
      assert ([s[0]] + rest)[0] == s[0] && ([s[0]] + rest)[m + 1] == s[j];
    }
  }

  /** Slug by slug, each in the order of the languages. */
  lemma CellsGoSlugBySlug(slugs: seq<string>, locales: seq<Locale>, i: nat, j: nat)
    requires i < |slugs| && j < |locales|
    ensures var cells := Cells(slugs, locales);
            && |cells| == |slugs| * |locales|
            && 0 <= i * |locales| + j < |cells|
            && cells[i * |locales| + j] == Cell(slugs[i], locales[j])
  {
    hide CellsOf;
    CellsLength(slugs, locales, |slugs|);
    CellAt(slugs, locales, |slugs|, i, j);
  }

  lemma {:induction false} RowAt(slug: string, locales: seq<Locale>, n: nat, j: nat)
    requires n <= |locales|
    ensures |RowOf(slug, locales, n)| == n
    ensures j < n ==> RowOf(slug, locales, n)[j] == Cell(slug, locales[j])
  {
    if n > 0 { RowAt(slug, locales, n - 1, j); }
  }

  lemma {:induction false} CellsLength(slugs: seq<string>, locales: seq<Locale>, n: nat)
    requires n <= |slugs|
    ensures |CellsOf(slugs, locales, n)| == n * |locales|
  {
    hide CellsOf;
    if n == 0 {
      NoCells(slugs, locales);
    } else {
      CellsLength(slugs, locales, n - 1);
      CellsGrow(slugs, locales, n);
      OneTimeMore(n - 1, |locales|);
    }
  }

  lemma NoCells(slugs: seq<string>, locales: seq<Locale>)
    ensures CellsOf(slugs, locales, 0) == []
  {
  }

  lemma CellsGrow(slugs: seq<string>, locales: seq<Locale>, n: nat)
    requires 0 < n <= |slugs|
    ensures |CellsOf(slugs, locales, n)| == |CellsOf(slugs, locales, n - 1)| + |locales|
  {
    hide RowOf;
    RowAt(slugs[n - 1], locales, |locales|, 0);
  }

  lemma {:induction false} CellAt(slugs: seq<string>, locales: seq<Locale>, n: nat, i: nat, j: nat)
    requires i < n <= |slugs| && j < |locales|
    ensures var at := i * |locales| + j;
            0 <= at < |CellsOf(slugs, locales, n)| && CellsOf(slugs, locales, n)[at] == Cell(slugs[i], locales[j])
  {
    hide RowOf;
    var at, before, row := i * |locales| + j, CellsOf(slugs, locales, n - 1), RowOf(slugs[n - 1], locales, |locales|);
    assert CellsOf(slugs, locales, n) == before + row;
    CellsLength(slugs, locales, n - 1);
    RowAt(slugs[n - 1], locales, |locales|, j);
    if i < n - 1 {
      CellAt(slugs, locales, n - 1, i, j);
    } else {
      assert at == |before| + j && (before + row)[at] == row[j];
    }
  }
}
