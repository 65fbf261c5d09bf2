# Staff app logic, modelled and proved in Dafny

This project models the framework-free logic of the staff app (`apps/staff`)
and proves what its documentation and tests promise. Every loop of the source
that updates variables is a `method` proved against a specification function or
predicate; the properties are then proved about that specification, for all
inputs, all runs or all reachable states.

| part | modules |
|---|---|
| the legal-document diff: trimming, LCS table and walk, word merge, row pairing, hunks | `CommonSubsequences`, `EditScripts`, `EditBlocks`, `WordDiffs`, `LineDiffs`, `Hunks`, `CellDiffs` |
| completeness, structural change and the list of cells of a draft edition | `LegalDrafts` |
| the trends engine: rate, page-view and sales series, and the counting axis | `CivilTime`, `RateSeries`, `CountSeries`, `SalesSeries`, `TrendsAxis` |
| the single-flight service token cache | `TokenCache` |
| base64url and the nonce comparison | `Base64Url` |
| the order and search of the Affiliate Links table | `AffiliateLinksView`, `Sorting` |
| the Operator's answer to a Question Review | `QuestionReviews` |
| the URL state of the Tax Invoices list | `InvoiceList` |
| where a navigation ends: middleware, terms gate and sign-in fork | `RedirectMachine` |

`Wrappers`, `Numbers`, `Sequences` and `Text` hold the optional value, the larger
and smaller of two numbers, facts about concatenation, and the string operations
the others share.

## What is assumed

- A JavaScript string is a sequence of characters, and a character is a Unicode
  scalar value: lone surrogates do not exist in it. `Text.UnitCount` counts UTF-16
  code units where a length matters (the 500-unit bound on a refusal's reason),
  `AffiliateLinksView.TextLess` orders by code unit, and the compared nonces are
  code units themselves. `undefined` and `null` are both `None`.
- Counts, cents, indices and page numbers are exact integers. Cells of the LCS
  table are 32-bit unsigned integers, and the proof shows they never overflow.
- A timezone (`CivilTime.ValidZone`) is any function from UTC hours to civil
  hours whose days never go back, move at most one day forward an hour, and
  stay between UTC-12 and UTC+14. Stored buckets are whole hours. A civil day is
  counted rather than spelled, in the same order as its `YYYY-MM-DD` key.
- `Math.floor(Math.log10(n))` is right for every tallest value and every step: the
  exponent of the largest power of ten not above it.
- Paths are compared as text, as the code compares them.
  `RedirectMachine.ResolvedPath` is what a browser asks for instead, dot segments
  (also spelled `%2e`) and backslashes resolved; other percent-encoding is not
  decoded.
- A browser's name collation is any comparison that orders; lower-casing and
  `encodeURIComponent` are arbitrary functions; a URL query is a map of decoded
  values; the expiry a token states is an arbitrary optional number.
- `Array.prototype.sort` is a stable sort by a total preorder; `Sorting` proves
  that this leaves it no choice of result.

## Where the code and its words differ

The model follows the code, and these lemmas state the difference.

- Past 2500 trimmed tokens a diff is no longer a longest-common-subsequence
  diff, and a line equal on both sides can be shown as replaced with nothing
  marked in it. `EditScripts.DiffIsOptimal` and
  `CellDiffs.ReplacedLinesShowAChange` give the exact conditions,
  `EditScripts.CapMissesMatches` and `CellDiffs.CapHidesChanges` the inputs.
- `completeness` is documented as refusing a draft unless every artifact exists in
  every published language. A published cell cleared to the empty text is not
  missed (`LegalDrafts.ClearedCellIsComplete`);
  `LegalDrafts.CompletenessIsRightIff` says when the answer is right.
- `hasChanges` is documented as whether the draft says anything different from
  the published edition at all. Words are compared trimmed, as `cellStatus`
  compares them. Order belongs to the promise: the key order is the
  fingerprint's (`apps/staff/lib/legal-drafts.ts:34-43`), and discarding a draft
  discards it. The code looks at cells one by one: it does not see artifacts
  that changed places (`LegalDrafts.ReorderingIsNotCounted`) or words written
  over with whitespace (`LegalDrafts.SpacesAreNotCounted`), and it counts
  whitespace alone taken out. `LegalDrafts.HasChangesIsRightIff` says for which
  two sets the answer is right, `LegalDrafts.HasChangesIsRightOnWordsIff` the
  same for the words alone.
- A daily slot also counts views stored for a later hour of the reader's own
  day, which the hourly axis leaves out: `CountSeries.DailyIsSumOfHours` has
  the extra term, `CountSeries.DayIsItsHoursIff` says when the two agree,
  `CountSeries.LateViewShowsByDayAlone` is a day on which they do not.
- The comment at `NICE_STEPS` (`apps/staff/lib/affiliate-trends.ts:360-365`)
  labels a top of 3 at its ends alone. `countYTicks` divides it in three:
  0, 1, 2, 3 (`TrendsAxis.TopOfThree`); `TrendsAxis.EndsAloneIff` says which tops
  are labelled so.
- The expiry margin is documented as keeping a request from carrying a token
  about to expire. It guards the cache alone: a caller that joined a request
  gets whatever that request obtained (`TokenCache.JoinersMayGetAShortToken`;
  exactly when it keeps the margin, in `TokenCache.JoinersTokenKeepsTheMarginIff`).
- `nestedItems` is documented as leaving an Option without its question where the
  list put it. One listed before a question is moved behind all questions
  (`QuestionReviews.OrphanIsMoved`; `QuestionReviews.OrphansStayIff`).
- A question's new reason is documented to go to the Options that have none of
  their own. One whose own reason equals the question's old one loses it
  (`QuestionReviews.OwnReasonIsLost`; `QuestionReviews.OwnReasonIsKeptIff`).
- "The parser above round-trips it" holds below page 10^21 and never from
  there on, where `String(page)` is in exponent notation
  (`InvoiceList.ViewRoundTrip`; `InvoiceList.HugePageIsLost` is the first page lost).
- A redirect chain ends within two hops except for a live session with no
  active Member that owes an acceptance, which circles between `/terms` and its
  landing page, or whose only membership has the empty id, which is sent from
  `/` to `/` (`RedirectMachine.ServedIffNotTrapped`).
- The gate is documented to return a person to where they were going the moment
  they accept. A path that begins with two slashes is not returned to
  (`RedirectMachine.AcceptForgetsDoubleSlash`; exactly which addresses are, in
  `RedirectMachine.AcceptReturnsThere`).
- The return path is documented never to lead back into the gate or to `/api/`.
  That holds of its text; a browser resolves dot segments first
  (`RedirectMachine.DotsLeadBack`; exactly when it stays out, in
  `RedirectMachine.ReturnLeadsOutIff`).

`Text.SpacesAre`, `Text.TrimRemovesSpaces`, `Text.BlankMeans` and
`InvoiceList.ParseIntReads` say what is assumed of the language's own `trim`, `\s`
and `parseInt`. Two more lemmas are plain examples: `Base64Url.RfcVectors` reproduces vectors of
RFC 4648 section 10, and `Base64Url.DecodeIsNotInjective` shows a text that
decodes without being an encoding.

## Model

| member | source | states |
|---|---|---|
| CommonSubsequences.LcsIsLongest | apps/staff/lib/legal-drafts.ts:367-372 | the suffix recurrence is the length of a longest common subsequence, defined by deletion, and nothing else is |
| EditScripts.LcsTable | apps/staff/lib/legal-drafts.ts:374-384 | every cell of the flat 32-bit table holds the LCS length of its pair of suffixes |
| EditScripts.WalkTable | apps/staff/lib/legal-drafts.ts:386-401 | what the forward walk has emitted, followed by the script of what is left, is the whole script, until one side runs out |
| EditScripts.LcsWalk | apps/staff/lib/legal-drafts.ts:374-411 | table, walk and both drain loops produce the recursive script that keeps matches and gives ties to removal |
| EditScripts.LcsScriptIsScript | apps/staff/lib/legal-drafts.ts:366-372 | that script reads back as both texts and keeps as many elements as a longest common subsequence has |
| EditScripts.WalkIsFirstChoice | apps/staff/lib/legal-drafts.ts:366-401 | of all scripts that keep as much as can be kept, the walk's is the one that at the first difference matches rather than removes, and removes rather than adds |
| EditScripts.TrimIsMaximal | apps/staff/lib/legal-drafts.ts:333-349 | after trimming, what is left differs at its first and its last element |
| EditScripts.DiffSequences | apps/staff/lib/legal-drafts.ts:333-363 | the imperative diff is the specified script: head, middle, tail |
| EditScripts.DiffIsLossless | apps/staff/lib/legal-drafts.ts:333-363 | same and removed spell the left side, same and added the right side, over the cap too |
| EditScripts.DiffRemovalsFirst | apps/staff/lib/legal-drafts.ts:365-411 | no addition is directly followed by a removal, drain loops and over-cap branch included |
| EditScripts.DiffIsOptimal | apps/staff/lib/legal-drafts.ts:333-363 | no common subsequence of the whole texts is longer than what is kept, exactly when the table was used or the over-cap middles share no element |
| EditScripts.DiffBlocksDisjoint | apps/staff/lib/legal-drafts.ts:365-411 | below the cap nothing removed between two matches reappears among what is added there |
| EditScripts.CapIs | apps/staff/lib/legal-drafts.ts:322-330 | up to 2500 elements on either side of what is left between the common ends are diffed, and no more |
| EditScripts.CapMissesMatches | apps/staff/lib/legal-drafts.ts:322-330 | an input past the cap with any number of common elements of which none is kept |
| EditScripts.DiffAllSame | apps/staff/lib/legal-drafts.ts:333-363 | a script has no edit exactly when the two sides are equal |
| EditBlocks.BlockIsMaximal | apps/staff/lib/legal-drafts.ts:539-549 | with removals first, that block is a whole run of edits: what follows starts with a match |
| WordDiffs.TokenizeLossless | apps/staff/lib/legal-drafts.ts:316-319 | the tokens join up to the text, whitespace included |
| WordDiffs.TokensAreRuns | apps/staff/lib/legal-drafts.ts:316-319 | tokens are not empty, all whitespace or all not, and alternate |
| WordDiffs.MergeTokens | apps/staff/lib/legal-drafts.ts:414-425 | the loop that grows its last token in place computes the merge |
| WordDiffs.MergeIsFaithful | apps/staff/lib/legal-drafts.ts:413-425 | merging keeps both texts and leaves no two neighbours with one operation |
| WordDiffs.ComputeWordDiff | apps/staff/lib/legal-drafts.ts:312-314 | tokenising, diffing and merging is the specified word diff |
| WordDiffs.WordDiffLossless | apps/staff/lib/legal-drafts.ts:301-314 | both texts can be read back exactly from the word diff, over the cap too |
| WordDiffs.WordDiffNormalForm | apps/staff/lib/legal-drafts.ts:285-314 | neighbouring tokens differ in operation and a replaced phrase's old words come first |
| WordDiffs.WordDiffKeepsMost | apps/staff/lib/legal-drafts.ts:292-314 | what is left unmarked is the text of a common subsequence of the tokens, of as many as any has exactly when within the cap or with nothing in common past it |
| WordDiffs.WordDiffAllSame | apps/staff/lib/legal-drafts.ts:312-314 | everything is unchanged exactly when the texts are equal |
| LineDiffs.LinesAreBetweenBreaks | apps/staff/lib/legal-drafts.ts:514-522 | the lines are the one list of break-free texts that joins up to the text, and none for the empty text |
| LineDiffs.PairChangedLines | apps/staff/lib/legal-drafts.ts:525-567 | the index-driven loop emits the rows of the specification |
| LineDiffs.RowsAccount | apps/staff/lib/legal-drafts.ts:525-567 | the rows hold exactly the lines of both sides, in order, each under its own 1-based number |
| CellDiffs.MarkKept | apps/staff/lib/legal-drafts.ts:485-493 | a row is kept exactly when a changed row is itself or at most `context` away |
| Hunks.CollapseRows | apps/staff/lib/legal-drafts.ts:495-510 | hunk rows, skip counts and the trailing skip rebuild the row list in order, and every hunk after the first skips something |
| CellDiffs.ComputeHunks | apps/staff/lib/legal-drafts.ts:477-512 | the hunks lay out the rows eliding only what is far from a change, and the unchanged count is that of the rows |
| CellDiffs.HunksAreDetermined | apps/staff/lib/legal-drafts.ts:477-512 | rows and context leave no choice of hunks |
| CellDiffs.RowsAreLeftOutIff | apps/staff/lib/legal-drafts.ts:485-510 | a row is left out exactly when it is no change and every change is more than `context` rows above or below; any other is shown in its place |
| CellDiffs.RowsAccountForText | apps/staff/lib/legal-drafts.ts:477-482 | both texts, line by line and numbered 1..n without gaps, are in the rows |
| CellDiffs.RowsPairWholeRuns | apps/staff/lib/legal-drafts.ts:468-476 | each run of edits is one block: replacements first, then removals only or additions only |
| CellDiffs.ReplacedLinesAreDiffedByWord | apps/staff/lib/legal-drafts.ts:551-556 | each replaced line's tokens alternate, old words first, and what is unmarked is a common subsequence of the two lines' tokens, a longest one exactly when nothing was missed |
| CellDiffs.OtherLinesAreWhole | apps/staff/lib/legal-drafts.ts:531-564 | any other line is one token, of the kind of its row |
| CellDiffs.UnchangedLinesAreLongest | apps/staff/lib/legal-drafts.ts:482-483 | `unchangedLines` is the LCS length of the two line lists, exactly when nothing was missed past the cap |
| CellDiffs.ReplacedLinesShowAChange | apps/staff/lib/legal-drafts.ts:551-556 | every changed row has an added or removed word, exactly when within the cap or no middle line stands at the same place on both sides |
| CellDiffs.CapHidesChanges | apps/staff/lib/legal-drafts.ts:354-356 | two texts past the cap whose rows show a line equal on both sides as replaced, with nothing in it marked |
| CellDiffs.NoHunksIffEqual | apps/staff/lib/legal-drafts.ts:477-512 | there are no hunks exactly when the texts are equal, whatever the context |
| LegalDrafts.Completeness | apps/staff/lib/legal-drafts.ts:146-160 | the gaps are the missing cells among the draft's slugs and the languages, in order; complete means none |
| LegalDrafts.GapsAreNotWritten | apps/staff/lib/legal-drafts.ts:146-160 | the gaps are exactly the draft's cells without text, a published text taken out apart, in document order |
| LegalDrafts.CompletenessIsRightIff | apps/staff/lib/legal-drafts.ts:132-160 | the answer is whether every artifact of the draft has text in every language, exactly when no published text was taken out or another cell of the draft is not written anyway |
| LegalDrafts.CompleteAndNotStructural | apps/staff/lib/legal-drafts.ts:117-188 | complete and not structural, together, exactly when the draft has text in the cells the published edition has and no blank cell of its own |
| LegalDrafts.ClearedCellIsComplete | apps/staff/lib/legal-drafts.ts:117-130 | a published cell cleared to the empty text is complete; only the structural check catches it |
| LegalDrafts.HasChanges | apps/staff/lib/legal-drafts.ts:220-233 | the early-returning loops answer whether any cell of either side has changed |
| LegalDrafts.HasChangesIsRightIff | apps/staff/lib/legal-drafts.ts:216-233 | over whole sets, the answer is whether the draft is different, order included, exactly when some cell is reworded or else whitespace alone was taken out somewhere just when a cell was blanked or the artifacts are not the same in the same order |
| LegalDrafts.HasChangesIsRightOnWordsIff | apps/staff/lib/legal-drafts.ts:216-233 | the same with the order left aside: of the words alone |
| LegalDrafts.ReorderingIsNotCounted | apps/staff/lib/legal-drafts.ts:34-43 | two artifacts that change places make a different edition in which nothing is counted |
| LegalDrafts.SpacesAreNotCounted | apps/staff/lib/legal-drafts.ts:117-130 | a draft whose one cell is written over with a space differs in its words and has no counted change |
| LegalDrafts.EachCellOnce | apps/staff/lib/legal-drafts.ts:190-193 | the listed cells are those of either side, each once |
| LegalDrafts.DiffCells | apps/staff/lib/legal-drafts.ts:580-616 | each entry has both editions' texts and the status they call for; the cells are sorted by rank, ties in document order |
| LegalDrafts.BodyIsWritten | apps/staff/lib/legal-drafts.ts:123-124 | a cell's text is the one its artifact has in that language, and empty without one |
| LegalDrafts.ExchangedEditions | apps/staff/lib/legal-drafts.ts:117-130 | read from draft to published edition, added and removed change places and the rest stay |
| LegalDrafts.PublishedComeFirst | apps/staff/lib/legal-drafts.ts:190-193 | the published slugs lead in their order, the draft's own follow in theirs |
| LegalDrafts.CellsGoSlugBySlug | apps/staff/lib/legal-drafts.ts:599-610 | the cells go slug by slug, each in the order of the languages |
| LegalDrafts.StructuralFirst | apps/staff/lib/legal-drafts.ts:580-593 | structural changes lead, then rewordings; after an unchanged cell there are only unchanged cells |
| LegalDrafts.OneOrder | apps/staff/lib/legal-drafts.ts:611-615 | two renders put the cells in the same places |
| CivilTime.WalkDays | apps/staff/lib/affiliate-trends.ts:811-820 | the hour-by-hour walk yields exactly the consecutive days of the window, in any zone |
| CivilTime.HourHoldsInstant | apps/staff/lib/affiliate-trends.ts:148-150 | the reader's hour is the whole one the instant falls in |
| RateSeries.FloorIsFirstCounted | apps/staff/lib/affiliate-trends.ts:776-783 | the floor is the first day anything was counted, or past the last day when nothing was |
| RateSeries.Accumulate | apps/staff/lib/affiliate-trends.ts:855-867 | one day's counts added to running sums keep them equal to the stored sum up to that day |
| RateSeries.RateDays | apps/staff/lib/affiliate-trends.ts:793-820 | on "all" the axis is every day from the first counted one to the last, otherwise every day of the window |
| RateSeries.ComputeRateSeries | apps/staff/lib/affiliate-trends.ts:734-853 | each point divides two plain sums over days, with no window in them; no clicks, no rate |
| RateSeries.OneMoreSale | apps/staff/lib/affiliate-trends.ts:784-791 | one more sales bucket adds its sales, not its tickets or proceeds, to its link's numerator and the whole page's on the days divided over it once views are counted, and nothing elsewhere |
| RateSeries.OneMoreView | apps/staff/lib/affiliate-trends.ts:766-775 | one more hour of views adds them to its link's denominator, or the whole page's, on the days divided over it, and nothing elsewhere |
| RateSeries.NothingCountsNothing | apps/staff/lib/affiliate-trends.ts:841-849 | without views every denominator is zero, without sales every numerator |
| RateSeries.RatesDivide | apps/staff/lib/affiliate-trends.ts:848 | what is drawn times its denominator is its numerator, and nothing is drawn exactly over zero |
| RateSeries.DaysShown | apps/staff/lib/affiliate-trends.ts:793-820 | the week on 24h and 7d, the month on 30d, all from the first counted day; no day left out, and the selected series on each |
| RateSeries.WindowChoosesDaysOnly | apps/staff/lib/affiliate-trends.ts:708-733 | a link's figures and rate on a day are the same under every window and every selection |
| RateSeries.CumulativeNeverFalls | apps/staff/lib/affiliate-trends.ts:708-733 | along the axis neither cumulative count decreases |
| CountSeries.ComputeWindowStart | apps/staff/lib/affiliate-trends.ts:327-349 | a fixed window is n hours with the current one; "all" starts at the earliest readable view |
| CountSeries.ComputeViewsSeries | apps/staff/lib/affiliate-trends.ts:254-324 | every slot of every selected series holds the sum of its buckets, whatever else is selected |
| CountSeries.OneMoreViewDrawn | apps/staff/lib/affiliate-trends.ts:300-321 | one more stored hour is added to its slot of its series when not before the window, the first hour included, and nowhere else |
| CountSeries.NothingDrawn | apps/staff/lib/affiliate-trends.ts:268-283 | with nothing stored every slot shows zero |
| CountSeries.FixedWindows | apps/staff/lib/affiliate-trends.ts:138-142 | 24, 168 and 720 hourly slots, the reader's hour the last |
| CountSeries.WindowOfAll | apps/staff/lib/affiliate-trends.ts:327-349 | "all" opens at the earliest readable hour, or the reader's when earlier, and never without one |
| CountSeries.DailyIsSumOfHours | apps/staff/lib/affiliate-trends.ts:254-324 | on the drawn data: each day's value is the sum of that civil day's hourly values, plus what was stored after the reader's hour |
| CountSeries.DayIsItsHoursIff | apps/staff/lib/affiliate-trends.ts:313-317 | a drawn day is exactly the sum of its drawn hours if and only if no view of it was stored after the reader's hour |
| CountSeries.LateViewShowsByDayAlone | apps/staff/lib/affiliate-trends.ts:313-317 | in UTC, reader at hour 3, one view at hour 5, on "all": the day shows it, no hour does |
| CountSeries.SelectionChangesNoValue | apps/staff/lib/affiliate-trends.ts:254-324 | adding or dropping another series moves no slot and changes no value |
| CountSeries.TotalIsStored | apps/staff/lib/affiliate-trends.ts:254-324 | a series' drawn total is its stored views inside the window |
| SalesSeries.ComputeSalesSeries | apps/staff/lib/affiliate-trends.ts:555-657 | each slot sums sales, tickets and proceeds of the buckets whose first slot it is |
| SalesSeries.OneMoreSaleDrawn | apps/staff/lib/affiliate-trends.ts:636-654 | one more bucket adds sales to sales, tickets to tickets and proceeds to proceeds, in the earliest slot showing its civil hour or in its day, and nowhere else |
| SalesSeries.NothingSold | apps/staff/lib/affiliate-trends.ts:600-615 | with nothing sold every slot shows nothing |
| SalesSeries.FixedWindows | apps/staff/lib/affiliate-trends.ts:573-576 | the fixed windows start 23, 167 and 719 hours before the reader's |
| SalesSeries.AllOpensOnFirstDay | apps/staff/lib/affiliate-trends.ts:577-598 | by day, "all" opens on the earliest day either store knows |
| SalesSeries.EverySaleDrawnOnce | apps/staff/lib/affiliate-trends.ts:543-547 | the drawn total of a link is its sales in the window, each once, whatever hours the clock repeats |
| SalesSeries.AllReachesEverySale | apps/staff/lib/affiliate-trends.ts:549-551 | on "all" a sale whose civil hour has come by now has a slot, in any zone |
| TrendsAxis.MultiSeriesYMax | apps/staff/lib/affiliate-trends.ts:374-392 | the top is the first rung of the ladder that reaches the tallest single value |
| TrendsAxis.TopIsTight | apps/staff/lib/affiliate-trends.ts:352-392 | tallest <= top < 2 * tallest, in every decade |
| TrendsAxis.TopIsLeastRung | apps/staff/lib/affiliate-trends.ts:352-392 | no readable top of any decade is lower and still holds the tallest value |
| TrendsAxis.TicksAreEven | apps/staff/lib/affiliate-trends.ts:932-966 | every rung of every decade is labelled from 0 to itself in whole even steps of 1, 2 or 5 times a power of ten |
| TrendsAxis.EndsAloneIff | apps/staff/lib/affiliate-trends.ts:954-966 | a top is labelled at its ends alone exactly when neither 2, 3 nor 5 divides it |
| TrendsAxis.FinestRoundDivision | apps/staff/lib/affiliate-trends.ts:932-963 | a top is cut into as many parts, of five at most, as give a round whole step, failing that a whole one |
| TrendsAxis.RoundStepIs | apps/staff/lib/affiliate-trends.ts:942-947 | a round step is 1, 2 or 5 times a power of ten |
| TrendsAxis.EmptyChart | apps/staff/lib/affiliate-trends.ts:381-383 | the top of a chart without counts is 1 |
| TrendsAxis.TopOfThree | apps/staff/lib/affiliate-trends.ts:360-365 | a top of 3 is labelled 0, 1, 2, 3 |
| TrendsAxis.EveryChartHasEvenTicks | apps/staff/lib/affiliate-trends.ts:374-392 | so is the top of every chart, the empty one included |
| TokenCache.TokenModule.ServiceIdToken | apps/staff/lib/api.ts:111-127 | a call hands out the cached token, joins the request in flight or starts one, as the state machine does |
| TokenCache.TokenModule.RequestIdToken | apps/staff/lib/api.ts:87-103 | a settled request stores its token and expiry, or leaves the cache alone |
| TokenCache.TokenModule.ClearSlot | apps/staff/lib/api.ts:119-121 | the `finally` step empties the slot and touches nothing else |
| TokenCache.TokenModule.ResumeCaller | apps/staff/lib/api.ts:122-126 | a resumed caller gets its request's outcome, at the time it resumes |
| TokenCache.StepValid | apps/staff/lib/api.ts:65-127 | every step keeps: the slot names the one unfinished request, the cache was obtained, every caller is justified |
| TokenCache.RunValid | apps/staff/lib/api.ts:65-127 | every run keeps it, and never changes an outcome or an answer once given |
| TokenCache.SingleFlight | apps/staff/lib/api.ts:119-121 | over every interleaving at most one metadata request is outstanding |
| TokenCache.JoinersGetItsOutcome | apps/staff/lib/api.ts:119-126 | whoever joined a request is answered with that request's outcome |
| TokenCache.CacheKeepsTheMargin | apps/staff/lib/api.ts:45-47 | a token from the cache was obtained and had more than 60 s left when handed out |
| TokenCache.CacheIsLastIssued | apps/staff/lib/api.ts:87-103 | over every run the cache holds the token of the last answer that carried one, with its stated expiry or 45 minutes |
| TokenCache.CallServesOrStarts | apps/staff/lib/api.ts:111-121 | a caller gets the standing token without a request exactly while it has more than 60 s left, starts a request exactly when it has not and every request is over, and otherwise joins |
| TokenCache.ObtainedTokenServes | apps/staff/lib/api.ts:101-117 | a token obtained serves every later caller while it lasts and no other is obtained, with no further request |
| TokenCache.OffPlatformIsQuiet | apps/staff/lib/api.ts:111-114 | off the platform nothing is requested or cached over any run |
| TokenCache.AlwaysDrains | apps/staff/lib/api.ts:119-126 | from any reachable state, failures included, the runtime's own steps answer every caller and empty the slot |
| TokenCache.InternalStepsProgress | apps/staff/lib/api.ts:119-126 | each of those steps is progress, so they cannot go on for ever |
| TokenCache.NeverStuck | apps/staff/lib/api.ts:119-126 | from any reachable state, failures included, they lead to one where a new caller without a fresh token starts a request of its own |
| TokenCache.JoinersTokenKeepsTheMarginIff | apps/staff/lib/api.ts:45-47 | in every run, a joiner is answered with what its request obtained, and it keeps the margin exactly when its stated or assumed expiry is still that far off as the caller resumes |
| TokenCache.JoinersMayGetAShortToken | apps/staff/lib/api.ts:115-123 | a run in which it does not |
| Base64Url.Base64UrlEncode | apps/staff/lib/google-signin.ts:253-259 | the byte loop, `btoa` and the replacements are the specified encoding |
| Base64Url.Base64UrlDecode | apps/staff/lib/google-signin.ts:261-270 | the replacements, the padding, `atob` and the byte loop are the specified decoding, failing where `atob` throws |
| Base64Url.DecodeEncode | apps/staff/lib/google-signin.ts:248-270 | decoding restores every byte array from its encoding |
| Base64Url.EncodeIsUrlSafe | apps/staff/lib/google-signin.ts:253-259 | only the URL-safe alphabet of RFC 4648 section 5, in four characters for every three bytes rounded up |
| Base64Url.EncodeIsInjective | apps/staff/lib/google-signin.ts:253-259 | different byte arrays have different encodings |
| Base64Url.EncodingsAre | apps/staff/lib/google-signin.ts:253-270 | a text is its own re-encoding exactly when it is URL-safe, of a possible length and leaves no stray bits |
| Base64Url.RandomTokenLength | apps/staff/lib/google-signin.ts:139-144 | 32 bytes make 43 characters, within RFC 7636 section 4.1 |
| Base64Url.StatesMatch | apps/staff/lib/google-signin.ts:237-246 | the accumulating comparison answers equality, and the empty nonce never matches |
| AffiliateLinksView.CompareOrders | apps/staff/lib/affiliate-links-view.ts:87-159 | for every field and direction the comparator orders all rows and ties only rows of one id |
| AffiliateLinksView.OneOrderForAnyArrival | apps/staff/lib/affiliate-links-view.ts:154-159 | every arrangement of the same rows is shown in one order, a sorted permutation |
| AffiliateLinksView.HolesLast | apps/staff/lib/affiliate-links-view.ts:98-103 | a hole comes after every real figure in both directions |
| AffiliateLinksView.ColumnReadsInDirection | apps/staff/lib/affiliate-links-view.ts:110-151 | the column reads in the direction asked for; rows it cannot tell apart are newest first, then by id downwards |
| AffiliateLinksView.TextLessIsByUnits | apps/staff/lib/affiliate-links-view.ts:138-140 | strings are compared by their UTF-16 code units |
| AffiliateLinksView.SearchCommutesWithSort | apps/staff/lib/affiliate-links-view.ts:154-179 | searching then sorting is sorting then searching |
| AffiliateLinksView.SearchFinds | apps/staff/lib/affiliate-links-view.ts:168-179 | a search keeps exactly the rows whose name or code holds the query somewhere, all of them when it is blank |
| Sorting.StableSortUnique | apps/staff/lib/legal-drafts.ts:611-615 | two sorted lists with the same elements and the same order of ties are equal |
| QuestionReviews.ComputeWithVerdict | apps/staff/lib/operator-question-reviews.ts:84-105 | the copying and carrying loop is the specified update: the item, and its Options when it is a question |
| QuestionReviews.ComputeWithReason | apps/staff/lib/operator-question-reviews.ts:111-137 | likewise, carried to Options with no reason or the question's old one |
| QuestionReviews.OwnReasonIsKeptIff | apps/staff/lib/operator-question-reviews.ts:107-137 | an Option without a reason takes its question's new one and an Option with one keeps it, exactly unless that is the question's old reason and the new one differs |
| QuestionReviews.OwnReasonIsLost | apps/staff/lib/operator-question-reviews.ts:107-137 | a run of three edits in which a reason typed for an Option is overwritten |
| QuestionReviews.OptionsFollowTheirQuestion | apps/staff/lib/operator-question-reviews.ts:78-137 | over any run of edits an Option never itself edited says what its question says |
| QuestionReviews.OptionEditsMoveNothingElse | apps/staff/lib/operator-question-reviews.ts:78-83 | editing an Option changes no other draft |
| QuestionReviews.EditSetsItsItem | apps/staff/lib/operator-question-reviews.ts:84-137 | what an edit makes of its own item, and that an edit of an unknown item does nothing |
| QuestionReviews.VerdictReachesOptions | apps/staff/lib/operator-question-reviews.ts:84-105 | a question's verdict is each of its Options' too, their own reasons kept on a refusal and dropped on an approval |
| QuestionReviews.EditStaysInItsGroup | apps/staff/lib/operator-question-reviews.ts:78-137 | nothing moves outside the edited item and, for a question, its own Options |
| QuestionReviews.AnswerProblem | apps/staff/lib/operator-question-reviews.ts:40-60 | the scan returns the first item with a hole, and null exactly when there is none |
| QuestionReviews.ProblemMeans | apps/staff/lib/operator-question-reviews.ts:40-60 | undecided, refused with nothing but white space, refused with more than 500 code units; nothing else is a problem |
| QuestionReviews.NoProblemIffWholeAnswer | apps/staff/lib/operator-question-reviews.ts:40-76 | there is no hole exactly when every line sent has a verdict that was given, and every refusal its own reason, trimmed, not blank and within the bound |
| QuestionReviews.ComputeNestedItems | apps/staff/lib/operator-question-reviews.ts:146-168 | the two passes with their `placed` set compute the specified placement |
| QuestionReviews.NestedIsGrouped | apps/staff/lib/operator-question-reviews.ts:139-168 | each question is followed by all its Options in order, questions keep theirs, orphan Options come last in theirs |
| QuestionReviews.OptionsStandBehindTheirQuestion | apps/staff/lib/operator-question-reviews.ts:146-161 | in the nested list each question has all its Options right behind it in list order, and the questions keep theirs |
| QuestionReviews.NestedIsPermutation | apps/staff/lib/operator-question-reviews.ts:146-168 | no item is lost or doubled |
| QuestionReviews.NestingIsIdempotent | apps/staff/lib/operator-question-reviews.ts:146-168 | a second application changes nothing |
| QuestionReviews.OrphansStayIff | apps/staff/lib/operator-question-reviews.ts:139-168 | each orphan Option stands where the list put it among the questions exactly when none is listed before a question |
| QuestionReviews.OrphanIsMoved | apps/staff/lib/operator-question-reviews.ts:162-167 | an orphan listed before a question is moved behind it |
| InvoiceList.BuildQuery | apps/staff/lib/operator-invoice-list.ts:317-329 | the builder's mutations make the specified query |
| InvoiceList.ParsedIsPresentable | apps/staff/lib/operator-invoice-list.ts:202-276 | whatever the address holds, the view read off it is allowlisted, trimmed and on a page of at least 1 |
| InvoiceList.UnknownWordsNarrowNothing | apps/staff/lib/operator-invoice-list.ts:211-276 | a word the list knows is read, any other reads as the one that narrows nothing; texts are read trimmed |
| InvoiceList.ViewRoundTrip | apps/staff/lib/operator-invoice-list.ts:267-329 | parsing the built query returns the view exactly when its page is below 10^21 |
| InvoiceList.BuildingIsAFixpoint | apps/staff/lib/operator-invoice-list.ts:267-329 | building again from any parsed address changes nothing, on the same condition |
| InvoiceList.QueryEmptyIffDefault | apps/staff/lib/operator-invoice-list.ts:401-428 | the query is empty exactly when the reset would change nothing |
| RedirectMachine.CookieClearedIffRejected | apps/staff/middleware.ts:75-141 | a session cookie is deleted exactly when it was consulted and rejected |
| RedirectMachine.OnlyTheGateKeepsTheQuery | apps/staff/middleware.ts:100-204 | every redirect drops the query but the gate's, which carries the address it stopped |
| RedirectMachine.ChainsEnd | apps/staff/middleware.ts:75-204 | unless trapped, a chain is served within two redirects, at the page the request and session determine |
| RedirectMachine.ArrivalsEndIff | apps/staff/lib/auth-fork.ts:16-60 | at `/` or the sign-in page and owing nothing: the chain ends at `/` exactly with an active Member, else at `/operator` exactly as an operator, else at the create page exactly without a membership and at the picker exactly with one |
| RedirectMachine.ArrivalsEndOnOwnPage | apps/staff/lib/auth-fork.ts:38-60 | and it does end there within two redirects, a lone membership with the empty id apart |
| RedirectMachine.OperatorPagesAreForOperators | apps/staff/middleware.ts:170-182 | an operator's page is shown to operators; others end on their own page |
| RedirectMachine.MembersSeeWhatTheyAsk | apps/staff/middleware.ts:184-194 | an active Member is shown any other page asked for, the picker apart |
| RedirectMachine.OthersEndOnOwnPage | apps/staff/middleware.ts:196-203 | without an active Member only the create page and the picker are shown as asked for |
| RedirectMachine.SignedOutEndAtLogin | apps/staff/middleware.ts:125-141 | without a session every chain ends at the sign-in page |
| RedirectMachine.OwingMembersEndAtTerms | apps/staff/middleware.ts:143-168 | a Member who owes an acceptance ends at the gate |
| RedirectMachine.OnboardingLeadsToCreate | apps/staff/middleware.ts:118-123 | the old onboarding address leads to the create page |
| RedirectMachine.ServedIffNotTrapped | apps/staff/middleware.ts:108-204 | some page is ever served exactly when the request is not trapped |
| RedirectMachine.GateCycle | apps/staff/lib/terms-gate.ts:77-96 | owing an acceptance with no active Member, `/terms` and the landing page follow each other for ever |
| RedirectMachine.ReturnStaysOnSite | apps/staff/lib/terms-gate.ts:98-128 | compared as text: an accepted gate leads to a path of this site, not within the gate nor under the API, with no raw control character, and the result is its own return path |
| RedirectMachine.ReturnLeadsOutIff | apps/staff/lib/terms-gate.ts:98-128 | dot segments and backslashes resolved: a browser leaves the gate and the API alone exactly when the walk through the returned path, counted step by step, does not end in one of them; always for a path without such segments |
| RedirectMachine.DotsLeadBack | apps/staff/lib/terms-gate.ts:123-127 | a returned path that resolves to the gate |
| RedirectMachine.AcceptReturnsThere | apps/staff/lib/terms-gate.ts:77-128 | a diverted person returns to where they were going, exactly when the address is not protocol-relative and has no raw control character or space |
| RedirectMachine.AcceptForgetsDoubleSlash | apps/staff/lib/terms-gate.ts:114-117 | a diverted path that begins with two slashes is not returned to |

## Left out

- React components, pages, formatting, `Intl`, labels and locales: no algorithm; locales default where the caller names none.
- Network calls, cookies as headers, JSON, SHA-256 and random bytes: what they return is a parameter or is absent.
- `tokenExpiryMs`: an arbitrary optional expiry, with the stated fallback.
- A session lookup that throws in the middleware, and the matcher that keeps static files from it.
- Percent-encoding of queries: a query is a map of decoded values.
- `rateYMax`, `rateYTicks` and rounding of the rate: floating point. A rate is the exact quotient beside its two counts.
- `listTrendsSeries`, the plot geometry and the selection helpers: filters and a stable sort over series proved here.
- `toArtifactSet`, `toArtifactList` and `draftSlugs`: copies. An object whose slugs look like integers would reorder its keys; slugs are taken in key order.
- Days a zone skips altogether, and buckets off the whole hour.
- Malformed day strings in sales buckets: a civil hour is a number of days and an hour.
- Page numbers above 2^53 are exact here and rounded in the program.
- Duplicate item ids, and two items for one question: the Question Review properties need what the API writes.
- `WordDiffs.Tokenize`, `LineDiffs.SplitLines` and the searches of `QuestionReviews` are library calls of the source, specified as functions.
- The diff builds sequences instead of pushing onto one array, so aliasing of a token list is not modelled; the LCS table and the keep flags are arrays changed in place.
- The server's own rules that comments mention: that code is not in these files.
