/**
 * The Operator's answer to a Question Review
 * (apps/staff/lib/operator-question-reviews.ts): drafts edited item by item,
 * checked whole, sent as one body, and the order the items are read in.
 */
module QuestionReviews {
  import opened Sequences
  import opened Wrappers
  import Text
  import Sorting

  const RESOLUTION_REASON_MAX_LENGTH: nat := 500

  datatype Verdict = Approved | Refused

  datatype Draft = Draft(verdict: Option<Verdict>, reason: string)

  const EMPTY_VERDICT: Draft := Draft(None, "")

  /** A question item, or an Option item when it names an Option. */
  datatype Item = Item(id: string, questionId: string, optionId: Option<string>)

  type Drafts = map<string, Draft>

  /** An empty Option id is no Option id. */
  predicate IsOption(item: Item) {
    item.optionId.Some? && item.optionId.value != ""
  }

  predicate OptionOf(item: Item, questionId: string) {
    IsOption(item) && item.questionId == questionId
  }

  function DraftOf(drafts: Drafts, id: string): Draft {
    if id in drafts then drafts[id] else EMPTY_VERDICT
  }

  /** Ids are distinct, and a question has one item. */
  ghost predicate WellFormed(items: seq<Item>) {
    && (forall i, j :: 0 <= i < j < |items| ==> items[i].id != items[j].id)
    && (forall i, j :: 0 <= i < j < |items| && !IsOption(items[i]) && !IsOption(items[j]) ==>
          items[i].questionId != items[j].questionId)
  }

  // ---------------------------------------------------------------- editing

  function Find(items: seq<Item>, id: string): Option<Item> {
    if items == [] then None else if items[0].id == id then Some(items[0]) else Find(items[1..], id)
  }

  /** The ids of a question's Options. */
  function OptionIds(items: seq<Item>, questionId: string): set<string> {
    set k | 0 <= k < |items| && OptionOf(items[k], questionId) :: items[k].id
  }

  function KeptReason(drafts: Drafts, id: string, verdict: Verdict): string {
    if verdict == Refused then DraftOf(drafts, id).reason else ""
  }

  /** The question's verdict, carried to these Options. */
  function VerdictsFor(ids: set<string>, drafts: Drafts, verdict: Verdict): Drafts {
    map id | id in ids :: Draft(Some(verdict), KeptReason(drafts, id, verdict))
  }

  /** The question's reason, carried to those of these Options that take it. */
  function ReasonsFor(ids: set<string>, drafts: Drafts, previous: string, reason: string): Drafts {
    map id | id in ids && Carries(drafts, id, previous) :: Draft(DraftOf(drafts, id).verdict, reason)
  }

  /** The drafts after one item's verdict is set, and carried to its Options when it is a question. */
  function WithVerdict(items: seq<Item>, drafts: Drafts, itemId: string, verdict: Verdict): Drafts {
    match Find(items, itemId)
    case None => drafts
    case Some(target) =>
      var own := drafts[itemId := Draft(Some(verdict), KeptReason(drafts, itemId, verdict))];
      if IsOption(target) then own
      else own + VerdictsFor(OptionIds(items, target.questionId), drafts, verdict)
  }

  /** An Option takes the question's new reason when it has none, or still has the question's old one. */
  predicate Carries(drafts: Drafts, id: string, previous: string) {
    DraftOf(drafts, id).reason == "" || DraftOf(drafts, id).reason == previous
  }

  function WithReason(items: seq<Item>, drafts: Drafts, itemId: string, reason: string): Drafts {
    match Find(items, itemId)
    case None => drafts
    case Some(target) =>
      var own := drafts[itemId := Draft(DraftOf(drafts, itemId).verdict, reason)];
      if IsOption(target) then own
      else own + ReasonsFor(OptionIds(items, target.questionId), drafts, DraftOf(drafts, itemId).reason, reason)
  }

  method ComputeFind(items: seq<Item>, id: string) returns (found: Option<Item>)
    ensures found == Find(items, id)
  {
    assert items[0..] == items;
    for n := 0 to |items|
      invariant Find(items[n..], id) == Find(items, id)
    {
      assert items[n..][1..] == items[n + 1..];
      if items[n].id == id { return Some(items[n]); }
    }
    return None;
  }

  lemma NoOptionIds(items: seq<Item>, questionId: string)
    ensures OptionIds(items[..0], questionId) == {}
  {
  }

  lemma OptionIdsStep(items: seq<Item>, n: nat, questionId: string)
    requires n < |items|
    ensures OptionIds(items[..n + 1], questionId)
         == OptionIds(items[..n], questionId) + if OptionOf(items[n], questionId) then {items[n].id} else {}
  {
    var l, r := items[..n + 1], items[..n];
    forall id ensures id in OptionIds(l, questionId)
                 <==> id in OptionIds(r, questionId) || (OptionOf(items[n], questionId) && id == items[n].id)
    {
      if id in OptionIds(r, questionId) {
        var k :| 0 <= k < |r| && OptionOf(r[k], questionId) && r[k].id == id;
        assert l[k] == r[k];
      }
      if OptionOf(items[n], questionId) && id == items[n].id { assert l[n].id == id; }
      if id in OptionIds(l, questionId) {
        var k :| 0 <= k < |l| && OptionOf(l[k], questionId) && l[k].id == id;
        if k < n { assert r[k] == l[k]; }
      }
    }
  }

  /** The carrying loop of `withVerdict`. */
  method CarryVerdict(items: seq<Item>, drafts: Drafts, own: Drafts, questionId: string, verdict: Verdict)
    returns (next: Drafts)
    ensures next == own + VerdictsFor(OptionIds(items, questionId), drafts, verdict)
  {
    hide OptionIds, OptionOf, KeptReason;
    next := own;
    NoOptionIds(items, questionId);
    for n := 0 to |items|
      invariant next == own + VerdictsFor(OptionIds(items[..n], questionId), drafts, verdict)
    {
      OptionIdsStep(items, n, questionId);
      if OptionOf(items[n], questionId) {
        next := next[items[n].id := Draft(Some(verdict), KeptReason(drafts, items[n].id, verdict))];
      }
    }
    assert items[..|items|] == items;
  }

  method ComputeWithVerdict(items: seq<Item>, drafts: Drafts, itemId: string, verdict: Verdict) returns (next: Drafts)
    ensures next == WithVerdict(items, drafts, itemId, verdict)
  {
    hide OptionIds, VerdictsFor, Find;
    next := drafts;
    var target := ComputeFind(items, itemId);
    if target.None? { return; }
    next := next[itemId := Draft(Some(verdict), KeptReason(drafts, itemId, verdict))];
    if !IsOption(target.value) {
      next := CarryVerdict(items, drafts, next, target.value.questionId, verdict);
    }
  }

  /** The carrying loop of `withReason`. */
  method CarryReason(items: seq<Item>, drafts: Drafts, own: Drafts, questionId: string, previous: string,
                     reason: string)
    returns (next: Drafts)
    ensures next == own + ReasonsFor(OptionIds(items, questionId), drafts, previous, reason)
  {
    hide OptionIds, OptionOf, DraftOf, Carries;
    next := own;
    NoOptionIds(items, questionId);
    for n := 0 to |items|
      invariant next == own + ReasonsFor(OptionIds(items[..n], questionId), drafts, previous, reason)
    {
      OptionIdsStep(items, n, questionId);
      if OptionOf(items[n], questionId) && Carries(drafts, items[n].id, previous) {
        next := next[items[n].id := Draft(DraftOf(drafts, items[n].id).verdict, reason)];
      }
    }
    assert items[..|items|] == items;
  }

  method ComputeWithReason(items: seq<Item>, drafts: Drafts, itemId: string, reason: string) returns (next: Drafts)
    ensures next == WithReason(items, drafts, itemId, reason)
  {
    hide OptionIds, ReasonsFor, Find;
    next := drafts;
    var target := ComputeFind(items, itemId);
    if target.None? { return; }
    var previous := DraftOf(drafts, itemId).reason;
    next := next[itemId := Draft(DraftOf(drafts, itemId).verdict, reason)];
    if !IsOption(target.value) {
      next := CarryReason(items, drafts, next, target.value.questionId, previous, reason);
    }
  }

  // ---------------------------------------------------------------- runs of edits

  datatype Edit = SetVerdict(itemId: string, verdict: Verdict) | SetReason(itemId: string, reason: string)

  function Apply(items: seq<Item>, drafts: Drafts, edit: Edit): Drafts {
    match edit
    case SetVerdict(itemId, verdict) => WithVerdict(items, drafts, itemId, verdict)
    case SetReason(itemId, reason) => WithReason(items, drafts, itemId, reason)
  }

  function After(items: seq<Item>, drafts: Drafts, edits: seq<Edit>): Drafts {
    if edits == [] then drafts
    else Apply(items, After(items, drafts, edits[..|edits| - 1]), edits[|edits| - 1])
  }

  lemma {:induction false} FindInPlace(items: seq<Item>, k: nat)
    requires k < |items| && forall i, j :: 0 <= i < j < |items| ==> items[i].id != items[j].id
    ensures Find(items, items[k].id) == Some(items[k])
  {
    if k > 0 {
      assert items[0].id != items[k].id;
      FindInPlace(items[1..], k - 1);
    }
  }

  lemma {:induction false} FoundIsThere(items: seq<Item>, id: string)
    ensures match Find(items, id)
            case None => forall k :: 0 <= k < |items| ==> items[k].id != id
            case Some(item) => item.id == id && item in items
  {
    if items != [] { FoundIsThere(items[1..], id); }
  }

  /** An edit aimed elsewhere changes an Option exactly as it changes its question. */
  lemma EditKeepsOptionWithQuestion(items: seq<Item>, drafts: Drafts, edit: Edit, q: nat, o: nat)
    requires WellFormed(items) && q < |items| && o < |items|
    requires !IsOption(items[q]) && OptionOf(items[o], items[q].questionId)
    requires edit.itemId != items[o].id
    requires DraftOf(drafts, items[o].id) == DraftOf(drafts, items[q].id)
    ensures var next := Apply(items, drafts, edit);
            DraftOf(next, items[o].id) == DraftOf(next, items[q].id)
  {
    hide Find, OptionIds;
    FindInPlace(items, q);
    FoundIsThere(items, edit.itemId);
    var found := Find(items, edit.itemId);
    if found.Some? {
      var t :| 0 <= t < |items| && items[t] == found.value;
      IdAmongOptions(items, o, found.value.questionId);
      IdAmongOptions(items, q, found.value.questionId);
      if !IsOption(found.value) && found.value.questionId == items[q].questionId {
        assert t == q;
      }
    }
  }

  /** With distinct ids, an item's id is that of an Option of the question only when the item is one. */
  lemma IdAmongOptions(items: seq<Item>, k: nat, questionId: string)
    requires WellFormed(items) && k < |items|
    ensures items[k].id in OptionIds(items, questionId) <==> OptionOf(items[k], questionId)
  {
    if items[k].id in OptionIds(items, questionId) {
      var i :| 0 <= i < |items| && OptionOf(items[i], questionId) && items[i].id == items[k].id;
      assert i == k;
    }
  }

  /**
   * Over any run of edits from no drafts at all, an Option that was never
   * itself edited says exactly what its question says.
   */
  lemma {:induction false} OptionsFollowTheirQuestion(items: seq<Item>, edits: seq<Edit>, q: nat, o: nat)
    requires WellFormed(items) && q < |items| && o < |items|
    requires !IsOption(items[q]) && OptionOf(items[o], items[q].questionId)
    requires forall k :: 0 <= k < |edits| ==> edits[k].itemId != items[o].id
    ensures var drafts := After(items, map[], edits);
            DraftOf(drafts, items[o].id) == DraftOf(drafts, items[q].id)
    decreases |edits|
  {
    hide WellFormed, Apply;
    if edits != [] {
      var init := edits[..|edits| - 1];
      OptionsFollowTheirQuestion(items, init, q, o);
      EditKeepsOptionWithQuestion(items, After(items, map[], init), edits[|edits| - 1], q, o);
    }
  }

  /** What an edit does to its own item, and that an edit of no item does nothing. */
  lemma EditSetsItsItem(items: seq<Item>, drafts: Drafts, edit: Edit)
    requires WellFormed(items)
    ensures var before, now := DraftOf(drafts, edit.itemId), DraftOf(Apply(items, drafts, edit), edit.itemId);
      if exists k :: 0 <= k < |items| && items[k].id == edit.itemId then
        match edit
        case SetVerdict(_, verdict) => now == Draft(Some(verdict), if verdict == Refused then before.reason else "")
        case SetReason(_, reason) => now == Draft(before.verdict, reason)
      else Apply(items, drafts, edit) == drafts
  {
    FoundIsThere(items, edit.itemId);
    var found := Find(items, edit.itemId);
    if found.Some? && !IsOption(found.value) {
      var t :| 0 <= t < |items| && items[t] == found.value;
      IdAmongOptions(items, t, found.value.questionId);
    }
  }

  /**
   * A question's verdict is each of its Options' too; a refusal leaves each its
   * own reason, an approval leaves none.
   */
  lemma VerdictReachesOptions(items: seq<Item>, drafts: Drafts, q: nat, o: nat, verdict: Verdict)
    requires WellFormed(items) && q < |items| && o < |items|
    requires !IsOption(items[q]) && OptionOf(items[o], items[q].questionId)
    ensures DraftOf(WithVerdict(items, drafts, items[q].id, verdict), items[o].id)
         == Draft(Some(verdict), if verdict == Refused then DraftOf(drafts, items[o].id).reason else "")
  {
    FindInPlace(items, q);
    IdAmongOptions(items, o, items[q].questionId);
  }

  /** An edit moves no draft but its item's and, from a question, those of its own Options. */
  lemma EditStaysInItsGroup(items: seq<Item>, drafts: Drafts, edit: Edit, k: nat)
    requires WellFormed(items) && k < |items| && items[k].id != edit.itemId
    requires forall t :: 0 <= t < |items| && items[t].id == edit.itemId && !IsOption(items[t]) ==>
               !OptionOf(items[k], items[t].questionId)
    ensures DraftOf(Apply(items, drafts, edit), items[k].id) == DraftOf(drafts, items[k].id)
  {
    FoundIsThere(items, edit.itemId);
    var found := Find(items, edit.itemId);
    if found.Some? && !IsOption(found.value) {
      var t :| 0 <= t < |items| && items[t] == found.value;
      IdAmongOptions(items, k, found.value.questionId);
    }
  }

  /** An Option's edit is its own: nobody else's draft moves. */
  lemma OptionEditsMoveNothingElse(items: seq<Item>, drafts: Drafts, edit: Edit, o: nat, id: string)
    requires WellFormed(items) && o < |items| && IsOption(items[o]) && edit.itemId == items[o].id && id != edit.itemId
    ensures DraftOf(Apply(items, drafts, edit), id) == DraftOf(drafts, id)
  {
    FindInPlace(items, o);
  }

  /**
   * A question's new reason is documented to go to the Options that have none
   * of their own. For one of them it does, and an own reason is kept, exactly
   * unless that own reason is the question's old one word for word and the new
   * one differs.
   */
  lemma OwnReasonIsKeptIff(items: seq<Item>, drafts: Drafts, q: nat, o: nat, reason: string)
    requires WellFormed(items) && q < |items| && o < |items|
    requires !IsOption(items[q]) && OptionOf(items[o], items[q].questionId)
    ensures var own, previous := DraftOf(drafts, items[o].id), DraftOf(drafts, items[q].id).reason;
            var now := DraftOf(WithReason(items, drafts, items[q].id, reason), items[o].id);
            && now.verdict == own.verdict
            && (now.reason == (if own.reason == "" then reason else own.reason)
                <==> own.reason == "" || own.reason != previous || own.reason == reason)
  {
    FindInPlace(items, q);
    IdAmongOptions(items, o, items[q].questionId);
    assert items[o].id != items[q].id;
  }

  /** A run that loses one: the same reason typed for the Option and for its question, then another for the question. */
  lemma OwnReasonIsLost(items: seq<Item>, q: nat, o: nat, typed: string, reason: string)
    requires WellFormed(items) && q < |items| && o < |items|
    requires !IsOption(items[q]) && OptionOf(items[o], items[q].questionId)
    requires typed != "" && reason != typed
    ensures var edits := [SetReason(items[o].id, typed), SetReason(items[q].id, typed), SetReason(items[q].id, reason)];
            DraftOf(After(items, map[], edits), items[o].id).reason == reason
  {
    hide WellFormed, IsOption, OptionOf, Find, WithReason;
    var e1, e2, e3 := SetReason(items[o].id, typed), SetReason(items[q].id, typed), SetReason(items[q].id, reason);
    assert [e1, e2, e3][..2] == [e1, e2] && [e1, e2][..1] == [e1] && [e1][..0] == [];
    var d1 := Apply(items, map[], e1);
    var d2 := Apply(items, d1, e2);
    var d3 := Apply(items, d2, e3);
    assert After(items, map[], [e1]) == d1;
    assert After(items, map[], [e1, e2]) == d2;
    EditSetsItsItem(items, map[], e1);
    EditSetsItsItem(items, d1, e2);
    OwnReasonIsKeptIff(items, d1, q, o, typed);
    CarriedReason(items, d2, q, o, reason);
    CarriedReason(items, d1, q, o, typed);
  }

  /** What an Option's reason becomes when its question's is set. */
  lemma CarriedReason(items: seq<Item>, drafts: Drafts, q: nat, o: nat, reason: string)
    requires WellFormed(items) && q < |items| && o < |items|
    requires !IsOption(items[q]) && OptionOf(items[o], items[q].questionId)
    ensures var own, previous := DraftOf(drafts, items[o].id).reason, DraftOf(drafts, items[q].id).reason;
            DraftOf(WithReason(items, drafts, items[q].id, reason), items[o].id).reason
            == if own == "" || own == previous then reason else own
  {
    FindInPlace(items, q);
    IdAmongOptions(items, o, items[q].questionId);
    assert items[o].id != items[q].id;
  }

  // ---------------------------------------------------------------- the answer

  datatype Problem = NoVerdict(itemId: string) | NoReason(itemId: string) | TooLong(itemId: string)

  function ProblemOf(item: Item, draft: Draft): Option<Problem> {
    if draft.verdict.None? then Some(NoVerdict(item.id))
    else if draft.verdict.value == Approved then None
    else if Text.Trim(draft.reason) == "" then Some(NoReason(item.id))
    else if Text.UnitCount(Text.Trim(draft.reason)) > RESOLUTION_REASON_MAX_LENGTH then Some(TooLong(item.id))
    else None
  }

  ghost predicate FirstProblem(items: seq<Item>, drafts: Drafts, k: nat, problem: Option<Problem>) {
    && k < |items|
    && ProblemOf(items[k], DraftOf(drafts, items[k].id)) == problem
    && forall i :: 0 <= i < k ==> ProblemOf(items[i], DraftOf(drafts, items[i].id)).None?
  }

  /** What still keeps the answer from being sent: the earliest item with something wrong. */
  method AnswerProblem(items: seq<Item>, drafts: Drafts) returns (problem: Option<Problem>)
    ensures problem.None? <==> forall k :: 0 <= k < |items| ==> ProblemOf(items[k], DraftOf(drafts, items[k].id)).None?
    ensures problem.Some? ==> exists k :: FirstProblem(items, drafts, k, problem)
  {
    hide Text.Trim;
    for n := 0 to |items|
      invariant forall k :: 0 <= k < n ==> ProblemOf(items[k], DraftOf(drafts, items[k].id)).None?
    {
      var item := items[n];
      var draft := DraftOf(drafts, item.id);
      if draft.verdict.None? {
        assert FirstProblem(items, drafts, n, Some(NoVerdict(item.id)));
        return Some(NoVerdict(item.id));
      }
      if draft.verdict.value == Refused {
        var reason := Text.Trim(draft.reason);
        if |reason| == 0 {
          assert FirstProblem(items, drafts, n, Some(NoReason(item.id)));
          return Some(NoReason(item.id));
        }
        if Text.UnitCount(reason) > RESOLUTION_REASON_MAX_LENGTH {
          assert FirstProblem(items, drafts, n, Some(TooLong(item.id)));
          return Some(TooLong(item.id));
        }
      }
    }
    return None;
  }

  /** Which problem an item has: undecided, refused without a word of reason, or with one past 500 code units. */
  lemma ProblemMeans(item: Item, draft: Draft)
    ensures ProblemOf(item, draft) == Some(NoVerdict(item.id)) <==> draft.verdict == None
    ensures ProblemOf(item, draft) == Some(NoReason(item.id))
       <==> draft.verdict == Some(Refused) && Text.AllSpaces(draft.reason)
    ensures ProblemOf(item, draft) == Some(TooLong(item.id))
       <==> draft.verdict == Some(Refused) && !Text.AllSpaces(draft.reason)
            && Text.UnitCount(Text.Trim(draft.reason)) > 500
    ensures ProblemOf(item, draft) == None
       <==> draft.verdict == Some(Approved)
            || (draft.verdict == Some(Refused) && !Text.AllSpaces(draft.reason)
                && Text.UnitCount(Text.Trim(draft.reason)) <= 500)
  {
    hide Text.Trim, Text.UnitCount, Text.AllSpaces;
    Text.BlankMeans(draft.reason);
    assert Text.UnitCount("") == 0 by { NoUnits(); }
  }

  lemma NoUnits()
    ensures Text.UnitCount("") == 0
  {
  }

  datatype Line = Line(itemId: string, verdict: Verdict, reason: Option<string>)

  function LineOf(item: Item, draft: Draft): Line {
    var verdict := draft.verdict.GetOr(Approved);
    Line(item.id, verdict, if verdict == Refused then Some(Text.Trim(draft.reason)) else None)
  }

  function AnswerBody(items: seq<Item>, drafts: Drafts): (lines: seq<Line>)
    ensures |lines| == |items|
    ensures forall k :: 0 <= k < |items| ==> lines[k] == LineOf(items[k], DraftOf(drafts, items[k].id))
  {
    if items == [] then [] else [LineOf(items[0], DraftOf(drafts, items[0].id))] + AnswerBody(items[1..], drafts)
  }

  /** A verdict the Operator gave, a refusal with a reason that is not blank and within the bound. */
  ghost predicate WholeLine(line: Line, item: Item, draft: Draft) {
    && line.itemId == item.id
    && draft.verdict == Some(line.verdict)
    && (line.verdict == Approved <==> line.reason.None?)
    && (line.verdict == Refused ==> line.reason == Some(Text.Trim(draft.reason)))
    && (line.reason.Some? ==> line.reason.value != "" && Text.Trimmed(line.reason.value)
                              && Text.UnitCount(line.reason.value) <= RESOLUTION_REASON_MAX_LENGTH)
  }

  /** Nothing is wrong exactly when every line sent says what the Operator decided. */
  lemma NoProblemIffWholeAnswer(items: seq<Item>, drafts: Drafts)
    ensures (forall k :: 0 <= k < |items| ==> ProblemOf(items[k], DraftOf(drafts, items[k].id)).None?)
       <==> (forall k :: 0 <= k < |items| ==>
               WholeLine(AnswerBody(items, drafts)[k], items[k], DraftOf(drafts, items[k].id)))
  {
    hide Text.Trim, AnswerBody;
    forall k | 0 <= k < |items|
      ensures ProblemOf(items[k], DraftOf(drafts, items[k].id)).None?
         <==> WholeLine(AnswerBody(items, drafts)[k], items[k], DraftOf(drafts, items[k].id))
    {
      Text.TrimIsTrimmed(DraftOf(drafts, items[k].id).reason);
    }
  }

  // ---------------------------------------------------------------- reading order

  /** A question's Options, in the order of the list. */
  function OptionsOf(items: seq<Item>, questionId: string): seq<Item> {
    Sorting.Filter(items, (item: Item) => OptionOf(item, questionId))
  }

  function Questions(items: seq<Item>): seq<Item> {
    Sorting.Filter(items, (item: Item) => !IsOption(item))
  }

  /** Options whose question is not in the Review. */
  function Orphans(items: seq<Item>): seq<Item> {
    Sorting.Filter(items, (item: Item) => IsOption(item) && !HasQuestion(items, item.questionId))
  }

  predicate HasQuestion(items: seq<Item>, questionId: string) {
    exists k :: 0 <= k < |items| && !IsOption(items[k]) && items[k].questionId == questionId
  }

  /** Each question, its Options directly beneath it. */
  function Groups(items: seq<Item>, questions: seq<Item>): seq<Item> {
    if questions == [] then []
    else Groups(items, questions[..|questions| - 1]) + [questions[|questions| - 1]]
         + OptionsOf(items, questions[|questions| - 1].questionId)
  }

  /** The order the Operator reads: the groups, then every orphan. */
  function GroupedItems(items: seq<Item>): seq<Item> {
    Groups(items, Questions(items)) + Orphans(items)
  }

  /** What has been put out, and the ids placed. */
  datatype Placement = Placement(out: seq<Item>, placed: set<string>)

  /** The first pass over the first `n` items. */
  function Place(items: seq<Item>, n: nat): Placement
    requires n <= |items|
  {
    if n == 0 then Placement([], {})
    else
      var before, item := Place(items, n - 1), items[n - 1];
      if IsOption(item) || item.id in before.placed then before
      else
        var options := OptionsOf(items, item.questionId);
        Placement(before.out + [item] + options, before.placed + {item.id} + Ids(options))
  }

  function NestedItems(items: seq<Item>): seq<Item> {
    var first := Place(items, |items|);
    first.out + Sorting.Filter(items, (item: Item) => item.id !in first.placed)
  }

  function Ids(items: seq<Item>): set<string> {
    set k | 0 <= k < |items| :: items[k].id
  }

  /** The inner loop: one question's Options, placed. */
  method PlaceOptions(items: seq<Item>, questionId: string, placed: set<string>)
    returns (options: seq<Item>, now: set<string>)
    ensures options == OptionsOf(items, questionId)
    ensures now == placed + Ids(options)
  {
    options, now := [], placed;
    for n := 0 to |items|
      invariant options == OptionsOf(items[..n], questionId)
      invariant now == placed + Ids(options)
    {
      Sorting.FilterSnoc(items[..n], items[n], (item: Item) => OptionOf(item, questionId));
      assert items[..n + 1] == items[..n] + [items[n]];
      if OptionOf(items[n], questionId) {
        IdsSnoc(options, items[n]);
        options, now := options + [items[n]], now + {items[n].id};
      }
    }
    assert items[..|items|] == items;
  }

  lemma IdsSnoc(items: seq<Item>, item: Item)
    ensures Ids(items + [item]) == Ids(items) + {item.id}
  {
    var more := items + [item];
    forall id ensures id in Ids(more) <==> id in Ids(items) || id == item.id {
      if id in Ids(items) {
        var k :| 0 <= k < |items| && items[k].id == id;
        assert more[k].id == id;
      }
      if id == item.id { assert more[|items|].id == id; }
    }
  }

  lemma IdsAppend(s: seq<Item>, t: seq<Item>)
    ensures Ids(s + t) == Ids(s) + Ids(t)
  {
    var both := s + t;
    forall id ensures id in Ids(both) <==> id in Ids(s) || id in Ids(t) {
      if id in Ids(s) {
        var k :| 0 <= k < |s| && s[k].id == id;
        assert both[k].id == id;
      }
      if id in Ids(t) {
        var k :| 0 <= k < |t| && t[k].id == id;
        assert both[|s| + k].id == id;
      }
    }
  }

  /** Among the listed items an id is placed when its question has been, or it is an Option of one that has. */
  lemma {:induction false} PlacedIds(items: seq<Item>, questions: seq<Item>, item: Item)
    requires WellFormed(items) && item in items && forall q | q in questions :: q in items && !IsOption(q)
    ensures item.id in Ids(Groups(items, questions))
       <==> if IsOption(item) then exists q :: q in questions && q.questionId == item.questionId else item in questions
    decreases |questions|
  {
    if questions != [] {
      var init, q := questions[..|questions| - 1], questions[|questions| - 1];
      PlacedIds(items, init, item);
      var options := OptionsOf(items, q.questionId);
      IdsAppend(Groups(items, init) + [q], options);
      IdsSnoc(Groups(items, init), q);
      assert questions == init + [q];
      OptionIdIn(items, q.questionId, item);
      SameIdSameItem(items, q, item);
    }
  }

  lemma SameIdSameItem(items: seq<Item>, a: Item, b: Item)
    requires WellFormed(items) && a in items && b in items
    ensures a.id == b.id ==> a == b
    ensures !IsOption(a) && !IsOption(b) && a.questionId == b.questionId ==> a == b
  {
  }

  lemma OptionIdIn(items: seq<Item>, questionId: string, item: Item)
    requires WellFormed(items) && item in items
    ensures item.id in Ids(OptionsOf(items, questionId)) <==> OptionOf(item, questionId)
  {
    var options := OptionsOf(items, questionId);
    if item.id in Ids(options) {
      var k :| 0 <= k < |options| && options[k].id == item.id;
      assert options[k] in options;
      SameIdSameItem(items, options[k], item);
    }
    if OptionOf(item, questionId) {
      assert item in options;
      var k :| 0 <= k < |options| && options[k] == item;
    }
  }

  /** `nestedItems`: two passes over the list with a set of what has been placed. */
  method ComputeNestedItems(items: seq<Item>) returns (out: seq<Item>)
    ensures out == NestedItems(items)
  {
    hide OptionsOf, Ids;
    out := [];
    var placed: set<string> := {};
    for n := 0 to |items|
      invariant Placement(out, placed) == Place(items, n)
    {
      var item := items[n];
      if IsOption(item) || item.id in placed {
        continue;
      }
      out, placed := out + [item], placed + {item.id};
      var options;
      options, placed := PlaceOptions(items, item.questionId, placed);
      out := out + options;
    }
    out := PlaceRest(items, placed, out);
  }

  /** The second pass: what has not been placed, in the order of the list. */
  method PlaceRest(items: seq<Item>, placed: set<string>, first: seq<Item>) returns (out: seq<Item>)
    ensures out == first + Sorting.Filter(items, (item: Item) => item.id !in placed)
  {
    hide Sorting.Filter;
    ghost var isLeft := (item: Item) => item.id !in placed;
    out := first;
    Sorting.FilterEmpty(isLeft);
    assert items[..0] == [] && first + [] == first;
    for n := 0 to |items|
      invariant out == first + Sorting.Filter(items[..n], isLeft)
    {
      var item := items[n];
      Sorting.FilterSnoc(items[..n], item, isLeft);
      assert items[..n + 1] == items[..n] + [item];
      if item.id !in placed {
        Associative(first, Sorting.Filter(items[..n], isLeft), [item]);
        out := out + [item];
      } else {
        assert Sorting.Filter(items[..n], isLeft) + [] == Sorting.Filter(items[..n], isLeft);
      }
    }
    assert items[..|items|] == items;
  }

  lemma QuestionNotYetPlaced(items: seq<Item>, n: nat)
    requires WellFormed(items) && n < |items| && !IsOption(items[n])
    ensures items[n].id !in Ids(Groups(items, Questions(items[..n])))
  {
    var questions := Questions(items[..n]);
    forall q | q in questions ensures q in items && !IsOption(q) && q != items[n] {
      var k :| 0 <= k < n && items[..n][k] == q;
      assert items[k].id != items[n].id;
    }
    PlacedIds(items, questions, items[n]);
  }

  lemma LeftOverIsOrphan(items: seq<Item>, item: Item)
    requires WellFormed(items) && item in items
    ensures item.id !in Ids(Groups(items, Questions(items))) <==> IsOption(item) && !HasQuestion(items, item.questionId)
  {
    PlacedIds(items, Questions(items), item);
    if HasQuestion(items, item.questionId) {
      var k :| 0 <= k < |items| && !IsOption(items[k]) && items[k].questionId == item.questionId;
      assert items[k] in Questions(items);
    }
  }

  lemma {:induction false} PlaceIsGroups(items: seq<Item>, n: nat)
    requires WellFormed(items) && n <= |items|
    ensures Place(items, n).out == Groups(items, Questions(items[..n]))
    ensures Place(items, n).placed == Ids(Place(items, n).out)
  {
    hide OptionsOf, Ids, WellFormed, Groups, Questions, IsOption;
    if n == 0 {
      NoIds();
      NoGroups(items);
      NoQuestions(items[..0]);
    } else {
      PlaceIsGroups(items, n - 1);
      var item := items[n - 1];
      assert items[..n] == items[..n - 1] + [item];
      QuestionsStep(items[..n - 1], item);
      if !IsOption(item) {
        QuestionNotYetPlaced(items, n - 1);
        var before := Place(items, n - 1).out;
        IdsSnoc(before, item);
        IdsAppend(before + [item], OptionsOf(items, item.questionId));
        GroupsStep(items, Questions(items[..n - 1]), item);
      }
    }
  }

  lemma NoQuestions(items: seq<Item>)
    requires items == []
    ensures Questions(items) == []
  {
  }

  lemma QuestionsStep(items: seq<Item>, item: Item)
    ensures Questions(items + [item]) == if IsOption(item) then Questions(items) else Questions(items) + [item]
  {
    Sorting.FilterSnoc(items, item, (item: Item) => !IsOption(item));
    assert Questions(items) + [] == Questions(items);
  }

  lemma GroupsStep(items: seq<Item>, init: seq<Item>, q: Item)
    ensures Groups(items, init + [q]) == Groups(items, init) + [q] + OptionsOf(items, q.questionId)
  {
    var questions := init + [q];
    assert questions[..|questions| - 1] == init && questions[|questions| - 1] == q;
  }

  lemma NoIds()
    ensures Ids([]) == {}
  {
  }

  /**
   * Each question is followed at once by all its Options in the order of the
   * list, questions keep their order, and orphan Options come last in theirs.
   */
  lemma NestedIsGrouped(items: seq<Item>)
    requires WellFormed(items)
    ensures NestedItems(items) == GroupedItems(items)
  {
    PlaceIsGroups(items, |items|);
    assert items[..|items|] == items;
    var first := Place(items, |items|);
    forall item | item in items
      ensures item.id !in first.placed <==> IsOption(item) && !HasQuestion(items, item.questionId)
    {
      LeftOverIsOrphan(items, item);
    }
    Sorting.FilterCongruent(items, (item: Item) => item.id !in first.placed,
                    (item: Item) => IsOption(item) && !HasQuestion(items, item.questionId));
  }

  // ---------------------------------------------------------------- nothing lost, nothing to redo

  lemma OptionsCount(items: seq<Item>, questionId: string, x: Item)
    ensures multiset(OptionsOf(items, questionId))[x]
         == if IsOption(x) && x.questionId == questionId then multiset(items)[x] else 0
  {
    Sorting.FilterMultiset(items, (item: Item) => OptionOf(item, questionId), x);
  }

  lemma {:induction false} GroupsCount(items: seq<Item>, questions: seq<Item>, x: Item)
    requires forall q | q in questions :: !IsOption(q)
    requires forall i, j :: 0 <= i < j < |questions| ==> questions[i].questionId != questions[j].questionId
    ensures multiset(Groups(items, questions))[x]
         == if IsOption(x) then
              if exists q :: q in questions && q.questionId == x.questionId then multiset(items)[x] else 0
            else multiset(questions)[x]
    decreases |questions|
  {
    hide Groups, IsOption;
    if questions == [] {
      NoGroups(items);
    } else {
      var init, q := questions[..|questions| - 1], questions[|questions| - 1];
      assert questions == init + [q];
      GroupsCount(items, init, x);
      GroupsCountStep(items, init, q, x);
      assert (exists p :: p in questions && p.questionId == x.questionId)
        <==> (exists p :: p in init && p.questionId == x.questionId) || q.questionId == x.questionId
          by { AskedByOneMore(init, q, x.questionId); }
      assert q in questions;
    }
  }

  lemma NoGroups(items: seq<Item>)
    ensures Groups(items, []) == []
  {
  }

  lemma AskedByOneMore(init: seq<Item>, q: Item, questionId: string)
    ensures (exists p :: p in init + [q] && p.questionId == questionId)
       <==> (exists p :: p in init && p.questionId == questionId) || q.questionId == questionId
  {
    assert q in init + [q];
  }

  /** One question and its Options more. */
  lemma GroupsCountStep(items: seq<Item>, init: seq<Item>, q: Item, x: Item)
    requires forall p | p in init + [q] :: !IsOption(p)
    requires forall i, j :: 0 <= i < j < |init + [q]| ==> (init + [q])[i].questionId != (init + [q])[j].questionId
    ensures multiset(Groups(items, init + [q]))[x]
         == multiset(Groups(items, init))[x] + (if x == q then 1 else 0)
            + if IsOption(x) && x.questionId == q.questionId then multiset(items)[x] else 0
    ensures IsOption(x) && x.questionId == q.questionId ==> !exists p :: p in init && p.questionId == x.questionId
  {
    hide OptionsOf, OptionOf, IsOption;
    var questions := init + [q];
    assert questions[..|questions| - 1] == init && questions[|questions| - 1] == q;
    OptionsCount(items, q.questionId, x);
    forall p | p in init ensures p.questionId != q.questionId {
      var k :| 0 <= k < |init| && init[k] == p;
      assert questions[k] == p && questions[|questions| - 1] == q;
    }
  }

  lemma {:induction false} QuestionsDistinct(items: seq<Item>)
    requires WellFormed(items)
    ensures var questions := Questions(items);
            forall i, j :: 0 <= i < j < |questions| ==> questions[i].questionId != questions[j].questionId
  {
    if items != [] {
      var rest := items[1..];
      QuestionsDistinct(rest);
      forall q | q in Questions(rest) ensures !IsOption(items[0]) ==> q.questionId != items[0].questionId {
        var k :| 0 <= k < |rest| && rest[k] == q;
        assert items[k + 1] == q;
      }
    }
  }

  /** The nested list is a rearrangement of the items. */
  lemma NestedIsPermutation(items: seq<Item>)
    requires WellFormed(items)
    ensures multiset(NestedItems(items)) == multiset(items)
  {
    NestedIsGrouped(items);
    QuestionsDistinct(items);
    forall x ensures multiset(GroupedItems(items))[x] == multiset(items)[x] {
      GroupsCount(items, Questions(items), x);
      Sorting.FilterMultiset(items, (item: Item) => !IsOption(item), x);
      Sorting.FilterMultiset(items, (item: Item) => IsOption(item) && !HasQuestion(items, item.questionId), x);
      QuestionAmong(items, x.questionId);
    }
  }

  lemma QuestionAmong(items: seq<Item>, questionId: string)
    ensures HasQuestion(items, questionId) <==> exists q :: q in Questions(items) && q.questionId == questionId
  {
    if HasQuestion(items, questionId) {
      var k :| 0 <= k < |items| && !IsOption(items[k]) && items[k].questionId == questionId;
      assert items[k] in Questions(items);
    }
    if exists q :: q in Questions(items) && q.questionId == questionId {
      var q :| q in Questions(items) && q.questionId == questionId;
      var k :| 0 <= k < |items| && items[k] == q;
    }
  }

  lemma Multiplicity(items: seq<Item>, i: nat, j: nat)
    requires i < j < |items| && items[i] == items[j]
    ensures multiset(items)[items[i]] >= 2
  {
    var l, r := items[..j], items[j..];
    assert items == l + r && l[i] == items[i] && r[0] == items[i];
    assert items[i] in multiset(l) && items[i] in multiset(r);
  }

  lemma {:induction false} MultiplicityOne(items: seq<Item>, x: Item)
    requires WellFormed(items)
    ensures multiset(items)[x] <= 1
  {
    if items != [] {
      assert items == [items[0]] + items[1..];
      MultiplicityOne(items[1..], x);
      forall k | 0 <= k < |items[1..]| ensures items[1..][k] != items[0] {
        assert items[k + 1].id != items[0].id;
      }
    }
  }

  lemma WellFormedPermuted(items: seq<Item>, other: seq<Item>)
    requires WellFormed(items) && multiset(other) == multiset(items)
    ensures WellFormed(other)
  {
    forall i, j | 0 <= i < j < |other|
      ensures other[i].id != other[j].id
      ensures !IsOption(other[i]) && !IsOption(other[j]) ==> other[i].questionId != other[j].questionId
    {
      Sorting.InMultiset(other[i], other, items);
      Sorting.InMultiset(other[j], other, items);
      SameIdSameItem(items, other[i], other[j]);
      if other[i] == other[j] {
        Multiplicity(other, i, j);
        MultiplicityOne(items, other[i]);
      }
    }
  }

  lemma {:induction false} QuestionsOfGroups(items: seq<Item>, questions: seq<Item>)
    requires forall q | q in questions :: !IsOption(q)
    ensures Questions(Groups(items, questions)) == questions
    decreases |questions|
  {
    if questions != [] {
      var init, q := questions[..|questions| - 1], questions[|questions| - 1];
      var isQuestion := (item: Item) => !IsOption(item);
      assert questions == init + [q];
      QuestionsOfGroups(items, init);
      Sorting.FilterAppend(Groups(items, init) + [q], OptionsOf(items, q.questionId), isQuestion);
      Sorting.FilterSnoc(Groups(items, init), q, isQuestion);
      Sorting.FilterNone(OptionsOf(items, q.questionId), isQuestion);
    }
  }

  /** One question and its Options more. */
  lemma OptionsOfGroupsStep(items: seq<Item>, init: seq<Item>, q: Item, questionId: string)
    requires !IsOption(q)
    ensures OptionsOf(Groups(items, init + [q]), questionId)
         == OptionsOf(Groups(items, init), questionId)
            + if q.questionId == questionId then OptionsOf(items, questionId) else []
  {
    var p := (item: Item) => OptionOf(item, questionId);
    var questions, before := init + [q], Groups(items, init);
    assert questions[..|questions| - 1] == init && questions[|questions| - 1] == q;
    Sorting.FilterAppend(before + [q], OptionsOf(items, q.questionId), p);
    Sorting.FilterSnoc(before, q, p);
    assert OptionsOf(before, questionId) + [] == OptionsOf(before, questionId);
    if q.questionId == questionId {
      Sorting.FilterAll(OptionsOf(items, questionId), p);
    } else {
      Sorting.FilterNone(OptionsOf(items, q.questionId), p);
    }
  }

  /** An Option's question is not grouped twice, so neither are its Options. */
  lemma {:induction false} OptionsOfGroups(items: seq<Item>, questions: seq<Item>, questionId: string)
    requires forall q | q in questions :: !IsOption(q)
    requires forall i, j :: 0 <= i < j < |questions| ==> questions[i].questionId != questions[j].questionId
    ensures OptionsOf(Groups(items, questions), questionId)
         == if exists q :: q in questions && q.questionId == questionId then OptionsOf(items, questionId) else []
    decreases |questions|
  {
    hide Groups, OptionsOf, IsOption;
    if questions == [] {
      NoGroups(items);
      NoOptions(questionId);
    } else {
      var init, q := questions[..|questions| - 1], questions[|questions| - 1];
      assert questions == init + [q];
      OptionsOfGroups(items, init, questionId);
      OptionsOfGroupsStep(items, init, q, questionId);
      AskedByOneMore(init, q, questionId);
      forall r | r in init ensures r.questionId != q.questionId {
        var k :| 0 <= k < |init| && init[k] == r;
        assert questions[k] == r && questions[|questions| - 1] == q;
      }
    }
  }

  lemma NoOptions(questionId: string)
    ensures OptionsOf([], questionId) == []
  {
  }

  lemma {:induction false} GroupsCongruent(items: seq<Item>, other: seq<Item>, questions: seq<Item>)
    requires forall q | q in questions :: OptionsOf(items, q.questionId) == OptionsOf(other, q.questionId)
    ensures Groups(items, questions) == Groups(other, questions)
    decreases |questions|
  {
    if questions != [] { GroupsCongruent(items, other, questions[..|questions| - 1]); }
  }

  /** Everything in the groups is a question or has its question in the Review. */
  lemma {:induction false} GroupsHaveQuestions(items: seq<Item>, questions: seq<Item>, item: Item)
    requires forall q | q in questions :: q in Questions(items)
    requires item in Groups(items, questions) && IsOption(item)
    ensures HasQuestion(items, item.questionId)
    decreases |questions|
  {
    var init, q := questions[..|questions| - 1], questions[|questions| - 1];
    if item in Groups(items, init) {
      GroupsHaveQuestions(items, init, item);
    } else {
      assert q in Questions(items) && item != q;
      assert item in OptionsOf(items, q.questionId);
      QuestionAmong(items, q.questionId);
    }
  }

  lemma SameQuestionsNested(items: seq<Item>)
    requires WellFormed(items)
    ensures Questions(GroupedItems(items)) == Questions(items)
    ensures forall id :: HasQuestion(GroupedItems(items), id) <==> HasQuestion(items, id)
  {
    var isQuestion := (item: Item) => !IsOption(item);
    QuestionsOfGroups(items, Questions(items));
    Sorting.FilterNone(Orphans(items), isQuestion);
    Sorting.FilterAppend(Groups(items, Questions(items)), Orphans(items), isQuestion);
    forall id ensures HasQuestion(GroupedItems(items), id) <==> HasQuestion(items, id) {
      QuestionAmong(items, id);
      QuestionAmong(GroupedItems(items), id);
    }
  }

  lemma SameOptionsNested(items: seq<Item>, q: Item)
    requires WellFormed(items) && q in Questions(items)
    ensures OptionsOf(GroupedItems(items), q.questionId) == OptionsOf(items, q.questionId)
  {
    var p := (item: Item) => OptionOf(item, q.questionId);
    QuestionsDistinct(items);
    OptionsOfGroups(items, Questions(items), q.questionId);
    QuestionAmong(items, q.questionId);
    Sorting.FilterNone(Orphans(items), p);
    Sorting.FilterAppend(Groups(items, Questions(items)), Orphans(items), p);
  }

  lemma SameOrphansNested(items: seq<Item>)
    requires WellFormed(items)
    ensures Orphans(GroupedItems(items)) == Orphans(items)
  {
    var nested := GroupedItems(items);
    SameQuestionsNested(items);
    var p := (item: Item) => IsOption(item) && !HasQuestion(nested, item.questionId);
    forall item | item in Groups(items, Questions(items)) ensures !p(item) {
      if IsOption(item) { GroupsHaveQuestions(items, Questions(items), item); }
    }
    Sorting.FilterNone(Groups(items, Questions(items)), p);
    Sorting.FilterAll(Orphans(items), p);
    Sorting.FilterAppend(Groups(items, Questions(items)), Orphans(items), p);
  }

  /** Nesting a nested list changes nothing. */
  lemma NestingIsIdempotent(items: seq<Item>)
    requires WellFormed(items)
    ensures NestedItems(NestedItems(items)) == NestedItems(items)
  {
    hide WellFormed, NestedItems, Groups, OptionsOf, Questions, Orphans;
    var nested := NestedItems(items);
    NestedIsGrouped(items);
    NestedIsPermutation(items);
    WellFormedPermuted(items, nested);
    NestedIsGrouped(nested);
    SameQuestionsNested(items);
    SameOrphansNested(items);
    forall q | q in Questions(items) ensures OptionsOf(nested, q.questionId) == OptionsOf(items, q.questionId) {
      SameOptionsNested(items, q);
    }
    GroupsCongruent(nested, items, Questions(items));
  }

  // ---------------------------------------------------------------- where orphans stand

  predicate IsOrphan(items: seq<Item>, item: Item) {
    IsOption(item) && !HasQuestion(items, item.questionId)
  }

  /** The items that stand on their own: questions, and Options without one. */
  function Heads(items: seq<Item>, list: seq<Item>): seq<Item> {
    Sorting.Filter(list, (item: Item) => !IsOption(item) || IsOrphan(items, item))
  }

  /** An orphan is listed before a question. */
  ghost predicate OrphanBeforeQuestion(items: seq<Item>) {
    exists i, j :: 0 <= i < j < |items| && IsOrphan(items, items[i]) && !IsOption(items[j])
  }

  /**
   * Each orphan keeps the place the list gave it among the questions exactly
   * when no orphan is listed before a question.
   */
  lemma OrphansStayIff(items: seq<Item>)
    requires WellFormed(items)
    ensures Heads(items, NestedItems(items)) == Heads(items, items) <==> !OrphanBeforeQuestion(items)
  {
    hide NestedItems, WellFormed, IsOption, HasQuestion, Groups;
    NestedIsGrouped(items);
    HeadsOfNested(items);
    var p, q := (item: Item) => !IsOption(item), (item: Item) => IsOrphan(items, item);
    var either := (item: Item) => !IsOption(item) || IsOrphan(items, item);
    assert Questions(items) == Sorting.Filter(items, p);
    SameOrphans(items);
    forall item ensures either(item) <==> p(item) || q(item) {}
    forall item ensures !(p(item) && q(item)) {}
    Sorting.FilterSplitsIff(items, p, q, either);
  }

  lemma SameOrphans(items: seq<Item>)
    ensures Orphans(items) == Sorting.Filter(items, (item: Item) => IsOrphan(items, item))
  {
    hide IsOption, HasQuestion;
    Sorting.FilterCongruent(items, (item: Item) => IsOption(item) && !HasQuestion(items, item.questionId),
                            (item: Item) => IsOrphan(items, item));
  }

  /** In the nested list the questions come first, then the orphans. */
  lemma HeadsOfNested(items: seq<Item>)
    requires WellFormed(items)
    ensures Heads(items, GroupedItems(items)) == Questions(items) + Orphans(items)
  {
    hide HasQuestion, Groups;
    var either := (item: Item) => !IsOption(item) || IsOrphan(items, item);
    Sorting.FilterAppend(Groups(items, Questions(items)), Orphans(items), either);
    Sorting.FilterAll(Orphans(items), either);
    forall item | item in Groups(items, Questions(items)) ensures either(item) == !IsOption(item) {
      if IsOption(item) { GroupsHaveQuestions(items, Questions(items), item); }
    }
    Sorting.FilterCongruent(Groups(items, Questions(items)), either, (item: Item) => !IsOption(item));
    QuestionsOfGroups(items, Questions(items));
  }

  /** An orphan listed before a question is moved behind it. */
  lemma OrphanIsMoved(orphan: Item, question: Item)
    requires IsOption(orphan) && !IsOption(question)
    requires orphan.questionId != question.questionId && orphan.id != question.id
    ensures NestedItems([orphan, question]) == [question, orphan]
  {
    var items := [orphan, question];
    NestedIsGrouped(items);
    PairIsGrouped(orphan, question, items);
    hide *;
    OneGroup(items, question);
    assert [question] + [] + [orphan] == [question, orphan];
  }

  lemma PairIsGrouped(orphan: Item, question: Item, items: seq<Item>)
    requires IsOption(orphan) && !IsOption(question) && orphan.questionId != question.questionId
    requires items == [orphan, question]
    ensures Questions(items) == [question] && OptionsOf(items, question.questionId) == [] && Orphans(items) == [orphan]
  {
    hide Sorting.Filter;
    Sorting.FilterPair(orphan, question, (item: Item) => !IsOption(item));
    Sorting.FilterPair(orphan, question, (item: Item) => OptionOf(item, question.questionId));
    Sorting.FilterPair(orphan, question, (item: Item) => IsOption(item) && !HasQuestion(items, item.questionId));
  }

  lemma OneGroup(items: seq<Item>, question: Item)
    ensures Groups(items, [question]) == [question] + OptionsOf(items, question.questionId)
  {
    assert [question][..0] == [] && Groups(items, []) == [];
    assert [] + [question] == [question];
  }

  // ---------------------------------------------------------------- where Options stand

  /** The question stands at this place, and all its Options right behind it, in the order of the list. */
  ghost predicate StandsAt(items: seq<Item>, nested: seq<Item>, q: Item, k: nat) {
    var options := OptionsOf(items, q.questionId);
    k + 1 + |options| <= |nested| && nested[k] == q && nested[k + 1..k + 1 + |options|] == options
  }

  lemma StandsAfter(items: seq<Item>, before: seq<Item>, q: Item, rest: seq<Item>)
    ensures StandsAt(items, before + [q] + OptionsOf(items, q.questionId) + rest, q, |before|)
  {
    var options := OptionsOf(items, q.questionId);
    var nested := before + [q] + options + rest;
    assert nested[|before|] == q;
    assert nested[|before| + 1..|before| + 1 + |options|] == options;
  }

  lemma StandsInLonger(items: seq<Item>, nested: seq<Item>, q: Item, k: nat, rest: seq<Item>)
    requires StandsAt(items, nested, q, k)
    ensures StandsAt(items, nested + rest, q, k)
  {
    var options := OptionsOf(items, q.questionId);
    assert (nested + rest)[k + 1..k + 1 + |options|] == nested[k + 1..k + 1 + |options|];
  }

  lemma {:induction false} StandsInGroups(items: seq<Item>, questions: seq<Item>, q: Item) returns (k: nat)
    requires q in questions
    ensures StandsAt(items, Groups(items, questions), q, k)
    decreases |questions|
  {
    hide StandsAt, Groups, OptionsOf;
    var init, last := questions[..|questions| - 1], questions[|questions| - 1];
    assert questions == init + [last];
    GroupsStep(items, init, last);
    var group := [last] + OptionsOf(items, last.questionId);
    if q == last {
      k := |Groups(items, init)|;
      StandsAfter(items, Groups(items, init), q, []);
      assert Groups(items, questions) + [] == Groups(items, questions);
    } else {
      k := StandsInGroups(items, init, q);
      StandsInLonger(items, Groups(items, init), q, k, group);
      Associative(Groups(items, init), [last], OptionsOf(items, last.questionId));
    }
  }

  /** Each question has all its Options right behind it, and the questions keep their order. */
  lemma OptionsStandBehindTheirQuestion(items: seq<Item>, q: Item) returns (k: nat)
    requires WellFormed(items) && q in items && !IsOption(q)
    ensures StandsAt(items, NestedItems(items), q, k)
    ensures Questions(NestedItems(items)) == Questions(items)
  {
    hide StandsAt, Groups, NestedItems, OptionsOf, WellFormed;
    NestedIsGrouped(items);
    SameQuestionsNested(items);
    assert q in Questions(items);
    k := StandsInGroups(items, Questions(items), q);
    StandsInLonger(items, Groups(items, Questions(items)), q, k, Orphans(items));
  }
}
