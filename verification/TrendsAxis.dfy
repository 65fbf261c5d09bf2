/**
 * The Y axis of the counting views (apps/staff/lib/affiliate-trends.ts): a
 * readable top for the tallest value, and where its labels go.
 */
module TrendsAxis {
  import opened Numbers

  const NICE_STEPS: seq<nat> := [1, 2, 3, 4, 5, 6, 8, 10]
  const Y_DIVISIONS: seq<nat> := [5, 4, 3, 2]

  function Pow10(e: nat): (p: nat)
    ensures p >= 1
  {
    if e == 0 then 1 else 10 * Pow10(e - 1)
  }

  /** `Math.floor(Math.log10(n))` for a whole n of at least 1. */
  function Log10(n: nat): (e: nat)
    requires n >= 1
    ensures Pow10(e) <= n < 10 * Pow10(e)
  {
    if n < 10 then 0 else Log10(n / 10) + 1
  }

  lemma {:induction false} Pow10Monotone(e: nat, f: nat)
    requires e <= f
    ensures Pow10(e) <= Pow10(f)
  {
    if e < f { Pow10Monotone(e, f - 1); }
  }

  lemma SmallerDecade(e: nat, f: nat)
    ensures e < f ==> 10 * Pow10(e) <= Pow10(f)
  {
    if e < f {
      Pow10Monotone(e + 1, f);
      assert Pow10(e + 1) == 10 * Pow10(e);
    }
  }

  /** The decade of a number is the only power of ten it lies in. */
  lemma Log10Unique(n: nat, e: nat)
    requires Pow10(e) <= n < 10 * Pow10(e)
    ensures Log10(n) == e
  {
    var f := Log10(n);
    SmallerDecade(f, e);
    SmallerDecade(e, f);
  }

  // ---------------------------------------------------------------- the top

  /** `multiSeriesYMax`, over the values each datum draws. */
  method MultiSeriesYMax(data: seq<seq<nat>>) returns (top: nat)
    ensures top == TopFor(Tallest(data))
  {
    var tallest := 0;
    for i := 0 to |data|
      invariant tallest == Tallest(data[..i])
    {
      assert data[..i + 1][..i] == data[..i];
      ghost var before := tallest;
      for j := 0 to |data[i]|
        invariant tallest == Max(before, TallestOf(data[i][..j]))
      {
        assert data[i][..j + 1][..j] == data[i][..j];
        if tallest < data[i][j] { tallest := data[i][j]; }
      }
      assert data[i][..|data[i]|] == data[i];
    }
    assert data[..|data|] == data;
    if tallest <= 0 {
      return 1;
    }
    var decade := Pow10(Log10(tallest));
    for k := 0 to |NICE_STEPS|
      invariant FirstRung(tallest, decade, 0) == FirstRung(tallest, decade, k)
    {
      var candidate := NICE_STEPS[k] * decade;
      if tallest <= candidate {
        return candidate;
      }
    }
    return 10 * decade;
  }

  function TallestOf(values: seq<nat>): nat {
    if values == [] then 0 else Max(TallestOf(values[..|values| - 1]), values[|values| - 1])
  }

  function Tallest(data: seq<seq<nat>>): nat {
    if data == [] then 0 else Max(Tallest(data[..|data| - 1]), TallestOf(data[|data| - 1]))
  }

  /** The first rung of the ladder, from the k-th on, that reaches the tallest value. */
  function FirstRung(tallest: nat, decade: nat, k: nat): nat
    requires k <= |NICE_STEPS|
    decreases |NICE_STEPS| - k
  {
    if k == |NICE_STEPS| then 10 * decade
    else if tallest <= NICE_STEPS[k] * decade then NICE_STEPS[k] * decade
    else FirstRung(tallest, decade, k + 1)
  }

  function TopFor(tallest: nat): nat {
    if tallest == 0 then 1 else FirstRung(tallest, Pow10(Log10(tallest)), 0)
  }

  lemma {:induction false} TallestIsTallest(data: seq<seq<nat>>)
    ensures forall i, j :: 0 <= i < |data| && 0 <= j < |data[i]| ==> data[i][j] <= Tallest(data)
    ensures Tallest(data) > 0 ==> exists i, j :: 0 <= i < |data| && 0 <= j < |data[i]| && data[i][j] == Tallest(data)
  {
    if data != [] {
      TallestIsTallest(data[..|data| - 1]);
      TallestOfIsTallest(data[|data| - 1]);
    }
  }

  lemma {:induction false} TallestOfIsTallest(values: seq<nat>)
    ensures forall j :: 0 <= j < |values| ==> values[j] <= TallestOf(values)
    ensures TallestOf(values) > 0 ==> exists j :: 0 <= j < |values| && values[j] == TallestOf(values)
  {
    if values != [] { TallestOfIsTallest(values[..|values| - 1]); }
  }

  /** A readable top: 1, 2, 3, 4, 5, 6, 8 or 10 times a power of ten. */
  ghost predicate IsRung(top: nat) {
    exists k, e: nat :: 0 <= k < |NICE_STEPS| && top == NICE_STEPS[k] * Pow10(e)
  }

  lemma RungAt(k: nat, e: nat, top: nat)
    requires k < |NICE_STEPS| && top == NICE_STEPS[k] * Pow10(e)
    ensures IsRung(top)
  {
  }

  /** The axis holds the tallest value, and the tallest value is above half of it. */
  lemma TopIsTight(tallest: nat)
    requires tallest > 0
    ensures tallest <= TopFor(tallest) < 2 * tallest
    ensures IsRung(TopFor(tallest))
  {
    var e := Log10(tallest);
    var d := Pow10(e);
    assert FirstRung(tallest, d, 0) ==
      if tallest <= d then d else if tallest <= 2 * d then 2 * d else if tallest <= 3 * d then 3 * d
      else if tallest <= 4 * d then 4 * d else if tallest <= 5 * d then 5 * d else if tallest <= 6 * d then 6 * d
      else if tallest <= 8 * d then 8 * d else 10 * d by { Ladder(tallest, d); }
    if tallest <= d { RungAt(0, e, d); }
    else if tallest <= 2 * d { RungAt(1, e, 2 * d); }
    else if tallest <= 3 * d { RungAt(2, e, 3 * d); }
    else if tallest <= 4 * d { RungAt(3, e, 4 * d); }
    else if tallest <= 5 * d { RungAt(4, e, 5 * d); }
    else if tallest <= 6 * d { RungAt(5, e, 6 * d); }
    else if tallest <= 8 * d { RungAt(6, e, 8 * d); }
    else { RungAt(7, e, 10 * d); }
  }

  /** No readable top is lower and still holds the tallest value. */
  lemma TopIsLeastRung(tallest: nat, rung: nat)
    requires tallest > 0 && IsRung(rung) && tallest <= rung
    ensures TopFor(tallest) <= rung
  {
    hide Pow10, IsRung, FirstRung;
    var e := Log10(tallest);
    var k, f := RungParts(rung);
    RungTimes(k, Pow10(f));
    Ladder(tallest, Pow10(e));
    SmallerDecade(e, f);
    SmallerDecade(f, e);
  }

  lemma RungParts(rung: nat) returns (k: nat, f: nat)
    requires IsRung(rung)
    ensures k < |NICE_STEPS| && rung == NICE_STEPS[k] * Pow10(f)
  {
    var i: nat, e: nat :| i < |NICE_STEPS| && rung == NICE_STEPS[i] * Pow10(e);
    k, f := i, e;
  }

  lemma Ladder(tallest: nat, d: nat)
    ensures FirstRung(tallest, d, 0) ==
      if tallest <= d then d else if tallest <= 2 * d then 2 * d else if tallest <= 3 * d then 3 * d
      else if tallest <= 4 * d then 4 * d else if tallest <= 5 * d then 5 * d else if tallest <= 6 * d then 6 * d
      else if tallest <= 8 * d then 8 * d else 10 * d
  {
    assert FirstRung(tallest, d, 4) == if tallest <= 5 * d then 5 * d else FirstRung(tallest, d, 5);
    assert FirstRung(tallest, d, 5) == if tallest <= 6 * d then 6 * d else FirstRung(tallest, d, 6);
    assert FirstRung(tallest, d, 6) == if tallest <= 8 * d then 8 * d else FirstRung(tallest, d, 7);
    assert FirstRung(tallest, d, 2) == if tallest <= 3 * d then 3 * d else FirstRung(tallest, d, 3);
    assert FirstRung(tallest, d, 3) == if tallest <= 4 * d then 4 * d else FirstRung(tallest, d, 4);
  }

  // ---------------------------------------------------------------- the ticks

  /** `roundStep`: 1, 2 or 5 followed by zeros. */
  predicate RoundStep(step: nat)
    requires step >= 1
  {
    var decade := Pow10(Log10(step));
    step == decade || step == 2 * decade || step == 5 * decade
  }

  predicate Divides(yMax: nat, count: nat)
    requires yMax > 0 && count > 0
  {
    yMax % count == 0
  }

  predicate DividesRoundly(yMax: nat, count: nat)
    requires yMax > 0 && count > 0
  {
    yMax % count == 0 && yMax / count >= 1 && RoundStep(yMax / count)
  }

  /** The first division that gives a whole round step, or 0. */
  function RoundDivisions(yMax: nat, k: nat): (count: nat)
    requires yMax > 0 && k <= |Y_DIVISIONS|
    ensures count != 0 ==> count in Y_DIVISIONS && DividesRoundly(yMax, count)
    ensures count == 0 ==> forall i :: k <= i < |Y_DIVISIONS| ==> !DividesRoundly(yMax, Y_DIVISIONS[i])
    decreases |Y_DIVISIONS| - k
  {
    if k == |Y_DIVISIONS| then 0
    else if DividesRoundly(yMax, Y_DIVISIONS[k]) then Y_DIVISIONS[k]
    else RoundDivisions(yMax, k + 1)
  }

  /** The first division that gives a whole step, or 0. */
  function WholeDivisions(yMax: nat, k: nat): (count: nat)
    requires yMax > 0 && k <= |Y_DIVISIONS|
    ensures count == 0 || (count in Y_DIVISIONS && Divides(yMax, count))
    ensures count == 0 ==> forall i :: k <= i < |Y_DIVISIONS| ==> !Divides(yMax, Y_DIVISIONS[i])
    decreases |Y_DIVISIONS| - k
  {
    if k == |Y_DIVISIONS| then 0
    else if Divides(yMax, Y_DIVISIONS[k]) then Y_DIVISIONS[k]
    else WholeDivisions(yMax, k + 1)
  }

  /** `count + 1` labels, `step` apart, from 0. */
  function Ticks(count: nat, step: nat): (ticks: seq<nat>)
    ensures |ticks| == count + 1
  {
    if count == 0 then [0] else Ticks(count - 1, step) + [count * step]
  }

  function CountYTicks(yMax: nat): seq<nat> {
    if yMax == 0 then [0]
    else
      var round := RoundDivisions(yMax, 0);
      var count := if round != 0 then round else WholeDivisions(yMax, 0);
      if count == 0 then [0, yMax] else Ticks(count, yMax / count)
  }

  /** Evenly spaced from 0 to the top, in whole steps a reader counts in. */
  ghost predicate EvenTicks(ticks: seq<nat>, yMax: nat, step: nat) {
    && step >= 1 && RoundStep(step)
    && |ticks| >= 2 && ticks[|ticks| - 1] == yMax
    && forall k :: 0 <= k < |ticks| ==> ticks[k] == k * step
  }

  lemma {:induction false} TickAt(count: nat, step: nat, k: nat)
    requires k <= count
    ensures Ticks(count, step)[k] == k * step
  {
    if k < count { TickAt(count - 1, step, k); }
  }

  lemma RoundOf(step: nat, e: nat)
    requires var p := Pow10(e); step == p || step == 2 * p || step == 5 * p
    ensures step >= 1 && RoundStep(step)
  {
    hide Pow10, Log10;
    Log10Unique(step, e);
  }

  /** A round step is 1, 2 or 5 times a power of ten. */
  lemma RoundStepIs(step: nat)
    requires step >= 1
    ensures RoundStep(step) <==> exists e: nat :: step == Pow10(e) || step == 2 * Pow10(e) || step == 5 * Pow10(e)
  {
    if RoundStep(step) {
      var e := Log10(step);
      assert step == Pow10(e) || step == 2 * Pow10(e) || step == 5 * Pow10(e);
    }
    if exists e: nat :: step == Pow10(e) || step == 2 * Pow10(e) || step == 5 * Pow10(e) {
      var e: nat :| step == Pow10(e) || step == 2 * Pow10(e) || step == 5 * Pow10(e);
      RoundOf(step, e);
    }
  }

  /** `Y_DIVISIONS[i] * step`, without a product of variables. */
  function Parts(i: nat, step: nat): nat {
    if i == 0 then 5 * step else if i == 1 then 4 * step else if i == 2 then 3 * step else 2 * step
  }

  /** `NICE_STEPS[k] * p`, likewise. */
  function Rung(k: nat, p: nat): nat {
    if k == 0 then p else if k == 1 then 2 * p else if k == 2 then 3 * p else if k == 3 then 4 * p
    else if k == 4 then 5 * p else if k == 5 then 6 * p else if k == 6 then 8 * p else 10 * p
  }

  lemma RungTimes(k: nat, p: nat)
    requires k < |NICE_STEPS|
    ensures NICE_STEPS[k] * p == Rung(k, p)
  {
  }

  lemma Exact(yMax: nat, i: nat, step: nat)
    requires i < |Y_DIVISIONS| && step >= 1 && RoundStep(step) && yMax == Parts(i, step)
    ensures DividesRoundly(yMax, Y_DIVISIONS[i])
  {
    hide RoundStep;
    assert Y_DIVISIONS[i] == 5 - i;
  }

  /** A power of ten has a round fifth, twice it a round quarter, and so on up the ladder. */
  lemma RungDividesRoundly(k: nat, e: nat, yMax: nat) returns (i: nat)
    requires k < |NICE_STEPS| && yMax == NICE_STEPS[k] * Pow10(e) && yMax > 1
    ensures i < |Y_DIVISIONS| && DividesRoundly(yMax, Y_DIVISIONS[i])
  {
    RungTimes(k, Pow10(e));
    var step;
    i, step := RungStep(k, e);
    Exact(yMax, i, step);
  }

  /** Which division a rung takes, and its round step. */
  lemma RungStep(k: nat, e: nat) returns (i: nat, step: nat)
    requires k < |NICE_STEPS| && (k > 0 || e > 0)
    ensures i < |Y_DIVISIONS| && step >= 1 && RoundStep(step)
    ensures Parts(i, step) == Rung(k, Pow10(e))
  {
    hide RoundStep;
    var p := Pow10(e);
    RoundOf(p, e);
    RoundOf(2 * p, e);
    if k == 0 || (k == 1 && e > 0) {
      var q := Pow10(e - 1);
      assert p == 10 * q;
      RoundOf(2 * q, e - 1);
      RoundOf(5 * q, e - 1);
      if k == 0 { i, step := 0, 2 * q; } else { i, step := 1, 5 * q; }
    } else {
      i := if k == 1 then 3 else if k == 2 || k == 5 then 2 else if k == 3 || k == 6 then 1 else 0;
      step := if k <= 4 then p else 2 * p;
    }
  }

  /** Whatever top the ladder chose, its labels are whole, even, and a round step apart. */
  lemma TicksAreEven(yMax: nat) returns (step: nat)
    requires IsRung(yMax)
    ensures EvenTicks(CountYTicks(yMax), yMax, step)
  {
    hide Pow10, RoundStep;
    var k: nat, e: nat :| k < |NICE_STEPS| && yMax == NICE_STEPS[k] * Pow10(e);
    RungPositive(k, e);
    if yMax == 1 {
      step := 1;
      TicksOfOne(yMax);
    } else {
      var i := RungDividesRoundly(k, e, yMax);
      var count := RoundDivisions(yMax, 0);
      step := yMax / count;
      assert CountYTicks(yMax) == Ticks(count, step);
      forall j | 0 <= j <= count ensures Ticks(count, step)[j] == j * step { TickAt(count, step, j); }
      assert count * step == yMax;
    }
  }

  /** The axis of an empty chart is labelled at its ends. */
  lemma TicksOfOne(yMax: nat)
    requires yMax == 1
    ensures EvenTicks(CountYTicks(yMax), yMax, 1)
  {
    hide RoundStep;
    RoundOf(1, 0);
    var round, whole := RoundDivisions(yMax, 0), WholeDivisions(yMax, 0);
    assert whole == 0;
  }

  lemma RungPositive(k: nat, e: nat)
    requires k < |NICE_STEPS|
    ensures NICE_STEPS[k] * Pow10(e) >= 1
  {
    assert NICE_STEPS[k] >= 1;
  }

  /**
   * The axis is cut into as many parts, of five at most, as give a round whole
   * step; failing that, into as many as give a whole one.
   */
  lemma FinestRoundDivision(yMax: nat, parts: nat)
    requires yMax > 0 && parts in Y_DIVISIONS
    ensures var ticks := CountYTicks(yMax);
            && |ticks| >= 2
            && (DividesRoundly(yMax, parts) ==>
                  parts <= |ticks| - 1 && |ticks| - 1 in Y_DIVISIONS && DividesRoundly(yMax, |ticks| - 1))
            && (Divides(yMax, parts) && (forall d :: d in Y_DIVISIONS ==> !DividesRoundly(yMax, d)) ==>
                  parts <= |ticks| - 1 && |ticks| - 1 in Y_DIVISIONS && Divides(yMax, |ticks| - 1))
  {
    hide RoundStep, Ticks;
    assert Y_DIVISIONS == [5, 4, 3, 2];
    RoundIsFinest(yMax);
    WholeIsFinest(yMax);
  }

  lemma RoundIsFinest(yMax: nat)
    requires yMax > 0
    ensures forall d :: d in Y_DIVISIONS && DividesRoundly(yMax, d) ==> 0 < d <= RoundDivisions(yMax, 0)
  {
    hide DividesRoundly;
    assert Y_DIVISIONS == [5, 4, 3, 2];
    assert RoundDivisions(yMax, 0) ==
      if DividesRoundly(yMax, 5) then 5 else if DividesRoundly(yMax, 4) then 4
      else if DividesRoundly(yMax, 3) then 3 else if DividesRoundly(yMax, 2) then 2 else 0 by { RoundUnfolded(yMax); }
  }

  lemma RoundUnfolded(yMax: nat)
    requires yMax > 0
    ensures RoundDivisions(yMax, 0) ==
      if DividesRoundly(yMax, 5) then 5 else if DividesRoundly(yMax, 4) then 4
      else if DividesRoundly(yMax, 3) then 3 else if DividesRoundly(yMax, 2) then 2 else 0
  {
    hide DividesRoundly;
    assert RoundDivisions(yMax, 4) == 0;
    assert RoundDivisions(yMax, 3) == if DividesRoundly(yMax, 2) then 2 else RoundDivisions(yMax, 4);
    assert RoundDivisions(yMax, 2) == if DividesRoundly(yMax, 3) then 3 else RoundDivisions(yMax, 3);
  }

  lemma WholeIsFinest(yMax: nat)
    requires yMax > 0
    ensures forall d :: d in Y_DIVISIONS && Divides(yMax, d) ==> 0 < d <= WholeDivisions(yMax, 0)
  {
    hide Divides;
    assert Y_DIVISIONS == [5, 4, 3, 2];
    assert WholeDivisions(yMax, 4) == 0;
    assert WholeDivisions(yMax, 3) == if Divides(yMax, 2) then 2 else WholeDivisions(yMax, 4);
    assert WholeDivisions(yMax, 2) == if Divides(yMax, 3) then 3 else WholeDivisions(yMax, 3);
    assert WholeDivisions(yMax, 1) == if Divides(yMax, 4) then 4 else WholeDivisions(yMax, 2);
  }

  /** The empty chart reaches to 1. */
  lemma EmptyChart(data: seq<seq<nat>>)
    requires forall i, j :: 0 <= i < |data| && 0 <= j < |data[i]| ==> data[i][j] == 0
    ensures TopFor(Tallest(data)) == 1
  {
    TallestIsTallest(data);
  }

  /** A top is labelled at its ends alone exactly when neither 2, 3 nor 5 divides it. */
  lemma EndsAloneIff(yMax: nat)
    requires yMax > 0
    ensures CountYTicks(yMax) == [0, yMax] <==> yMax % 2 != 0 && yMax % 3 != 0 && yMax % 5 != 0
  {
    hide RoundDivisions, WholeDivisions, DividesRoundly, Divides;
    var round, whole := RoundDivisions(yMax, 0), WholeDivisions(yMax, 0);
    WholeIsFinest(yMax);
    PartsThatDivide(yMax);
    if round != 0 { RoundIsWhole(yMax, round); }
  }

  lemma RoundIsWhole(yMax: nat, parts: nat)
    requires yMax > 0 && parts > 0 && DividesRoundly(yMax, parts)
    ensures Divides(yMax, parts)
  {
  }

  lemma PartsThatDivide(yMax: nat)
    requires yMax > 0
    ensures (exists d :: d in Y_DIVISIONS && Divides(yMax, d)) <==> yMax % 2 == 0 || yMax % 3 == 0 || yMax % 5 == 0
    ensures forall d :: d in Y_DIVISIONS ==> d >= 2
  {
    assert Y_DIVISIONS[0] == 5 && Y_DIVISIONS[2] == 3 && Y_DIVISIONS[3] == 2;
    if yMax % 2 == 0 { assert Divides(yMax, 2) && 2 in Y_DIVISIONS; }
    if yMax % 3 == 0 { assert Divides(yMax, 3) && 3 in Y_DIVISIONS; }
    if yMax % 5 == 0 { assert Divides(yMax, 5) && 5 in Y_DIVISIONS; }
  }

  /** A top of 3 is labelled at every unit, not at its ends alone. */
  lemma TopOfThree()
    ensures CountYTicks(3) == [0, 1, 2, 3]
  {
  }

  /** The top of any chart has even labels: every top is a rung, the empty chart's 1 included. */
  lemma EveryChartHasEvenTicks(data: seq<seq<nat>>) returns (step: nat)
    ensures EvenTicks(CountYTicks(TopFor(Tallest(data))), TopFor(Tallest(data)), step)
  {
    if Tallest(data) > 0 { TopIsTight(Tallest(data)); } else { RungAt(0, 0, 1); }
    step := TicksAreEven(TopFor(Tallest(data)));
  }
}
