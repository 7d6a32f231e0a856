/**
 * Value-level meaning of a route (src/path.cpp): the greedy charge plan computed by
 * optimize_charge, the time cost, the heuristic cost and the text layout of
 * to_string.  The class in path.dfy is proved to compute exactly these functions.
 */
module PathSpec {
  import opened Utility

  /** Default penalty weight on the estimated distance still to drive. */
  const DEFAULT_GOAL_WEIGHT: real := 1.0

  /** Sum of a sequence of reals, accumulated from the left. */
  function Sum(s: seq<real>): real {
    if s == [] then 0.0 else Sum(s[..|s| - 1]) + s[|s| - 1]
  }

  lemma SumSnoc(s: seq<real>, x: real)
    ensures Sum(s + [x]) == Sum(s) + x
  {
    assert (s + [x])[..|s|] == s;
  }

  lemma SumTake(s: seq<real>, i: nat)
    requires i < |s|
    ensures Sum(s[..i + 1]) == Sum(s[..i]) + s[i]
  {
    assert s[..i + 1][..i] == s[..i];
  }

  /** Every hop that the first n stations use lies in [0, FULL_CHARGE]. */
  ghost predicate HopsInRange(dists: seq<real>, n: int) {
    forall i :: 0 <= i < n - 1 && i < |dists| ==> 0.0 <= dists[i] <= FULL_CHARGE
  }

  // ---------------------------------------------------------------------------
  // The charge plan (optimize_charge)
  // ---------------------------------------------------------------------------

  /**
   * The amount charged at stop i of a route of |rates| stops, given the distance
   * driven (accDist) and the charge added (accCharge) before stop i.  The minimum
   * is what keeps the battery non-negative on the next hop, the maximum tops the
   * battery up to FULL_CHARGE; the minimum is taken when the next station charges
   * faster or is the last one.
   */
  function Choose(dists: seq<real>, rates: seq<real>, i: nat, accDist: real, accCharge: real): real
    requires i + 1 < |rates| && i < |dists|
  {
    var maxAmount := FULL_CHARGE - (INIT_CHARGE + accCharge - accDist);
    var minAmount := Max(0.0, accDist + dists[i] - INIT_CHARGE - accCharge);
    if rates[i] < rates[i + 1] || i + 1 == |rates| - 1 then minAmount else maxAmount
  }

  /** The amounts the forward pass assigns to stops 0 .. k-1. */
  function Run(dists: seq<real>, rates: seq<real>, k: nat): (amounts: seq<real>)
    requires k < |rates| && |rates| - 1 <= |dists|
    ensures |amounts| == k
  {
    if k == 0 then []
    else
      var prev := Run(dists, rates, k - 1);
      prev + [Choose(dists, rates, k - 1, Sum(dists[..k - 1]), Sum(prev))]
  }

  /**
   * What optimize_charge does to the charge distances `cd`: nothing below three
   * stations, otherwise every entry but the last is overwritten by the pass.
   */
  function Optimized(cd: seq<real>, dists: seq<real>, rates: seq<real>): (r: seq<real>)
    requires |cd| == |rates| && 1 <= |rates| && |rates| - 1 <= |dists|
    ensures |r| == |cd| && r[|cd| - 1] == cd[|cd| - 1]
    ensures |cd| < 3 ==> r == cd
  {
    if |cd| < 3 then cd else Run(dists, rates, |cd| - 1) + [cd[|cd| - 1]]
  }

  /**
   * The charge plan of a route: all zero below three stations, otherwise the
   * amounts of the forward pass followed by 0 for the goal.
   */
  function Plan(dists: seq<real>, rates: seq<real>): (p: seq<real>)
    requires 1 <= |rates| && |rates| - 1 <= |dists|
    ensures |p| == |rates| && p[|p| - 1] == 0.0
  {
    if |rates| < 3 then seq(|rates|, _ => 0.0) else Run(dists, rates, |rates| - 1) + [0.0]
  }

  /** Placeholder amounts: the last one is 0, and all are 0 on a short route. */
  ghost predicate Placeholders(cd: seq<real>) {
    |cd| >= 1 && cd[|cd| - 1] == 0.0 && (|cd| < 3 ==> forall i :: 0 <= i < |cd| ==> cd[i] == 0.0)
  }

  /** On placeholder amounts, the pass yields the plan: it ignores the old amounts. */
  lemma OptimizedIsPlan(cd: seq<real>, dists: seq<real>, rates: seq<real>)
    requires |cd| == |rates| && 1 <= |rates| && |rates| - 1 <= |dists|
    requires Placeholders(cd)
    ensures Optimized(cd, dists, rates) == Plan(dists, rates)
  {
    if |cd| < 3 {
      assert cd == seq(|rates|, _ => 0.0);
    }
  }

  /** Running the pass again changes nothing. */
  lemma OptimizedIdempotent(cd: seq<real>, dists: seq<real>, rates: seq<real>)
    requires |cd| == |rates| && 1 <= |rates| && |rates| - 1 <= |dists|
    ensures Optimized(Optimized(cd, dists, rates), dists, rates) == Optimized(cd, dists, rates)
  {
  }

  /** A shorter run is a prefix of a longer one. */
  lemma {:induction false} RunPrefix(dists: seq<real>, rates: seq<real>, k: nat, m: nat)
    requires m <= k < |rates| && |rates| - 1 <= |dists|
    ensures Run(dists, rates, k)[..m] == Run(dists, rates, m)
    decreases k
  {
    if m < k {
      RunPrefix(dists, rates, k - 1, m);
      assert Run(dists, rates, k)[..m] == Run(dists, rates, k - 1)[..m];
    }
  }

  /**
   * The choice rule, stated on the plan itself: stop i gets the minimum amount
   * exactly when the next station is faster or is the last one, and the maximum
   * amount otherwise, both computed from the plan's own running sums.
   */
  lemma PlanChoice(dists: seq<real>, rates: seq<real>, i: nat)
    requires 3 <= |rates| && |rates| - 1 <= |dists| && i < |rates| - 1
    ensures var p := Plan(dists, rates);
            p[i] == if rates[i] < rates[i + 1] || i + 1 == |rates| - 1
                    then Max(0.0, Sum(dists[..i + 1]) - INIT_CHARGE - Sum(p[..i]))
                    else FULL_CHARGE - (INIT_CHARGE + Sum(p[..i]) - Sum(dists[..i]))
  {
    var p := Plan(dists, rates);
    var n := |rates|;
    RunPrefix(dists, rates, n - 1, i);
    RunPrefix(dists, rates, n - 1, i + 1);
    assert p[..i] == Run(dists, rates, n - 1)[..i];
    assert p[i] == Run(dists, rates, i + 1)[i];
    SumTake(dists, i);
  }

  /** The start station is never charged at: it is left with a full battery. */
  lemma PlanFirstIsZero(dists: seq<real>, rates: seq<real>)
    requires 1 <= |rates| && |rates| - 1 <= |dists|
    requires |rates| >= 2 ==> dists[0] <= FULL_CHARGE
    ensures Plan(dists, rates)[0] == 0.0
  {
    if |rates| >= 3 {
      RunPrefix(dists, rates, |rates| - 1, 1);
      assert Plan(dists, rates)[0] == Run(dists, rates, 1)[0];
      assert dists[..0] == [];
    }
  }

  /** One step of the pass keeps the battery within [0, FULL_CHARGE]. */
  lemma ChooseBounds(dists: seq<real>, rates: seq<real>, i: nat, accDist: real, accCharge: real)
    requires i + 1 < |rates| && i < |dists|
    requires 0.0 <= dists[i] <= FULL_CHARGE
    requires 0.0 <= INIT_CHARGE + accCharge - accDist <= FULL_CHARGE
    ensures var x := Choose(dists, rates, i, accDist, accCharge);
            var level := INIT_CHARGE + accCharge - accDist;
            && 0.0 <= x
            && level + x <= FULL_CHARGE
            && 0.0 <= level + x - dists[i]
  {
  }

  /** Battery level on arriving at stop k stays within [0, FULL_CHARGE]. */
  lemma {:induction false} RunLevel(dists: seq<real>, rates: seq<real>, k: nat)
    requires k < |rates| && |rates| - 1 <= |dists|
    requires HopsInRange(dists, |rates|)
    ensures 0.0 <= INIT_CHARGE + Sum(Run(dists, rates, k)) - Sum(dists[..k]) <= FULL_CHARGE
  {
    if k > 0 {
      var prev := Run(dists, rates, k - 1);
      RunLevel(dists, rates, k - 1);
      var x := Choose(dists, rates, k - 1, Sum(dists[..k - 1]), Sum(prev));
      ChooseBounds(dists, rates, k - 1, Sum(dists[..k - 1]), Sum(prev));
      SumSnoc(prev, x);
      SumTake(dists, k - 1);
    } else {
      assert dists[..0] == [];
    }
  }

  /**
   * The battery invariant of the plan, for a route whose hops are all at most
   * FULL_CHARGE: every amount is non-negative, the level after charging at stop i is
   * at most FULL_CHARGE and the level on arriving at stop i+1 is at least 0.
   */
  lemma PlanWithinBattery(dists: seq<real>, rates: seq<real>, i: nat)
    requires |rates| - 1 <= |dists| && i < |rates| - 1
    requires HopsInRange(dists, |rates|)
    ensures var p := Plan(dists, rates);
            && 0.0 <= p[i]
            && 0.0 <= INIT_CHARGE + Sum(p[..i + 1]) - Sum(dists[..i]) <= FULL_CHARGE
            && 0.0 <= INIT_CHARGE + Sum(p[..i + 1]) - Sum(dists[..i + 1]) <= FULL_CHARGE
  {
    var p := Plan(dists, rates);
    var n := |rates|;
    SumTake(dists, i);
    if n < 3 {
      assert p[..1] == [] + [0.0];
      SumSnoc([], 0.0);
      assert dists[..0] == [];
    } else {
      RunPrefix(dists, rates, n - 1, i + 1);
      assert p[..i + 1] == Run(dists, rates, i + 1);
      var prev := Run(dists, rates, i);
      var x := Choose(dists, rates, i, Sum(dists[..i]), Sum(prev));
      SumSnoc(prev, x);
      RunLevel(dists, rates, i);
      ChooseBounds(dists, rates, i, Sum(dists[..i]), Sum(prev));
    }
  }

  /**
   * Two hops of 268.425 km and 179.713 km: nothing is charged at the start, and the
   * middle stop gets exactly the 128.138 km still missing to reach the goal.
   */
  lemma PlanOneStopExample(r0: real, r1: real, r2: real)
    ensures Plan([268.425, 179.713], [r0, r1, r2]) == [0.0, 128.138, 0.0]
  {
    var d := [268.425, 179.713];
    var r := [r0, r1, r2];
    assert d[..0] == [] && d[..1] == [268.425];
    assert Run(d, r, 1) == [0.0];
    assert Sum([0.0]) == 0.0;
    assert Run(d, r, 2) == [0.0, 128.138];
  }

  /** The six hops of the five-stop example, in km. */
  const FIVE_HOPS: seq<real> := [268.425, 179.713, 175.07, 90.828, 185.317, 196.123]

  /** The charge rates of the five-stop example; the start and goal rates are arbitrary. */
  function FiveRates(r0: real, r6: real): (r: seq<real>)
    ensures |r| == 7
  {
    [r0, 108.0, 92.0, 130.0, 138.0, 116.0, r6]
  }

  /**
   * Six hops through stations charging at 108, 92, 130, 138 and 116 km/h: the pass
   * fills up where the next station is slower, takes the minimum where it is faster,
   * and tops up the 61.44 km missing before the goal at the last stop.
   */
  lemma PlanFiveStopsExample(r0: real, r6: real)
    ensures Plan([268.425, 179.713, 175.07, 90.828, 185.317, 196.123],
                 [r0, 108.0, 92.0, 130.0, 138.0, 116.0, r6])
            == [0.0, 268.425, 34.783, 90.828, 320.0, 61.44, 0.0]
  {
    FiveStopsAt6(r0, r6);
  }

  /** The running hop sums of the five-stop example. */
  lemma FiveStopsSums()
    ensures var d := FIVE_HOPS;
            && Sum(d[..0]) == 0.0 && Sum(d[..1]) == 268.425 && Sum(d[..2]) == 448.138
            && Sum(d[..3]) == 623.208 && Sum(d[..4]) == 714.036 && Sum(d[..5]) == 899.353
  {
    var d := FIVE_HOPS;
    assert d[..0] == [];
    SumTake(d, 0);
    SumTake(d, 1);
    SumTake(d, 2);
    SumTake(d, 3);
    SumTake(d, 4);
  }

  lemma FiveStopsAt2(r0: real, r6: real)
    ensures Run(FIVE_HOPS, FiveRates(r0, r6), 2) == [0.0, 268.425]
  {
    FiveStopsSums();
    RunNext(FIVE_HOPS, FiveRates(r0, r6), 0, [], 0.0, 0.0, 0.0);
    RunNext(FIVE_HOPS, FiveRates(r0, r6), 1, [0.0], 268.425, 0.0, 268.425);
  }

  lemma FiveStopsAt3(r0: real, r6: real)
    ensures Run(FIVE_HOPS, FiveRates(r0, r6), 3) == [0.0, 268.425, 34.783]
  {
    FiveStopsSums();
    FiveStopsAt2(r0, r6);
    RunNext(FIVE_HOPS, FiveRates(r0, r6), 2, [0.0, 268.425], 448.138, 268.425, 34.783);
  }

  lemma FiveStopsAt4(r0: real, r6: real)
    ensures Run(FIVE_HOPS, FiveRates(r0, r6), 4) == [0.0, 268.425, 34.783, 90.828]
  {
    FiveStopsSums();
    FiveStopsAt3(r0, r6);
    RunNext(FIVE_HOPS, FiveRates(r0, r6), 3, [0.0, 268.425, 34.783], 623.208, 303.208, 90.828);
  }

  lemma FiveStopsAt5(r0: real, r6: real)
    ensures Run(FIVE_HOPS, FiveRates(r0, r6), 5) == [0.0, 268.425, 34.783, 90.828, 320.0]
  {
    FiveStopsSums();
    FiveStopsAt4(r0, r6);
    RunNext(FIVE_HOPS, FiveRates(r0, r6), 4, [0.0, 268.425, 34.783, 90.828], 714.036, 394.036, 320.0);
  }

  lemma FiveStopsAt6(r0: real, r6: real)
    ensures Plan(FIVE_HOPS, FiveRates(r0, r6)) == [0.0, 268.425, 34.783, 90.828, 320.0, 61.44, 0.0]
  {
    FiveStopsSums();
    FiveStopsAt5(r0, r6);
    RunNext(FIVE_HOPS, FiveRates(r0, r6), 5, [0.0, 268.425, 34.783, 90.828, 320.0], 899.353, 714.036, 61.44);
  }

  /** One more stop of the pass, from the running sums before it. */
  lemma RunNext(d: seq<real>, r: seq<real>, k: nat, prev: seq<real>, sumDists: real, sumPrev: real, x: real)
    requires k + 1 < |r| && |r| - 1 <= |d|
    requires Run(d, r, k) == prev && Sum(d[..k]) == sumDists && Sum(prev) == sumPrev
    requires x == Choose(d, r, k, sumDists, sumPrev)
    ensures Run(d, r, k + 1) == prev + [x] && Sum(prev + [x]) == sumPrev + x
  {
    SumSnoc(prev, x);
  }

  // ---------------------------------------------------------------------------
  // Time and heuristic cost (time_cost, heuristic_cost)
  // ---------------------------------------------------------------------------

  /** Charging time plus driving time over the first k stops. */
  function TimeOf(cd: seq<real>, rates: seq<real>, dists: seq<real>, k: nat): real
    requires k <= |cd| && k <= |rates| && k <= |dists|
    requires forall i :: 0 <= i < k ==> rates[i] > 0.0
  {
    if k == 0 then 0.0
    else TimeOf(cd, rates, dists, k - 1) + cd[k - 1] / rates[k - 1] + dists[k - 1] / SPEED
  }

  /** With nothing charged, the time cost is the driving time of the hops. */
  lemma {:induction false} TimeOfUncharged(cd: seq<real>, rates: seq<real>, dists: seq<real>, k: nat)
    requires k <= |cd| && k <= |rates| && k <= |dists|
    requires forall i :: 0 <= i < k ==> rates[i] > 0.0 && cd[i] == 0.0
    ensures TimeOf(cd, rates, dists, k) == Sum(dists[..k]) / SPEED
  {
    if k == 0 {
      assert dists[..0] == [];
    } else {
      TimeOfUncharged(cd, rates, dists, k - 1);
      SumTake(dists, k - 1);
    }
  }

  /** Non-negative amounts and hops give a non-negative time cost. */
  lemma {:induction false} TimeOfNonNegative(cd: seq<real>, rates: seq<real>, dists: seq<real>, k: nat)
    requires k <= |cd| && k <= |rates| && k <= |dists|
    requires forall i :: 0 <= i < k ==> rates[i] > 0.0 && cd[i] >= 0.0 && dists[i] >= 0.0
    ensures TimeOf(cd, rates, dists, k) >= 0.0
  {
    if k > 0 {
      TimeOfNonNegative(cd, rates, dists, k - 1);
      assert cd[k - 1] / rates[k - 1] >= 0.0;
    }
  }

  /** The completed one-stop route of the example: 128.138 km charged at 108 km/h. */
  lemma TimeOneStopExample(r0: real, r2: real)
    requires r0 > 0.0 && r2 > 0.0
    ensures TimeOf([0.0, 128.138, 0.0], [r0, 108.0, r2], [268.425, 179.713], 2)
            == 128.138 / 108.0 + 268.425 / SPEED + 179.713 / SPEED
  {
    var cd, r, d := [0.0, 128.138, 0.0], [r0, 108.0, r2], [268.425, 179.713];
    assert TimeOf(cd, r, d, 1) == 0.0 / r0 + 268.425 / SPEED;
    assert 0.0 / r0 == 0.0;
  }

  /**
   * The heuristic cost: the time cost alone once the goal is reached, otherwise the
   * time cost plus the weighted driving time and the average charging time for the
   * straight-line distance still to the goal.
   */
  function HeuristicOf(time: real, reached: bool, goalWeight: real, goalDist: real): real {
    if reached then time
    else time + goalWeight * goalDist / SPEED + goalDist / AVERAGE_RATE
  }

  /** A completed route is ranked by its time cost, whatever weight is used. */
  lemma HeuristicCompleteIgnoresWeight(time: real, w1: real, w2: real, g1: real, g2: real)
    ensures HeuristicOf(time, true, w1, g1) == HeuristicOf(time, true, w2, g2) == time
  {
  }

  /** A larger goal weight never lowers the cost of an unfinished route. */
  lemma HeuristicWeightMonotone(time: real, w1: real, w2: real, goalDist: real)
    requires w1 <= w2 && goalDist >= 0.0
    ensures HeuristicOf(time, false, w1, goalDist) <= HeuristicOf(time, false, w2, goalDist)
  {
    assert w1 * goalDist <= w2 * goalDist;
  }

  /** The estimate never undercuts the time already spent. */
  lemma HeuristicAtLeastTime(time: real, reached: bool, goalWeight: real, goalDist: real)
    requires goalWeight >= 0.0 && goalDist >= 0.0
    ensures HeuristicOf(time, reached, goalWeight, goalDist) >= time
  {
    assert goalWeight * goalDist >= 0.0;
  }

  // ---------------------------------------------------------------------------
  // Text layout (to_string)
  // ---------------------------------------------------------------------------

  /**
   * What to_string writes for one station: its name; then, unless it is the goal,
   * ", " and, unless it is also the start, the formatted charge time and ", ".
   */
  function Token(db: Oracle, start: string, goal: string, name: string, amount: real): string
    requires db.Valid() && db.Has(name)
  {
    if name == goal then name
    else if name == start then name + ", "
    else name + ", " + db.format(amount / db.Rate(name)) + ", "
  }

  /** All stations are known. */
  ghost predicate Known(db: Oracle, cs: seq<string>) {
    forall i :: 0 <= i < |cs| ==> db.Has(cs[i])
  }

  /** The tokens of the stations, in route order. */
  function Render(db: Oracle, start: string, goal: string, cs: seq<string>, cd: seq<real>): string
    requires db.Valid() && |cs| == |cd| && Known(db, cs)
  {
    if cs == [] then ""
    else Render(db, start, goal, cs[..|cs| - 1], cd[..|cd| - 1])
         + Token(db, start, goal, cs[|cs| - 1], cd[|cd| - 1])
  }

  /** Rendering one more station appends its token. */
  lemma RenderStep(db: Oracle, start: string, goal: string, cs: seq<string>, cd: seq<real>, i: nat)
    requires db.Valid() && |cs| == |cd| && Known(db, cs) && i < |cs|
    ensures Known(db, cs[..i]) && Known(db, cs[..i + 1])
    ensures Render(db, start, goal, cs[..i + 1], cd[..i + 1])
            == Render(db, start, goal, cs[..i], cd[..i]) + Token(db, start, goal, cs[i], cd[i])
  {
    assert cs[..i + 1][..i] == cs[..i] && cd[..i + 1][..i] == cd[..i];
  }

  /** An unfinished route reads as a list ending in the separator ", ". */
  lemma RenderPartialEndsWithSeparator(db: Oracle, start: string, goal: string, cs: seq<string>, cd: seq<real>)
    requires db.Valid() && |cs| == |cd| && Known(db, cs)
    requires cs != [] && cs[|cs| - 1] != goal
    ensures var s := Render(db, start, goal, cs, cd);
            |s| >= 2 && s[|s| - 2..] == ", "
  {
    var front := Render(db, start, goal, cs[..|cs| - 1], cd[..|cd| - 1]);
    var t := Token(db, start, goal, cs[|cs| - 1], cd[|cd| - 1]);
    assert t[|t| - 2..] == ", ";
    assert (front + t)[|front + t| - 2..] == t[|t| - 2..];
  }

  /** A completed route reads as a list ending in the goal's name. */
  lemma RenderCompleteEndsWithGoal(db: Oracle, start: string, goal: string, cs: seq<string>, cd: seq<real>)
    requires db.Valid() && |cs| == |cd| && Known(db, cs)
    requires cs != [] && cs[|cs| - 1] == goal
    ensures var s := Render(db, start, goal, cs, cd);
            |s| >= |goal| && s[|s| - |goal|..] == goal
  {
    var front := Render(db, start, goal, cs[..|cs| - 1], cd[..|cd| - 1]);
    assert (front + goal)[|front + goal| - |goal|..] == goal;
  }

  /** The text starts with the first station's name. */
  lemma {:induction false} RenderStartsWithFirst(db: Oracle, start: string, goal: string, cs: seq<string>, cd: seq<real>)
    requires db.Valid() && |cs| == |cd| && Known(db, cs) && cs != []
    ensures var s := Render(db, start, goal, cs, cd);
            |s| >= |cs[0]| && s[..|cs[0]|] == cs[0]
  {
    var front := Render(db, start, goal, cs[..|cs| - 1], cd[..|cd| - 1]);
    var t := Token(db, start, goal, cs[|cs| - 1], cd[|cd| - 1]);
    if |cs| == 1 {
      assert front == "";
      assert t[..|cs[0]|] == cs[0];
      assert (front + t)[..|cs[0]|] == t[..|cs[0]|];
    } else {
      RenderStartsWithFirst(db, start, goal, cs[..|cs| - 1], cd[..|cd| - 1]);
      assert cs[..|cs| - 1][0] == cs[0];
      assert (front + t)[..|cs[0]|] == front[..|cs[0]|];
    }
  }

  /** A route of the start alone renders as the start and a separator. */
  lemma RenderStartOnly(db: Oracle, start: string, goal: string, a0: real)
    requires db.Valid() && db.Has(start) && start != goal
    ensures Render(db, start, goal, [start], [a0]) == start + ", "
  {
    assert [start][..0] == [] && [a0][..0] == [];
  }

  /** A direct route renders as the start, a separator and the goal. */
  lemma RenderDirect(db: Oracle, start: string, goal: string, a0: real, a1: real)
    requires db.Valid() && db.Has(start) && db.Has(goal) && start != goal
    ensures Render(db, start, goal, [start, goal], [a0, a1]) == start + ", " + goal
  {
    assert [start, goal][..1] == [start] && [a0, a1][..1] == [a0];
    RenderStartOnly(db, start, goal, a0);
  }

  /** A one-stop route shows the charge time, in hours, after the intermediate stop. */
  lemma RenderOneStop(db: Oracle, start: string, stop: string, goal: string, a0: real, a1: real, a2: real)
    requires db.Valid() && db.Has(start) && db.Has(stop) && db.Has(goal)
    requires start != goal && stop != start && stop != goal
    ensures Render(db, start, goal, [start, stop, goal], [a0, a1, a2])
            == start + ", " + stop + ", " + db.format(a1 / db.Rate(stop)) + ", " + goal
  {
    var t := db.format(a1 / db.Rate(stop));
    var front := start + ", " + stop + ", " + t + ", ";
    RenderStartStop(db, start, stop, goal, a0, a1);
    assert [start, stop, goal][..2] == [start, stop] && [a0, a1, a2][..2] == [a0, a1];
    assert Render(db, start, goal, [start, stop, goal], [a0, a1, a2]) == front + goal;
  }

  /** The start and one more stop: both names, each followed by a separator, and the stop's charge time. */
  lemma RenderStartStop(db: Oracle, start: string, stop: string, goal: string, a0: real, a1: real)
    requires db.Valid() && db.Has(start) && db.Has(stop)
    requires start != goal && stop != start && stop != goal
    ensures Render(db, start, goal, [start, stop], [a0, a1])
            == start + ", " + stop + ", " + db.format(a1 / db.Rate(stop)) + ", "
  {
    var t := db.format(a1 / db.Rate(stop));
    assert [start, stop][..1] == [start] && [a0, a1][..1] == [a0];
    RenderStartOnly(db, start, goal, a0);
    assert Token(db, start, goal, stop, a1) == stop + ", " + t + ", ";
    assert (start + ", ") + (stop + ", " + t + ", ") == start + ", " + stop + ", " + t + ", ";
  }

  // ---------------------------------------------------------------------------
  // Routes as values
  // ---------------------------------------------------------------------------

  /** The hop distances along a sequence of stations. */
  function Hops(db: Oracle, cs: seq<string>): (ds: seq<real>)
    requires |cs| >= 1
    ensures |ds| == |cs| - 1
    ensures forall i :: 0 <= i < |ds| ==> ds[i] == db.dist(cs[i], cs[i + 1])
  {
    seq(|cs| - 1, i requires 0 <= i < |cs| - 1 => db.dist(cs[i], cs[i + 1]))
  }

  /** The charge rates along a sequence of known stations. */
  function Rates(db: Oracle, cs: seq<string>): (rs: seq<real>)
    requires Known(db, cs)
    ensures |rs| == |cs|
    ensures forall i :: 0 <= i < |rs| ==> rs[i] == db.Rate(cs[i])
  {
    seq(|cs|, i requires 0 <= i < |cs| => db.Rate(cs[i]))
  }

  /** The charge plan of a route, from the stations alone. */
  function PlanFor(db: Oracle, cs: seq<string>): (p: seq<real>)
    requires |cs| >= 1 && Known(db, cs)
    ensures |p| == |cs|
  {
    Plan(Hops(db, cs), Rates(db, cs))
  }

  /**
   * A route the solver may answer with: from start to goal, at least one hop, no
   * station twice, every station known and every hop within one full charge.
   */
  ghost predicate IsCompleteRoute(db: Oracle, start: string, goal: string, cs: seq<string>) {
    && |cs| >= 2 && cs[0] == start && cs[|cs| - 1] == goal
    && Distinct(cs) && Known(db, cs)
    && forall i :: 0 <= i < |cs| - 1 ==> db.dist(cs[i], cs[i + 1]) <= FULL_CHARGE
  }
}
