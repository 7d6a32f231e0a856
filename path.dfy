/**
 * The route object of src/path.cpp: a growable sequence of visited stations with
 * its hop distances, charge rates and charge plan, updated in place.
 */
module Paths {
  import opened Utility
  import opened PathSpec

  /** How add_charger ends: normally, or with one of the two exceptions it throws. */
  datatype AddOutcome = Added | TooFar | AlreadyVisited

  /**
   * The invariant every route keeps, on its field values: the three per-station
   * sequences are aligned with the stations, the set holds exactly the visited
   * stations, no station occurs twice, the charge rates come from the table, the
   * charge amounts have the shape of a plan (a final zero, all zero while the route
   * is shorter than three stations), and reachedGoal says that the goal was appended.
   */
  ghost predicate RouteShape(db: Oracle, start: string, goal: string, chargers: seq<string>,
                             chargersSet: set<string>, chargeDistances: seq<real>,
                             chargeRates: seq<real>, dists: seq<real>, reachedGoal: bool)
  {
    && db.Valid()
    && |chargers| >= 1 && chargers[0] == start
    && Distinct(chargers)
    && chargersSet == (set c | c in chargers)
    && |chargeDistances| == |chargers| && |chargeRates| == |chargers|
    && |dists| >= |chargers| - 1
    && Known(db, chargers)
    && (forall i :: 0 <= i < |chargers| ==> chargeRates[i] == db.Rate(chargers[i]))
    && Placeholders(chargeDistances)
    && (reachedGoal <==> goal != start && goal in chargers)
  }

  /** Recording one more hop distance keeps the invariant. */
  lemma HopRecorded(db: Oracle, start: string, goal: string, cs: seq<string>, visited: set<string>,
                    cd: seq<real>, rates: seq<real>, dists: seq<real>, reached: bool, d: real)
    requires RouteShape(db, start, goal, cs, visited, cd, rates, dists, reached)
    ensures RouteShape(db, start, goal, cs, visited, cd, rates, dists + [d], reached)
  {
  }

  /** Appending an unvisited known station with a zero placeholder keeps the invariant. */
  lemma StationAppended(db: Oracle, start: string, goal: string, cs: seq<string>, visited: set<string>,
                        cd: seq<real>, rates: seq<real>, dists: seq<real>, reached: bool, next: string)
    requires RouteShape(db, start, goal, cs, visited, cd, rates, dists, reached)
    requires db.Has(next) && next !in cs && |dists| >= |cs|
    ensures RouteShape(db, start, goal, cs + [next], visited + {next}, cd + [0.0],
                       rates + [db.Rate(next)], dists, reached || next == goal)
  {
    var cs' := cs + [next];
    forall i, j | 0 <= i < j < |cs'| ensures cs'[i] != cs'[j] {
      if j < |cs| { assert cs'[i] == cs[i] && cs'[j] == cs[j]; }
    }
    var rates' := rates + [db.Rate(next)];
    forall i | 0 <= i < |cs'| ensures db.Has(cs'[i]) && rates'[i] == db.Rate(cs'[i]) {
      if i < |cs| { assert cs'[i] == cs[i] && rates'[i] == rates[i]; }
    }
  }

  /** Re-planning replaces the charge amounts by the plan and keeps the invariant. */
  lemma Replanned(db: Oracle, start: string, goal: string, cs: seq<string>, visited: set<string>,
                  cd: seq<real>, rates: seq<real>, dists: seq<real>, reached: bool)
    requires RouteShape(db, start, goal, cs, visited, cd, rates, dists, reached)
    ensures Optimized(cd, dists, rates) == Plan(dists, rates)
    ensures RouteShape(db, start, goal, cs, visited, Plan(dists, rates), rates, dists, reached)
  {
    OptimizedIsPlan(cd, dists, rates);
  }

  /** Each recorded hop is the distance between consecutive stations and within one full charge. */
  ghost predicate HopsMatch(db: Oracle, cs: seq<string>, dists: seq<real>) {
    && |cs| >= 1 && |dists| == |cs| - 1
    && forall i :: 0 <= i < |dists| ==>
         dists[i] == db.dist(cs[i], cs[i + 1]) && dists[i] <= FULL_CHARGE
  }

  /** A hop within one full charge, appended with its station, keeps the hops matched. */
  lemma HopAppended(db: Oracle, cs: seq<string>, dists: seq<real>, next: string)
    requires HopsMatch(db, cs, dists) && db.dist(cs[|cs| - 1], next) <= FULL_CHARGE
    ensures HopsMatch(db, cs + [next], dists + [db.dist(cs[|cs| - 1], next)])
  {
    var cs', dists' := cs + [next], dists + [db.dist(cs[|cs| - 1], next)];
    forall i | 0 <= i < |dists'|
      ensures dists'[i] == db.dist(cs'[i], cs'[i + 1]) && dists'[i] <= FULL_CHARGE
    {
      if i < |dists| { assert dists'[i] == dists[i] && cs'[i] == cs[i] && cs'[i + 1] == cs[i + 1]; }
    }
  }

  /** One step of the forward pass overwrites entry i of the pass so far with the next amount. */
  lemma PassStep(dists: seq<real>, rates: seq<real>, cd0: seq<real>, i: nat)
    requires |cd0| == |rates| && i + 1 < |rates| && |rates| - 1 <= |dists|
    ensures var run := Run(dists, rates, i);
            (run + cd0[i..])[i := Choose(dists, rates, i, Sum(dists[..i]), Sum(run))]
            == Run(dists, rates, i + 1) + cd0[i + 1..]
  {
    var run := Run(dists, rates, i);
    var v := Choose(dists, rates, i, Sum(dists[..i]), Sum(run));
    assert (run + cd0[i..])[i := v] == run + [v] + cd0[i + 1..];
  }

  /** Every route in `rs` is settled and was built against `db`, `start` and `goal`. */
  ghost predicate AllOf(rs: set<Path>, db: Oracle, start: string, goal: string)
    reads rs
  {
    forall p {:trigger p.Settled()} :: p in rs ==> p.Settled() && p.db == db && p.start == start && p.goal == goal
  }

  /** Adding a settled route built against the same database, start and goal keeps AllOf. */
  lemma AllOfAdd(rs: set<Path>, q: Path, db: Oracle, start: string, goal: string)
    requires AllOf(rs, db, start, goal)
    requires q.Settled() && q.db == db && q.start == start && q.goal == goal
    ensures AllOf(rs + {q}, db, start, goal)
  {
    forall p | p in rs + {q} ensures p.Settled() && p.db == db && p.start == start && p.goal == goal {
      if p != q {
        assert p in rs && p.Settled();
      }
    }
  }

  /** The union of two sets of routes built against the same database, start and goal keeps AllOf. */
  lemma AllOfUnion(rs: set<Path>, ss: set<Path>, db: Oracle, start: string, goal: string)
    requires AllOf(rs, db, start, goal) && AllOf(ss, db, start, goal)
    ensures AllOf(rs + ss, db, start, goal)
  {
    forall p | p in rs + ss ensures p.Settled() && p.db == db && p.start == start && p.goal == goal {
      if p in rs {
        assert p.Settled();
      } else {
        assert p in ss && p.Settled();
      }
    }
  }

  class Path {
    /** The station database, distance and formatter the route was built against. */
    const db: Oracle
    const start: string
    const goal: string

    /** Visited stations, first the start. */
    var chargers: seq<string>
    /** The same stations as a set, for the visited check. */
    var chargersSet: set<string>
    /** Charge (km) added at each station; index-aligned with chargers. */
    var chargeDistances: seq<real>
    /** Charge rate of each station; index-aligned with chargers. */
    var chargeRates: seq<real>
    /** dists[i] is the distance from chargers[i] to chargers[i + 1]. */
    var dists: seq<real>
    /** True once the goal has been appended. */
    var reachedGoal: bool

    /** The route invariant on the current fields. */
    ghost predicate Valid()
      reads this
    {
      RouteShape(db, start, goal, chargers, chargersSet, chargeDistances, chargeRates, dists, reachedGoal)
    }

    /**
     * The hops match the stations and are each within one full charge.  This holds
     * as long as no add_charger call has thrown: a failed call leaves an extra entry
     * in dists.
     */
    ghost predicate Consistent()
      reads this`chargers, this`dists
    {
      HopsMatch(db, chargers, dists)
    }

    /** The charge amounts are the plan of the current route. */
    ghost predicate Planned()
      reads this
    {
      1 <= |chargeRates| && |chargeRates| - 1 <= |dists| && chargeDistances == Plan(dists, chargeRates)
    }

    /**
     * A route as the search keeps it: valid, with matching hops, planned, and
     * ending at the goal once it has reached it.
     */
    ghost predicate Settled()
      reads this
    {
      Valid() && Consistent() && Planned() && (reachedGoal ==> chargers[|chargers| - 1] == goal)
    }

    /** Driving plus charging time of the route under its charge plan. */
    ghost function TimeValue(): real
      reads this
      requires Valid()
    {
      RatesPositive();
      TimeOf(Plan(dists, chargeRates), chargeRates, dists, |chargers| - 1)
    }

    /** The heuristic cost of the route under the given goal weight. */
    ghost function HeuristicValue(goalWeight: real): real
      reads this
      requires Valid()
    {
      HeuristicOf(TimeValue(), reachedGoal, goalWeight, db.dist(chargers[|chargers| - 1], goal))
    }

    /** `key` is the negated heuristic cost of the route under weight `w`. */
    ghost predicate KeyedBy(key: real, w: real)
      reads this
    {
      Valid() && key == -HeuristicValue(w)
    }

    /**
     * `key` is the negated heuristic cost of a queued route: under the default
     * weight for the start alone, which only a reset queues, and under the current
     * weight `w` for any longer route.
     */
    ghost predicate QueuedWith(key: real, w: real)
      reads this
    {
      if |chargers| == 1 then KeyedBy(key, DEFAULT_GOAL_WEIGHT) else KeyedBy(key, w)
    }

    lemma RatesPositive()
      requires Valid()
      ensures forall i :: 0 <= i < |chargeRates| ==> chargeRates[i] > 0.0
    {
    }

    /** A route holding only the start station, with its rate looked up. */
    constructor (db: Oracle, start: string, goal: string)
      requires db.Valid() && db.Has(start)
      ensures Valid() && Consistent() && Planned()
      ensures this.db == db && this.start == start && this.goal == goal
      ensures chargers == [start] && chargersSet == {start}
      ensures chargeDistances == [0.0] && chargeRates == [db.Rate(start)] && dists == []
      ensures !reachedGoal
    {
      this.db := db;
      this.start := start;
      this.goal := goal;
      chargers := [start];
      chargersSet := {start};
      chargeDistances := [0.0];
      chargeRates := [db.Rate(start)];
      dists := [];
      reachedGoal := false;
    }

    /** The copy constructor: an independent route with the same contents. */
    constructor Copy(other: Path)
      ensures db == other.db && start == other.start && goal == other.goal
      ensures chargers == other.chargers && chargersSet == other.chargersSet
      ensures chargeDistances == other.chargeDistances && chargeRates == other.chargeRates
      ensures dists == other.dists && reachedGoal == other.reachedGoal
      ensures other.Settled() ==> Settled()
    {
      db := other.db;
      start := other.start;
      goal := other.goal;
      chargers := other.chargers;
      chargersSet := other.chargersSet;
      chargeDistances := other.chargeDistances;
      chargeRates := other.chargeRates;
      dists := other.dists;
      reachedGoal := other.reachedGoal;
    }

    /** Whether a station is already on the route. */
    function ChargerVisited(name: string): (visited: bool)
      reads this
      requires Valid()
      ensures visited <==> name in chargers
    {
      name in chargersSet
    }

    /** The station the route currently ends at; it is always a visited one. */
    function CurrentCharger(): (c: string)
      reads this
      requires |chargers| >= 1
      ensures c == chargers[|chargers| - 1] && c in chargers
    {
      chargers[|chargers| - 1]
    }

    /** The number of stations on the route, the start included. */
    function NumOfChargers(): (n: int)
      reads this
      requires |chargers| >= 1
      ensures n == |chargers| && n >= 1
    {
      |chargers|
    }

    /**
     * Extends the route by `next`.  The hop distance is recorded first; then the call
     * fails if the hop is longer than a full charge, or else if `next` is already
     * visited.  On success the station, a zero placeholder and its rate are appended,
     * and when `next` is the goal the plan is optimized before reachedGoal is set.
     */
    method AddCharger(next: string) returns (outcome: AddOutcome)
      requires Valid() && db.Has(next)
      modifies this`chargers, this`chargersSet, this`chargeDistances, this`chargeRates, this`dists, this`reachedGoal
      ensures Valid()
      ensures dists == old(dists) + [db.dist(old(CurrentCharger()), next)]
      ensures outcome == if db.dist(old(CurrentCharger()), next) > FULL_CHARGE then TooFar
                         else if next in old(chargers) then AlreadyVisited
                         else Added
      ensures outcome != Added ==>
                && chargers == old(chargers) && chargersSet == old(chargersSet)
                && chargeDistances == old(chargeDistances) && chargeRates == old(chargeRates)
                && reachedGoal == old(reachedGoal)
                && !Consistent()
      ensures outcome == Added ==>
                && chargers == old(chargers) + [next]
                && chargersSet == old(chargersSet) + {next}
                && chargeRates == old(chargeRates) + [db.Rate(next)]
                && chargeDistances == (if next == goal
                                       then Optimized(old(chargeDistances) + [0.0], dists, chargeRates)
                                       else old(chargeDistances) + [0.0])
                && reachedGoal == (old(reachedGoal) || next == goal)
                && CurrentCharger() == next && ChargerVisited(next)
      ensures outcome == Added && next == goal ==> Planned()
      ensures outcome == Added && old(Consistent()) ==> Consistent()
    {
      ghost var cs := chargers;
      var curr := CurrentCharger();
      var dist := db.dist(curr, next);
      HopRecorded(db, start, goal, chargers, chargersSet, chargeDistances, chargeRates, dists, reachedGoal, dist);
      dists := dists + [dist];
      if dist > FULL_CHARGE {
        return TooFar;
      }
      if ChargerVisited(next) {
        return AlreadyVisited;
      }
      Extend(next);
      if old(Consistent()) {
        HopAppended(db, cs, old(dists), next);
      }
      outcome := Added;
    }

    /**
     * The success path of add_charger: appends the station, a zero placeholder and
     * its rate and, when the station is the goal, optimizes the plan and then sets
     * reachedGoal.
     */
    method Extend(next: string)
      requires Valid() && db.Has(next) && next !in chargers && |dists| >= |chargers|
      modifies this`chargers, this`chargersSet, this`chargeDistances, this`chargeRates, this`reachedGoal
      ensures Valid()
      ensures chargers == old(chargers) + [next] && chargersSet == old(chargersSet) + {next}
      ensures chargeRates == old(chargeRates) + [db.Rate(next)]
      ensures chargeDistances == (if next == goal
                                  then Optimized(old(chargeDistances) + [0.0], dists, chargeRates)
                                  else old(chargeDistances) + [0.0])
      ensures reachedGoal == (old(reachedGoal) || next == goal)
      ensures next == goal ==> Planned()
    {
      StationAppended(db, start, goal, chargers, chargersSet, chargeDistances, chargeRates, dists, reachedGoal, next);
      chargers := chargers + [next];
      chargersSet := chargersSet + {next};
      chargeDistances := chargeDistances + [0.0];
      chargeRates := chargeRates + [db.Rate(next)];
      if next == goal {
        ghost var cd := chargeDistances;
        OptimizeCharge();
        Replanned(db, start, goal, chargers, chargersSet, cd, chargeRates, dists, true);
        reachedGoal := true;
      }
    }

    /**
     * The greedy forward pass: at every stop but the last, charge either the least
     * that reaches the next stop or the most that fills the battery.
     */
    method OptimizeCharge()
      requires |chargers| >= 1 && |chargeDistances| == |chargers| && |chargeRates| == |chargers|
      requires |dists| >= |chargers| - 1
      modifies this`chargeDistances
      ensures chargeDistances == Optimized(old(chargeDistances), dists, chargeRates)
    {
      if |chargers| < 3 {
        return;
      }
      ghost var cd0, ds, rs := chargeDistances, dists, chargeRates;
      var accumulateDists := 0.0;
      var accumulateCharge := 0.0;
      var i := 0;
      while i < |chargers| - 1
        invariant 0 <= i <= |rs| - 1
        invariant chargeDistances == Run(ds, rs, i) + cd0[i..]
        invariant accumulateDists == Sum(ds[..i])
        invariant accumulateCharge == Sum(Run(ds, rs, i))
      {
        ghost var run := Run(ds, rs, i);
        // The battery after charging cannot exceed FULL_CHARGE.
        var maxAmount := FULL_CHARGE - (INIT_CHARGE + accumulateCharge - accumulateDists);
        // The charge must be enough to reach the next station.
        ghost var v := Choose(ds, rs, i, accumulateDists, accumulateCharge);
        accumulateDists := accumulateDists + dists[i];
        var minAmount := Max(0.0, accumulateDists - INIT_CHARGE - accumulateCharge);
        var minimalChargeCondition := chargeRates[i] < chargeRates[i + 1] || i + 1 == |chargers| - 1;
        var amount := if minimalChargeCondition then minAmount else maxAmount;
        assert amount == v;
        PassStep(ds, rs, cd0, i);
        chargeDistances := chargeDistances[i := amount];
        accumulateCharge := accumulateCharge + chargeDistances[i];
        SumTake(ds, i);
        SumSnoc(run, v);
        i := i + 1;
      }
      assert cd0[i..] == [cd0[i]];
    }

    /** Optimizes the plan, then sums charging and driving time over the hops. */
    method TimeCost() returns (totalTime: real)
      requires Valid()
      modifies this`chargeDistances
      ensures Valid() && Planned()
      ensures totalTime == TimeValue()
      ensures old(Planned()) ==> unchanged(this)
    {
      Replanned(db, start, goal, chargers, chargersSet, chargeDistances, chargeRates, dists, reachedGoal);
      OptimizeCharge();
      RatesPositive();
      ghost var cd, rs, ds := chargeDistances, chargeRates, dists;
      totalTime := 0.0;
      var i := 0;
      // time_cost also checks i against the lengths of the amounts, rates and
      // hops; under Valid() those checks always pass.
      while i < |chargers| - 1
        invariant 0 <= i <= |rs| - 1
        invariant totalTime == TimeOf(cd, rs, ds, i)
      {
        totalTime := totalTime + chargeDistances[i] / chargeRates[i];
        totalTime := totalTime + dists[i] / SPEED;
        i := i + 1;
      }
      assert TimeValue() == TimeOf(cd, rs, ds, |rs| - 1);
    }

    /**
     * The time cost alone for a completed route; otherwise the time cost plus the
     * weighted driving time and the average charging time for the distance to goal.
     */
    method HeuristicCost(goalWeight: real) returns (cost: real)
      requires Valid() && db.Has(goal)
      modifies this`chargeDistances
      ensures Valid() && Planned()
      ensures cost == HeuristicValue(goalWeight)
      ensures old(Planned()) ==> unchanged(this)
    {
      var time := TimeCost();
      if reachedGoal {
        cost := time;
      } else {
        var goalDist := db.dist(CurrentCharger(), goal);
        // Time so far, weighted driving time to the goal, and average charging time for it.
        cost := HeuristicOf(time, false, goalWeight, goalDist);
      }
    }

    /** The answer text: station names, with the charge time after every intermediate stop. */
    method ToString() returns (s: string)
      requires Valid()
      ensures s == Render(db, start, goal, chargers, chargeDistances)
    {
      ghost var cs, cd := chargers, chargeDistances;
      s := "";
      var i := 0;
      while i < |chargers|
        invariant 0 <= i <= |cs| && Known(db, cs[..i])
        invariant s == Render(db, start, goal, cs[..i], cd[..i])
      {
        var curr := chargers[i];
        var token := curr;
        if curr != goal {
          token := token + ", ";
          if curr != start && i < |chargeDistances| {
            var chargeTime := chargeDistances[i] / db.Rate(curr);
            token := token + db.format(chargeTime) + ", ";
          }
        }
        assert token == Token(db, start, goal, curr, chargeDistances[i]);
        RenderStep(db, start, goal, cs, cd, i);
        s := s + token;
        i := i + 1;
      }
      assert cs[..i] == cs && cd[..i] == cd;
    }
  }

  /** A route that reached the goal, and was not extended after it, is a complete route with its plan. */
  lemma CompletedRoute(p: Path)
    requires p.Settled() && p.reachedGoal
    ensures IsCompleteRoute(p.db, p.start, p.goal, p.chargers)
    ensures p.chargeDistances == PlanFor(p.db, p.chargers)
  {
    RouteOfPath(p);
  }

  /** A consistent route's hops, rates and plan are those of its station sequence. */
  lemma RouteOfPath(p: Path)
    requires p.Valid() && p.Consistent()
    ensures p.dists == Hops(p.db, p.chargers)
    ensures p.chargeRates == Rates(p.db, p.chargers)
    ensures Plan(p.dists, p.chargeRates) == PlanFor(p.db, p.chargers)
  {
  }
}
