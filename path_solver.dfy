/**
 * The best-first search of src/path_solver.cpp: a priority queue of partial routes
 * keyed by their negated heuristic cost, restarted with a heavier goal weight when
 * it grows too large, and stopped after enough completed candidates.
 */
module Solver {
  import opened Utility
  import opened PathSpec
  import opened Paths

  /** Completed routes compared before the best one is returned. */
  const NUM_OF_CANDIDATE: int := 20
  /** Added to the goal weight at every restart. */
  const GOAL_WEIGHT_STEP: real := 0.2
  /** A queue longer than this is reset. */
  const MAX_QUEUE_SIZE: int := 10000
  /** After this many restarts the next completed candidate ends the search. */
  const MAX_RESET: int := 20

  /** How a round of the search ends: the search goes on, or it answers with a completed route. */
  datatype Step = Open | Done(path: Path)

  /** The best cost so far: +infinity until a candidate is found. */
  datatype Cost = Infinity | Finite(value: real)

  /** The comparison `c < best` on doubles, where every real number is below +infinity. */
  predicate Below(c: real, best: Cost) {
    best.Infinity? || c < best.value
  }

  /** The names in `ns` that are not in `visited`, in order. */
  function Unvisited(ns: seq<string>, visited: set<string>): (r: seq<string>)
    ensures |r| <= |ns|
  {
    if ns == [] then []
    else
      var rest := Unvisited(ns[..|ns| - 1], visited);
      if ns[|ns| - 1] in visited then rest else rest + [ns[|ns| - 1]]
  }

  /** The filter keeps exactly the unvisited names. */
  lemma {:induction false} UnvisitedMembers(ns: seq<string>, visited: set<string>, c: string)
    ensures c in Unvisited(ns, visited) <==> c in ns && c !in visited
  {
    if ns != [] {
      var front := ns[..|ns| - 1];
      UnvisitedMembers(front, visited, c);
      assert ns == front + [ns[|ns| - 1]];
    }
  }

  /** A non-empty queue has an entry whose key is the largest. */
  lemma {:induction false} MaxKeyExists<T>(q: multiset<(real, T)>)
    requires |q| > 0
    ensures exists e :: e in q && forall f :: f in q ==> f.0 <= e.0
    decreases |q|
  {
    var x :| x in q;
    var rest := q - multiset{x};
    var top := x;
    if |rest| > 0 {
      MaxKeyExists(rest);
      var m :| m in rest && forall f :: f in rest ==> f.0 <= m.0;
      if x.0 <= m.0 { top := m; }
    }
    assert top in q;
    forall f | f in q ensures f.0 <= top.0 {
      if f != x {
        assert f in rest;
      }
    }
  }

  /**
   * `e` queues the child of `parent` that extends it by `next`, keyed by the child's
   * negated heuristic cost under weight `w`.
   */
  ghost predicate ChildEntry(e: (real, Path), parent: Path, next: string, w: real)
    reads e.1, parent
  {
    e.1.chargers == parent.chargers + [next] && e.1.KeyedBy(e.0, w)
  }

  class PathSolver {
    const db: Oracle
    const start: string
    const goal: string

    /** The open routes, each with the negated heuristic cost it was queued with. */
    var queue: multiset<(real, Path)>
    /** The completed route with the least time cost so far. */
    var bestPath: Path
    var bestCost: Cost
    /** How many completed routes have been taken from the queue. */
    var candidateCount: int
    /** The penalty weight on the distance still to drive. */
    var goalWeight: real
    /** How many times the queue has been reset. */
    var resetCount: int

    /** Every route the search has built so far. */
    ghost var Repr: set<Path>

    /**
     * A route of this search: it ends at a known station, and it is settled and
     * built against the search's database, start and goal.  The last part is
     * stated as AllOf of the one-route set so that the quantifier of AllOf, whose
     * trigger is `Settled()`, keeps Settled folded: the verifier unfolds it only
     * where one of the lemmas below (QueuedSettled, Reached, ReachedLength) asks
     * for it, which keeps the methods of the search cheap to verify.
     */
    ghost predicate Queued(p: Path)
      reads p
    {
      |p.chargers| >= 1 && db.Has(p.CurrentCharger()) && AllOf({p}, db, start, goal)
    }

    /** What Queued says of a route, spelled out. */
    lemma QueuedSettled(p: Path)
      requires Queued(p)
      ensures p.Settled() && p.Valid() && p.db == db && p.start == start && p.goal == goal
    {
      assert p in {p};
    }

    /** A settled route built against the search's database, start and goal is one of its routes. */
    lemma SettledQueued(p: Path)
      requires p.Settled() && p.db == db && p.start == start && p.goal == goal
      ensures Queued(p)
    {
      assert p.CurrentCharger() in p.chargers;
    }

    /** A set of routes of this search is built against its database, start and goal. */
    lemma AllQueued(ps: set<Path>)
      requires forall q :: q in ps ==> Queued(q)
      ensures AllOf(ps, db, start, goal)
    {
      forall q | q in ps ensures q.Settled() && q.db == db && q.start == start && q.goal == goal {
        QueuedSettled(q);
      }
    }

    /** Every route built by the search is one of its routes. */
    lemma Built(p: Path)
      requires AllOf(Repr, db, start, goal) && p in Repr
      ensures Queued(p)
    {
      assert p.Settled();
      SettledQueued(p);
    }

    /** A route of this search that reached the goal is a complete route with its plan. */
    lemma Reached(p: Path)
      requires Queued(p) && p.reachedGoal
      ensures p.Valid() && p.db == db && p.start == start && p.goal == goal && |p.chargers| >= 2
      ensures IsCompleteRoute(db, start, goal, p.chargers) && p.chargeDistances == PlanFor(db, p.chargers)
    {
      QueuedSettled(p);
      CompletedRoute(p);
    }

    /** A route of this search that reached the goal has a stop besides the start. */
    lemma ReachedLength(p: Path)
      requires Queued(p) && p.reachedGoal
      ensures |p.chargers| >= 2
    {
      Reached(p);
    }

    /** The time cost of a route of this search. */
    ghost function Time(p: Path): real
      reads p
      requires Queued(p)
    {
      QueuedSettled(p);
      p.TimeValue()
    }

    /**
     * The search invariant without the queue: the best route is among the routes
     * built, which are all routes of this search; the goal weight has grown by one
     * step per restart; and once a candidate was seen the best route is a completed
     * one with an intermediate stop.
     */
    ghost predicate Sound()
      reads this`bestPath, this`bestCost, this`candidateCount, this`goalWeight, this`resetCount, this`Repr, Repr
    {
      && db.Valid() && db.Has(start) && db.Has(goal)
      && bestPath in Repr
      && AllOf(Repr, db, start, goal)
      && resetCount >= 0 && candidateCount >= 0
      && goalWeight == DEFAULT_GOAL_WEIGHT + resetCount as real * GOAL_WEIGHT_STEP
      && (candidateCount > 0 ==> bestCost.Finite?)
      && (bestCost.Finite? ==> bestPath.reachedGoal && |bestPath.chargers| >= 3)
    }

    /** The search invariant: Sound, and every queued route is among the routes built. */
    ghost predicate Valid()
      reads this, Repr
    {
      Sound() && forall e :: e in queue ==> e.1 in Repr
    }

    /**
     * The search invariant together with the queue order: every key is the negated
     * heuristic cost of its route, under the current weight for a child and under
     * the default weight for the start route that a reset queued.
     */
    ghost predicate Keyed()
      reads this, Repr
    {
      && Valid()
      && forall e {:trigger e.1.QueuedWith(e.0, goalWeight)} :: e in queue ==> e.1.QueuedWith(e.0, goalWeight)
    }

    /**
     * The search starts with no candidate, the default weight, no restart and a
     * queue holding the start alone.
     */
    constructor (db: Oracle, start: string, goal: string)
      requires db.Valid() && db.Has(start) && db.Has(goal)
      ensures Keyed()
      ensures this.db == db && this.start == start && this.goal == goal
      ensures bestCost == Infinity && candidateCount == 0 && resetCount == 0
      ensures goalWeight == DEFAULT_GOAL_WEIGHT
      ensures bestPath.chargers == [start]
      ensures |queue| == 1
      ensures forall e :: e in queue ==>
                e.1.chargers == [start] && e.0 == -HeuristicOf(0.0, false, DEFAULT_GOAL_WEIGHT, db.dist(start, goal))
    {
      this.db := db;
      this.start := start;
      this.goal := goal;
      var best := new Path(db, start, goal);
      bestPath := best;
      bestCost := Infinity;
      candidateCount := 0;
      goalWeight := DEFAULT_GOAL_WEIGHT;
      resetCount := 0;
      queue := multiset{};
      Repr := {best};
      new;
      ghost var init := ResetQueue();
    }

    /**
     * Empties the queue and queues a fresh route of the start alone, keyed by its
     * heuristic cost under the DEFAULT weight, whatever the current weight is.
     */
    method ResetQueue() returns (ghost init: Path)
      requires db.Valid() && db.Has(start) && db.Has(goal) && AllOf(Repr, db, start, goal)
      modifies this`queue, this`Repr
      ensures AllOf(Repr, db, start, goal) && Repr == old(Repr) + {init}
      ensures fresh(init) && Queued(init) && init.chargers == [start] && !init.reachedGoal
      ensures queue == multiset{(-HeuristicOf(0.0, false, DEFAULT_GOAL_WEIGHT, db.dist(start, goal)), init)}
      ensures init.KeyedBy(-HeuristicOf(0.0, false, DEFAULT_GOAL_WEIGHT, db.dist(start, goal)), DEFAULT_GOAL_WEIGHT)
    {
      var p := new Path(db, start, goal);
      var initCost := p.HeuristicCost(DEFAULT_GOAL_WEIGHT);
      SettledQueued(p);
      queue := multiset{(-initCost, p)};
      AllOfAdd(Repr, p, db, start, goal);
      Repr := Repr + {p};
      init := p;
    }

    /** A restart: one more weight step, a reset queue and one more reset counted. */
    method Restart() returns (ghost init: Path)
      requires Valid()
      modifies this`goalWeight, this`queue, this`resetCount, this`Repr
      ensures Keyed() && Repr == old(Repr) + {init} && fresh(init)
      ensures goalWeight == old(goalWeight) + GOAL_WEIGHT_STEP && resetCount == old(resetCount) + 1
      ensures init.chargers == [start]
      ensures queue == multiset{(-HeuristicOf(0.0, false, DEFAULT_GOAL_WEIGHT, db.dist(start, goal)), init)}
    {
      goalWeight := goalWeight + GOAL_WEIGHT_STEP;
      init := ResetQueue();
      resetCount := resetCount + 1;
    }

    /** The entry with the largest key, that is, the least negated cost. */
    method Top() returns (key: real, p: Path)
      requires |queue| > 0
      ensures (key, p) in queue
      ensures forall e :: e in queue ==> e.0 <= key
    {
      MaxKeyExists(queue);
      var e :| e in queue && forall f :: f in queue ==> f.0 <= e.0;
      key, p := e.0, e.1;
    }

    /**
     * Takes the top entry off the queue: a route whose queued heuristic cost -key
     * is the least of all queued costs.
     */
    method Pop() returns (key: real, p: Path)
      requires Keyed() && |queue| > 0
      modifies this`queue
      ensures Keyed() && p in Repr && Queued(p)
      ensures (key, p) in old(queue) && forall e :: e in old(queue) ==> -key <= -e.0
      ensures p.QueuedWith(key, goalWeight)
      ensures queue == old(queue) - multiset{(key, p)}
    {
      key, p := Top();
      queue := queue - multiset{(key, p)};
      Built(p);
    }

    /** The stations within one full charge of the route's end that it has not visited, in table order. */
    method FindNeighbors(parent: Path) returns (children: seq<string>)
      requires Queued(parent)
      ensures children == Unvisited(db.Neighbors(parent.CurrentCharger()), parent.chargersSet)
      ensures forall c :: c in children <==>
                db.Has(c) && db.dist(parent.CurrentCharger(), c) <= FULL_CHARGE && c !in parent.chargers
    {
      QueuedSettled(parent);
      var curr := parent.CurrentCharger();
      var neighbors := db.Neighbors(curr);
      children := [];
      var i := 0;
      while i < |neighbors|
        invariant 0 <= i <= |neighbors|
        invariant children == Unvisited(neighbors[..i], parent.chargersSet)
      {
        assert neighbors[..i + 1][..i] == neighbors[..i];
        if !parent.ChargerVisited(neighbors[i]) {
          children := children + [neighbors[i]];
        }
        i := i + 1;
      }
      assert neighbors[..i] == neighbors;
      forall c ensures c in children <==>
                db.Has(c) && db.dist(curr, c) <= FULL_CHARGE && c !in parent.chargers
      {
        UnvisitedMembers(neighbors, parent.chargersSet, c);
      }
    }

    /**
     * One child of an open route: a copy of the parent extended by `next`, which
     * never fails for an unvisited neighbour, and the child's heuristic cost under
     * `weight`.  The parent is left as it was.
     */
    method Branch(parent: Path, next: string, weight: real) returns (child: Path, cost: real)
      requires Queued(parent) && !parent.reachedGoal && db.Has(goal)
      requires db.Has(next) && db.dist(parent.CurrentCharger(), next) <= FULL_CHARGE && next !in parent.chargers
      ensures fresh(child) && Queued(child)
      ensures child.chargers == parent.chargers + [next]
      ensures child.KeyedBy(-cost, weight)
    {
      QueuedSettled(parent);
      child := new Path.Copy(parent);
      var outcome := child.AddCharger(next);
      assert outcome == Added;
      cost := child.HeuristicCost(weight);
      SettledQueued(child);
    }

    /**
     * Queues one child of an open route: the child made by Branch, keyed by its
     * negated heuristic cost under the current weight.
     */
    method Spawn(parent: Path, next: string) returns (ghost entry: (real, Path))
      requires Queued(parent) && !parent.reachedGoal && db.Has(goal)
      requires db.Has(next) && db.dist(parent.CurrentCharger(), next) <= FULL_CHARGE && next !in parent.chargers
      modifies this`queue
      ensures queue == old(queue) + multiset{entry}
      ensures fresh(entry.1) && Queued(entry.1) && ChildEntry(entry, parent, next, goalWeight)
    {
      var child, childCost := Branch(parent, next, goalWeight);
      queue := queue + multiset{(-childCost, child)};
      entry := (-childCost, child);
    }

    /**
     * Queues one child per station, in order, each keyed by its negated heuristic
     * cost under the current weight.  The parent itself is left as it was.
     */
    method Expand(parent: Path, children: seq<string>) returns (ghost added: seq<(real, Path)>)
      requires Queued(parent) && !parent.reachedGoal && db.Has(goal)
      requires forall c :: c in children ==>
                 db.Has(c) && db.dist(parent.CurrentCharger(), c) <= FULL_CHARGE && c !in parent.chargers
      modifies this`queue
      ensures queue == old(queue) + multiset(added) && |added| == |children|
      ensures forall i :: 0 <= i < |added| ==> fresh(added[i].1) && Queued(added[i].1)
      ensures forall i {:trigger ChildEntry(added[i], parent, children[i], goalWeight)} ::
                0 <= i < |added| ==> ChildEntry(added[i], parent, children[i], goalWeight)
    {
      added := [];
      var i := 0;
      while i < |children|
        invariant 0 <= i <= |children| && |added| == i
        invariant queue == old(queue) + multiset(added)
        invariant forall j :: 0 <= j < i ==> fresh(added[j].1) && Queued(added[j].1)
        invariant forall j {:trigger ChildEntry(added[j], parent, children[j], goalWeight)} ::
                    0 <= j < i ==> ChildEntry(added[j], parent, children[j], goalWeight)
      {
        ghost var before := added;
        ghost var entry := Spawn(parent, children[i]);
        added := added + [entry];
        ExtendChildren(before, entry, parent, children);
        forall j | 0 <= j <= i ensures fresh(added[j].1) {
          if j < i {
            assert added[j] == before[j];
          }
        }
        i := i + 1;
      }
    }

    /** Appending one more queued child to the entries for the first stations of `children`. */
    lemma ExtendChildren(before: seq<(real, Path)>, entry: (real, Path), parent: Path, children: seq<string>)
      requires |before| < |children|
      requires forall j :: 0 <= j < |before| ==> Queued(before[j].1)
      requires forall j {:trigger ChildEntry(before[j], parent, children[j], goalWeight)} ::
                 0 <= j < |before| ==> ChildEntry(before[j], parent, children[j], goalWeight)
      requires Queued(entry.1) && ChildEntry(entry, parent, children[|before|], goalWeight)
      ensures forall j :: 0 <= j <= |before| ==> Queued((before + [entry])[j].1)
      ensures forall j {:trigger ChildEntry((before + [entry])[j], parent, children[j], goalWeight)} ::
                0 <= j <= |before| ==> ChildEntry((before + [entry])[j], parent, children[j], goalWeight)
    {
      forall j | 0 <= j <= |before|
        ensures Queued((before + [entry])[j].1)
        ensures ChildEntry((before + [entry])[j], parent, children[j], goalWeight)
      {
        if j < |before| {
          assert (before + [entry])[j] == before[j];
        }
      }
    }

    /**
     * heuristic_cost() of a completed route: its time cost.  The call re-plans the
     * route, which changes nothing on a route that is already planned.
     */
    method Rank(p: Path) returns (cost: real)
      requires Valid() && p in Repr && Queued(p) && p.reachedGoal
      modifies p`chargeDistances
      ensures Valid() && unchanged(p) && cost == Time(p)
    {
      QueuedSettled(p);
      cost := p.HeuristicCost(DEFAULT_GOAL_WEIGHT);
    }

    /** best_path_ = p: the best route becomes a copy of `p` and the best cost `cost`. */
    method Replace(p: Path, cost: real)
      requires Valid() && p in Repr && Queued(p) && p.reachedGoal && |p.chargers| >= 3
      modifies this`bestPath, this`bestCost, this`Repr
      ensures Valid() && fresh(Repr - old(Repr))
      ensures bestCost == Finite(cost)
      ensures bestPath.chargers == p.chargers && bestPath.chargeDistances == p.chargeDistances
    {
      bestCost := Finite(cost);
      var copy := new Path.Copy(p);
      bestPath := copy;
      AllOfAdd(Repr, copy, db, start, goal);
      Repr := Repr + {copy};
    }

    /**
     * A completed candidate replaces the best route exactly when its time cost is
     * strictly below the best cost; its cost is taken twice, as solve does
     * (heuristic_cost() is called twice).
     */
    method Offer(p: Path) returns (cost: real)
      requires Valid() && p in Repr && Queued(p) && p.reachedGoal && |p.chargers| >= 3
      modifies this`bestPath, this`bestCost, this`Repr, p`chargeDistances
      ensures Valid() && fresh(Repr - old(Repr)) && unchanged(p) && bestCost.Finite?
      ensures cost == Time(p)
      ensures Below(cost, old(bestCost)) ==>
                && bestCost == Finite(cost)
                && bestPath.chargers == p.chargers && bestPath.chargeDistances == p.chargeDistances
      ensures !Below(cost, old(bestCost)) ==> bestPath == old(bestPath) && bestCost == old(bestCost)
    {
      cost := Rank(p);
      if Below(cost, bestCost) {
        var again := Rank(p);
        Replace(p, again);
      }
    }

    /** The text of a completed route: its stations and the charge times of its plan. */
    method Answer(q: Path) returns (text: string)
      requires db.Valid() && Queued(q) && q.reachedGoal
      ensures IsCompleteRoute(db, start, goal, q.chargers)
      ensures text == Render(db, start, goal, q.chargers, PlanFor(db, q.chargers))
    {
      Reached(q);
      text := q.ToString();
    }

    /**
     * A completed route taken from the queue.  A direct start-goal route is the
     * answer at once and changes nothing; any other is offered as a candidate,
     * replacing the best route exactly when its time cost is strictly lower, and
     * counted; at the candidate limit or once the reset limit is reached the best
     * route is the answer.  The route itself is left as it was.
     */
    method Finish(p: Path) returns (step: Step)
      requires Valid() && p in Repr && Queued(p) && p.reachedGoal
      modifies this`bestPath, this`bestCost, this`Repr, this`candidateCount, p`chargeDistances
      ensures Valid() && fresh(Repr - old(Repr)) && unchanged(p) && Queued(p)
      ensures step.Done? ==> step.path in Repr && Queued(step.path) && step.path.reachedGoal
      ensures |p.chargers| == 2 ==>
                && step == Done(p) && candidateCount == old(candidateCount)
                && bestPath == old(bestPath) && bestCost == old(bestCost)
      ensures |p.chargers| != 2 ==>
                && candidateCount == old(candidateCount) + 1
                && (Below(Time(p), old(bestCost)) ==>
                      && bestCost == Finite(Time(p))
                      && bestPath.chargers == p.chargers && bestPath.chargeDistances == p.chargeDistances)
                && (!Below(Time(p), old(bestCost)) ==> bestPath == old(bestPath) && bestCost == old(bestCost))
                && (step.Done? <==> candidateCount == NUM_OF_CANDIDATE || resetCount >= MAX_RESET)
                && (step.Done? ==> step.path == bestPath && |bestPath.chargers| > 2)
    {
      if p.NumOfChargers() == 2 {
        return Done(p);
      }
      ReachedLength(p);
      var cost := Offer(p);
      candidateCount := candidateCount + 1;
      if candidateCount == NUM_OF_CANDIDATE || resetCount >= MAX_RESET {
        Built(bestPath);
        return Done(bestPath);
      }
      return Open;
    }

    /**
     * An open route taken from the queue: every unvisited neighbour of its end is
     * queued as a child, in the order find_neighbors returns them, keyed by its
     * heuristic cost under the current weight.
     */
    method Grow(p: Path) returns (children: seq<string>, ghost added: seq<(real, Path)>)
      requires Keyed() && p in Repr && Queued(p) && !p.reachedGoal
      modifies this`queue, this`Repr
      ensures Keyed() && fresh(Repr - old(Repr))
      ensures children == Unvisited(db.Neighbors(p.CurrentCharger()), p.chargersSet)
      ensures queue == old(queue) + multiset(added) && |added| == |children|
      ensures forall i {:trigger ChildEntry(added[i], p, children[i], goalWeight)} ::
                0 <= i < |added| ==> ChildEntry(added[i], p, children[i], goalWeight)
    {
      children := FindNeighbors(p);
      ghost var before := queue;
      added := Expand(p, children);
      Admit(before, p, children, added);
    }

    /**
     * Records the routes of `added`, queued for children of `parent` on top of the
     * entries of `before`, as built by the search, which restores the search
     * invariant and the queue order.
     */
    ghost method Admit(before: multiset<(real, Path)>, parent: Path, children: seq<string>,
                       added: seq<(real, Path)>)
      requires Sound() && queue == before + multiset(added) && |added| == |children| && |parent.chargers| >= 1
      requires forall e :: e in before ==> e.1 in Repr
      requires forall e {:trigger e.1.QueuedWith(e.0, goalWeight)} :: e in before ==> e.1.QueuedWith(e.0, goalWeight)
      requires forall i :: 0 <= i < |added| ==> Queued(added[i].1)
      requires forall i {:trigger ChildEntry(added[i], parent, children[i], goalWeight)} ::
                 0 <= i < |added| ==> ChildEntry(added[i], parent, children[i], goalWeight)
      modifies this`Repr
      ensures Keyed() && Repr == old(Repr) + set i | 0 <= i < |added| :: added[i].1
      ensures forall i {:trigger ChildEntry(added[i], parent, children[i], goalWeight)} ::
                0 <= i < |added| ==> ChildEntry(added[i], parent, children[i], goalWeight)
    {
      ghost var made := set i | 0 <= i < |added| :: added[i].1;
      forall q | q in made ensures Queued(q) {
        var i :| 0 <= i < |added| && added[i].1 == q;
      }
      AllQueued(made);
      AllOfUnion(Repr, made, db, start, goal);
      assert forall i :: 0 <= i < |added| ==> added[i].1 in made;
      KeysKept(before, parent, children, added, made);
      Enroll(made, parent, children, added);
    }

    /** The entries of `before` and `added` are all keyed and all among the routes built or `made`. */
    lemma KeysKept(before: multiset<(real, Path)>, parent: Path, children: seq<string>,
                   added: seq<(real, Path)>, made: set<Path>)
      requires queue == before + multiset(added) && |added| == |children| && |parent.chargers| >= 1
      requires forall e :: e in before ==> e.1 in Repr
      requires forall e {:trigger e.1.QueuedWith(e.0, goalWeight)} :: e in before ==> e.1.QueuedWith(e.0, goalWeight)
      requires forall i :: 0 <= i < |added| ==> added[i].1 in made
      requires forall i {:trigger ChildEntry(added[i], parent, children[i], goalWeight)} ::
                 0 <= i < |added| ==> ChildEntry(added[i], parent, children[i], goalWeight)
      ensures forall e :: e in queue ==> e.1 in Repr + made
      ensures forall e {:trigger e.1.QueuedWith(e.0, goalWeight)} :: e in queue ==> e.1.QueuedWith(e.0, goalWeight)
    {
      forall e | e in queue ensures e.1 in Repr + made && e.1.QueuedWith(e.0, goalWeight) {
        if e in before {
          assert e.1.QueuedWith(e.0, goalWeight);
        } else {
          assert e in added;
          var i :| 0 <= i < |added| && added[i] == e;
          assert ChildEntry(added[i], parent, children[i], goalWeight);
          assert |e.1.chargers| == |parent.chargers| + 1;
        }
      }
    }

    /** Records the children queued for `parent` as built by the search. */
    ghost method Enroll(made: set<Path>, parent: Path, children: seq<string>, added: seq<(real, Path)>)
      requires |added| == |children|
      requires forall i {:trigger ChildEntry(added[i], parent, children[i], goalWeight)} ::
                 0 <= i < |added| ==> ChildEntry(added[i], parent, children[i], goalWeight)
      modifies this`Repr
      ensures Repr == old(Repr) + made
      ensures forall i {:trigger ChildEntry(added[i], parent, children[i], goalWeight)} ::
                0 <= i < |added| ==> ChildEntry(added[i], parent, children[i], goalWeight)
    {
      Repr := Repr + made;
    }

    /**
     * A route taken from the queue is finished when it reached the goal, leaving the
     * queue as it was, and expanded otherwise.  The route itself is left as it was.
     */
    method Advance(p: Path) returns (step: Step, ghost children: seq<string>, ghost added: seq<(real, Path)>)
      requires Keyed() && p in Repr && Queued(p)
      modifies this`bestPath, this`bestCost, this`Repr, this`candidateCount, this`queue, p`chargeDistances
      ensures Keyed() && fresh(Repr - old(Repr)) && unchanged(p) && Queued(p)
      ensures goalWeight == old(goalWeight) && resetCount == old(resetCount)
      ensures p.reachedGoal ==> queue == old(queue) && children == [] && added == []
      ensures p.reachedGoal && |p.chargers| == 2 ==>
                && step == Done(p) && candidateCount == old(candidateCount)
                && bestPath == old(bestPath) && bestCost == old(bestCost)
      ensures p.reachedGoal && |p.chargers| != 2 ==>
                && candidateCount == old(candidateCount) + 1
                && (Below(Time(p), old(bestCost)) ==>
                      && bestCost == Finite(Time(p))
                      && bestPath.chargers == p.chargers && bestPath.chargeDistances == p.chargeDistances)
                && (!Below(Time(p), old(bestCost)) ==> bestPath == old(bestPath) && bestCost == old(bestCost))
                && (step.Done? <==> candidateCount == NUM_OF_CANDIDATE || resetCount >= MAX_RESET)
                && (step.Done? ==> step.path == bestPath && |bestPath.chargers| > 2)
      ensures !p.reachedGoal ==>
                && bestPath == old(bestPath) && bestCost == old(bestCost) && candidateCount == old(candidateCount)
                && step == Open
                && children == Unvisited(db.Neighbors(p.CurrentCharger()), p.chargersSet)
                && queue == old(queue) + multiset(added) && |added| == |children|
                && (forall i {:trigger ChildEntry(added[i], p, children[i], goalWeight)} ::
                      0 <= i < |added| ==> ChildEntry(added[i], p, children[i], goalWeight))
      ensures step.Done? ==> step.path in Repr && Queued(step.path) && step.path.reachedGoal
      ensures step.Done? && |step.path.chargers| > 2 ==>
                && step.path == bestPath
                && (candidateCount == NUM_OF_CANDIDATE || resetCount >= MAX_RESET)
    {
      if p.reachedGoal {
        step := Finish(p);
        children, added := [], [];
      } else {
        children, added := Grow(p);
        step := Open;
      }
    }

    /**
     * The start of a round: reset the queue if it holds more than MAX_QUEUE_SIZE
     * routes, then pop the route of least heuristic cost.
     */
    method Take() returns (key: real, p: Path)
      requires Keyed() && |queue| > 0
      modifies this`goalWeight, this`queue, this`resetCount, this`Repr
      ensures Keyed() && fresh(Repr - old(Repr)) && p in Repr && Queued(p)
      ensures old(|queue|) > MAX_QUEUE_SIZE ==>
                && resetCount == old(resetCount) + 1 && goalWeight == old(goalWeight) + GOAL_WEIGHT_STEP
                && p.chargers == [start]
                && key == -HeuristicOf(0.0, false, DEFAULT_GOAL_WEIGHT, db.dist(start, goal))
                && queue == multiset{}
      ensures old(|queue|) <= MAX_QUEUE_SIZE ==>
                && resetCount == old(resetCount) && goalWeight == old(goalWeight)
                && (key, p) in old(queue) && (forall e :: e in old(queue) ==> e.0 <= key)
                && queue == old(queue) - multiset{(key, p)}
    {
      if |queue| > MAX_QUEUE_SIZE {
        ghost var init := Restart();
        key, p := Pop();
        assert (key, p) in multiset{(-HeuristicOf(0.0, false, DEFAULT_GOAL_WEIGHT, db.dist(start, goal)), init)};
      } else {
        key, p := Pop();
      }
    }

    /**
     * One round of the search: reset the queue if it holds more than MAX_QUEUE_SIZE
     * routes, take the route of least heuristic cost, and either finish it or expand
     * it.  `popped` is the entry taken, and `added` the entries queued for the
     * children, one per station of `children`.  No route built before the round is
     * changed.
     */
    method Round() returns (step: Step, ghost popped: (real, Path), ghost children: seq<string>,
                            ghost added: seq<(real, Path)>)
      requires Keyed() && |queue| > 0
      modifies this, Repr
      ensures Keyed() && fresh(Repr - old(Repr))
      ensures forall q :: q in old(Repr) ==> unchanged(q)
      ensures old(|queue|) > MAX_QUEUE_SIZE ==>
                && resetCount == old(resetCount) + 1 && goalWeight == old(goalWeight) + GOAL_WEIGHT_STEP
                && popped.1.chargers == [start]
                && popped.0 == -HeuristicOf(0.0, false, DEFAULT_GOAL_WEIGHT, db.dist(start, goal))
                && queue == multiset(added)
      ensures old(|queue|) <= MAX_QUEUE_SIZE ==>
                && resetCount == old(resetCount) && goalWeight == old(goalWeight)
                && popped in old(queue) && (forall e :: e in old(queue) ==> e.0 <= popped.0)
                && queue == old(queue) - multiset{popped} + multiset(added)
      ensures Queued(popped.1)
      ensures popped.1.reachedGoal ==> added == []
      ensures popped.1.reachedGoal && |popped.1.chargers| == 2 ==>
                && step == Done(popped.1) && candidateCount == old(candidateCount)
                && bestPath == old(bestPath) && bestCost == old(bestCost)
      ensures popped.1.reachedGoal && |popped.1.chargers| != 2 ==>
                && candidateCount == old(candidateCount) + 1
                && (Below(Time(popped.1), old(bestCost)) ==>
                      && bestCost == Finite(Time(popped.1))
                      && bestPath.chargers == popped.1.chargers
                      && bestPath.chargeDistances == popped.1.chargeDistances)
                && (!Below(Time(popped.1), old(bestCost)) ==> bestPath == old(bestPath) && bestCost == old(bestCost))
                && (step.Done? <==> candidateCount == NUM_OF_CANDIDATE || resetCount >= MAX_RESET)
                && (step.Done? ==> step.path == bestPath && |bestPath.chargers| > 2)
      ensures !popped.1.reachedGoal ==>
                && bestPath == old(bestPath) && bestCost == old(bestCost) && candidateCount == old(candidateCount)
                && step == Open && |added| == |children|
                && children == Unvisited(db.Neighbors(popped.1.CurrentCharger()), popped.1.chargersSet)
                && (forall i {:trigger ChildEntry(added[i], popped.1, children[i], goalWeight)} ::
                      0 <= i < |added| ==> ChildEntry(added[i], popped.1, children[i], goalWeight))
      ensures step.Done? ==> step.path in Repr && Queued(step.path) && step.path.reachedGoal
      ensures step.Done? && |step.path.chargers| > 2 ==>
                && step.path == bestPath
                && (candidateCount == NUM_OF_CANDIDATE || resetCount >= MAX_RESET)
    {
      var key, p := Take();
      popped := (key, p);
      step, children, added := Advance(p);
    }

    /**
     * The search: rounds until one gives the answer, which is the text of the
     * route it names; an exhausted queue answers "".  At most `fuel` rounds are run
     * and None means they ran out.  `route` is the station sequence of the answer.
     */
    method Solve(fuel: nat) returns (answer: Option<string>, ghost route: seq<string>)
      requires Keyed()
      modifies this, Repr
      ensures Valid()
      ensures answer.Some? && route == [] ==> answer.value == "" && queue == multiset{}
      ensures answer.Some? && route != [] ==>
                && IsCompleteRoute(db, start, goal, route)
                && answer.value == Render(db, start, goal, route, PlanFor(db, route))
      ensures answer.Some? && |route| > 2 ==>
                && route == bestPath.chargers
                && (candidateCount == NUM_OF_CANDIDATE || resetCount >= MAX_RESET)
      ensures answer.None? ==> route == []
    {
      var rounds := fuel;
      while |queue| > 0
        invariant Keyed() && fresh(Repr - old(Repr))
        decreases rounds
      {
        if rounds == 0 {
          return None, [];
        }
        rounds := rounds - 1;
        var step, popped, children, added := Round();
        if step.Done? {
          var text := Answer(step.path);
          return Some(text), step.path.chargers;
        }
      }
      return Some(""), [];
    }
  }
}
