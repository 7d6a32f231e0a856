# Charging-station route planner, modelled in Dafny

This project models the route planner of the Tesla charging-station challenge. Given a start and a goal station, the planner searches for a route over the Supercharger network. The car can drive at most `FULL_CHARGE` = 320 km on one charge.

The C++ program has two parts, and the model keeps their form.

- **`Path`** (src/path.cpp, include/path.h) is a route that grows in place. It holds:
  - the visited stations and their set;
  - the hop distances;
  - each station's charge rate;
  - a charge plan: the km of range added at each stop.

  The greedy forward pass `optimize_charge` computes the plan. At each stop it charges either the least that reaches the next stop or the most that fills the battery. `time_cost`, `heuristic_cost` and `to_string` read the route. It is the class `Paths.Path`: the methods change its fields, and the loops are `while` loops with invariants.
- **`PathSolver`** (src/path_solver.cpp, include/path_solver.h) is a best-first search. Its priority queue holds routes keyed by negated heuristic cost. When the queue grows past 10000 entries, the search restarts with a heavier weight on the distance still to drive. Completed routes are compared until 20 candidates have been seen. A direct start–goal route is returned at once. It is the class `Solver.PathSolver`, and its queue is a `multiset<(real, Path)>`.

Files:

- `utility.dfy` (module `Utility`) holds:
  - the constants of include/utility.h;
  - the station table, the distance and the formatter, as one read-only value `Oracle`.

  The table is a sequence of `(name, rate)` records. A rate lookup returns the last record of that name, because the lookup map is filled in table order. Neighbours are the stations within one full charge, in table order.
- `path_spec.dfy` (module `PathSpec`) gives each route computation a value-level meaning, as pure functions:
  - `Plan` / `Run` / `Choose` for the charge plan;
  - `TimeOf` for the time cost;
  - `HeuristicOf` for the heuristic;
  - `Render` / `Token` for the text.

  The properties are proved about these functions.
- `path.dfy` (module `Paths`) holds the class `Path`. Its methods are proved to compute exactly those functions.
- `path_solver.dfy` (module `Solver`) holds the class `PathSolver`. A route of the search (`Queued`) satisfies all of the following:
  - it is duplicate-free;
  - every hop is within one full charge;
  - its rates come from the table;
  - it carries its own plan;
  - it was built for this search's start and goal.

  The search invariant `Valid()` says that the best route and every queued route are such routes. The restart count fixes the weight: `goalWeight == 1.0 + 0.2 * resetCount`. `Keyed()` adds the queue order: every queued key is the negated heuristic cost of its route. A route of the start alone, which only a reset queues, is keyed under the default weight. Any longer route is keyed under the current weight.

Doubles are `real`. `std::numeric_limits<double>::infinity()` as the initial best cost is the `Cost.Infinity` constructor. An exception thrown by `add_charger` is the `AddOutcome` result.

Two behaviours of the code shape the model:

- The restart fires when the *queue size* exceeds `MAX_QUEUE_SIZE`, not when the candidate count does (src/path_solver.cpp:53).
- The search need not terminate: `reset_count_` is only compared with `MAX_RESET` when a completed route is popped, so a search whose queue keeps growing past `MAX_QUEUE_SIZE` without a completed route can restart forever. A search whose queue empties returns "" instead (src/path_solver.cpp:48, 98). `Solve` therefore takes a round budget.

## Model

| member | source | states |
|---|---|---|
| Utility.Max | src/path.cpp:170-171 | `std::max` on two reals: at least both arguments, and equal to one of them |
| Utility.Oracle.Rate | src/utility.cpp:15-29 | the rate of a known station is positive in a valid table |
| Utility.LastRateIsLast | src/utility.cpp:16-24 | the looked-up rate is that of a record with the name, and no later record has that name (the map fill lets later records win) |
| Utility.RateOfLastRecord | src/utility.cpp:15-29 | the same fact for the oracle's `Rate` of a known station |
| Utility.WithinMembers | src/utility.cpp:39-48 | a name is in the neighbour filter of a table iff a record has it and it lies within FULL_CHARGE |
| Utility.Oracle.Neighbors | src/utility.cpp:31-52 | `get_neighbors(n)` of a known station holds exactly the known stations c with dist(n, c) <= FULL_CHARGE, and no more names than the table has records |
| PathSpec.OptimizedIsPlan | src/path.cpp:150-185 | on placeholder amounts (last 0, all 0 below three stations), optimize_charge yields the plan of the hops and rates alone |
| PathSpec.OptimizedIdempotent | src/path.cpp:150-185 | running the pass a second time changes nothing |
| PathSpec.RunPrefix | src/path.cpp:163-184 | the amounts of the first m stops do not depend on later stops |
| PathSpec.PlanChoice | src/path.cpp:163-184 | stop i gets max(0, distance so far − INIT_CHARGE − charge so far) exactly when the next rate is higher or the next stop is the last, and FULL_CHARGE − current level otherwise |
| PathSpec.PlanFirstIsZero | src/path.cpp:163-184 | with INIT_CHARGE == FULL_CHARGE and a first hop in range, nothing is charged at the start |
| PathSpec.ChooseBounds | src/path.cpp:165-181 | one step keeps the amount >= 0, the level after charging <= FULL_CHARGE and the level on arrival >= 0 |
| PathSpec.RunLevel | src/path.cpp:163-184 | with every hop in range, the level on arriving at every stop lies in [0, FULL_CHARGE] |
| PathSpec.PlanWithinBattery | src/path.cpp:163-184 | the battery invariant of the plan: every amount >= 0, the level after charging at stop i <= FULL_CHARGE, and the level on arrival at stop i+1 >= 0 |
| PathSpec.PlanOneStopExample | test/unit_test.cpp:140-148 | hops 268.425 and 179.713 give the plan [0, 128.138, 0] whatever the rates are |
| PathSpec.PlanFiveStopsExample | test/unit_test.cpp:277-286 | the six-hop route of the test gives the plan [0, 268.425, 34.783, 90.828, 320, 61.44, 0] |
| PathSpec.TimeOfUncharged | src/path.cpp:69-92 | with nothing charged, the time cost is the total hop distance over SPEED (0 for the start alone, dist/SPEED for a direct route) |
| PathSpec.TimeOfNonNegative | src/path.cpp:69-92 | non-negative amounts and hops give a non-negative time cost |
| PathSpec.TimeOneStopExample | test/unit_test.cpp:143-148 | the test's one-stop route costs 128.138/108 + 268.425/SPEED + 179.713/SPEED |
| PathSpec.HeuristicCompleteIgnoresWeight | src/path.cpp:129-132 | a completed route's heuristic is its time cost, whatever the weight and goal distance |
| PathSpec.HeuristicWeightMonotone | src/path.cpp:138-141 | a larger goal weight never lowers an unfinished route's heuristic |
| PathSpec.HeuristicAtLeastTime | src/path.cpp:129-144 | with a non-negative weight and goal distance, the heuristic is at least the time cost |
| PathSpec.RenderStep | src/path.cpp:98-116 | the text of the first i+1 stations is that of the first i plus the token of station i |
| PathSpec.RenderPartialEndsWithSeparator | src/path.cpp:102-115 | a route not ending in the goal renders with a trailing ", " |
| PathSpec.RenderCompleteEndsWithGoal | src/path.cpp:98-102 | a route ending in the goal renders ending in the goal's name |
| PathSpec.RenderStartsWithFirst | src/path.cpp:98-100 | the text starts with the first station's name |
| PathSpec.RenderStartOnly | test/unit_test.cpp:85-89 | the start alone renders as "start, " |
| PathSpec.RenderDirect | test/unit_test.cpp:97-104 | a direct route renders as "start, goal" |
| PathSpec.RenderStartStop | test/unit_test.cpp:137-138 | start and one stop render as "start, stop, t, " with t the formatted charge time |
| PathSpec.RenderOneStop | test/unit_test.cpp:150-152 | a one-stop route renders as "start, stop, t, goal" with t the formatted charge time amount/rate |
| Paths.StationAppended | src/path.cpp:49-59 | appending an unvisited known station with a zero placeholder and its rate keeps the route invariant |
| Paths.HopAppended | src/path.cpp:34-37 | a hop within one full charge, appended with its station, keeps the hops matched to the stations |
| Paths.Path.constructor | src/path.cpp:16-28 | a new route holds the start alone: chargers [start], set {start}, plan [0], rates [rate(start)], no hops, goal not reached |
| Paths.Path.Copy | src/path_solver.cpp:91 | the copy has the same field values, and a settled original gives a settled copy |
| Paths.Path.ChargerVisited | src/path.cpp:121-123 | the set lookup is true iff the station is on the route |
| Paths.Path.CurrentCharger | src/path.cpp:125-127 | the last station of a non-empty route, which is one of its stations |
| Paths.Path.NumOfChargers | src/path.cpp:146-148 | the number of stations of a non-empty route, so at least 1 |
| Paths.Path.AddCharger | src/path.cpp:30-67 | the hop is appended first; TooFar iff the hop > FULL_CHARGE, else AlreadyVisited iff the station is visited; on failure the route and set are unchanged and the hops no longer match; on success exactly one station, set member, placeholder (re-planned if it is the goal) and rate are appended, reachedGoal becomes true iff next is the goal, and next is current and visited |
| Paths.Path.Extend | src/path.cpp:49-66 | the success path: appends station, set member, placeholder and rate; for the goal the plan is optimized before reachedGoal is set |
| Paths.Path.OptimizeCharge | src/path.cpp:150-185 | the in-place pass leaves exactly `Optimized(old plan, hops, rates)`: nothing changes below three stations, and the last entry is never written |
| Paths.Path.TimeCost | src/path.cpp:69-92 | re-plans, then returns the sum over the hops of amount/rate + hop/SPEED under the plan; on an already planned route nothing changes |
| Paths.Path.HeuristicCost | src/path.cpp:129-144 | the time cost for a completed route; otherwise time + w·gd/SPEED + gd/AVERAGE_RATE with gd the distance from the last station to the goal |
| Paths.Path.ToString | src/path.cpp:94-119 | the text is `Render`: each name, ", " after every non-goal, and the formatted charge time and ", " after every station that is neither start nor goal |
| Paths.CompletedRoute | src/path.cpp:61-66 | a route that reached the goal is a complete route (start to goal, distinct, all hops in range) and its plan is the plan of its stations |
| Paths.RouteOfPath | src/path.cpp:30-67 | a route whose hops match has exactly the hops, rates and plan of its station sequence |
| Solver.UnvisitedMembers | src/path_solver.cpp:28-34 | the filter keeps exactly the names not yet visited |
| Solver.MaxKeyExists | src/path_solver.cpp:59 | a non-empty queue has an entry of largest key |
| Solver.PathSolver.constructor | src/path_solver.cpp:13-20 | best cost +∞, no candidate, no restart, default weight, best route the start alone, and a queue of one start-only route keyed by its default-weight heuristic |
| Solver.PathSolver.ResetQueue | src/path_solver.cpp:39-45 | the queue becomes exactly one fresh start-only route, keyed by the heuristic under the DEFAULT weight whatever the current weight |
| Solver.PathSolver.Restart | src/path_solver.cpp:53-57 | the weight grows by GOAL_WEIGHT_STEP, the queue is reset, and resetCount grows by one; the search invariant and the queue order hold afterwards |
| Solver.PathSolver.Top | src/path_solver.cpp:59 | returns a queued entry whose key is the largest, that is, a route of least heuristic cost |
| Solver.PathSolver.Pop | src/path_solver.cpp:59-60 | removes exactly one entry, whose negated key is the least queued heuristic cost and is its route's heuristic, under the default weight for the start alone and under the current weight otherwise; the route belongs to this search and the queue order is kept |
| Solver.PathSolver.FindNeighbors | src/path_solver.cpp:22-37 | the neighbours of the route's end, in order, with the visited ones removed: exactly the known stations within one full charge not on the route |
| Solver.PathSolver.Branch | src/path_solver.cpp:91-93 | a fresh copy of the parent extended by the station; add_charger does not fail there; the child belongs to the search, and its cost is its heuristic under the given weight |
| Solver.PathSolver.Spawn | src/path_solver.cpp:91-94 | queues exactly one fresh child of the search: the parent's stations plus the neighbour, keyed by the negated heuristic cost of the child under the current weight |
| Solver.PathSolver.Expand | src/path_solver.cpp:90-95 | queues exactly one entry per station, in order, and nothing else: a fresh child of the search, the parent's stations plus that station, keyed by its negated heuristic cost under the current weight; the parent is not modified |
| Solver.PathSolver.Grow | src/path_solver.cpp:88-95 | the children are the unvisited neighbours of the route's end, in table order; the queue grows by exactly one entry per child, keyed by the child's negated heuristic cost under the current weight; the search invariant and the queue order are kept |
| Solver.PathSolver.Rank | src/path_solver.cpp:73 | heuristic_cost() of a completed, planned route is its time cost and changes nothing |
| Solver.PathSolver.Replace | src/path_solver.cpp:74-75 | the best route becomes a copy with the candidate's stations and plan, and the best cost the given cost |
| Solver.PathSolver.Offer | src/path_solver.cpp:73-76 | the best route and cost are replaced iff the candidate's time is strictly below the best cost; otherwise both are unchanged |
| Solver.PathSolver.Answer | src/path_solver.cpp:68-83 | the text of a route of the search that reached the goal is the rendering of a complete route with its plan |
| Solver.PathSolver.Finish | src/path_solver.cpp:68-86 | a direct route is the answer at once and changes neither the count nor the best route; any other completed route is counted and replaces the best route (stations, plan and cost) iff its time cost is strictly below the best cost, leaving both as they were otherwise; the answer is then the best route exactly at NUM_OF_CANDIDATE candidates or MAX_RESET restarts |
| Solver.PathSolver.Advance | src/path_solver.cpp:68-95 | a completed route is finished as Finish states and leaves the queue as it was: a direct route is the answer and changes nothing else, any other is counted, replaces the best route iff its time cost is strictly below the best cost, and makes the best route the answer exactly at NUM_OF_CANDIDATE candidates or MAX_RESET restarts; an open route gives no answer, leaves the best route, best cost and count as they were, and queues exactly one keyed child per unvisited neighbour, as Grow; the weight and the restart count do not change |
| Solver.PathSolver.Take | src/path_solver.cpp:53-60 | above MAX_QUEUE_SIZE entries: one more restart and weight step, and the start route taken from the reset queue, which is then empty; otherwise counters unchanged and an entry of largest key removed from the queue |
| Solver.PathSolver.Round | src/path_solver.cpp:53-95 | one pass of the loop keeps the search invariant and the queue order and changes no earlier route; after a restart (old queue above MAX_QUEUE_SIZE) the queue is just the new children, otherwise the old queue less the popped top entry plus the new children; the popped route is one of the search; a completed one adds nothing and is finished as in Advance (direct route answered at once; otherwise counted, strict-improvement replacement of the best route, answer exactly at a stop limit); an open one gives no answer, leaves the best route, best cost and count as they were, and queues one keyed child per unvisited neighbour of its end, in table order |
| Solver.PathSolver.Solve | src/path_solver.cpp:47-99 | an exhausted queue answers ""; any other answer is the text of a complete route from start to goal with its plan; an answer with an intermediate stop is the best route at a stop limit |

## Left out

- The great-circle distance (src/utility.cpp:54-84) uses floating-point trigonometry. It is the abstract function `Oracle.dist`, known only to be non-negative. Its symmetry is therefore not modelled.
- The station table (network.h) is not part of this model. The static memoisation caches of `get_charger_record` and `get_neighbors` never change a result, so the lookups are pure functions of the table.
- A lookup of an unknown station throws and is never caught (src/utility.cpp:27). Every such call instead requires `Has(name)`.
- Floating point: doubles are reals, with no rounding and no NaN. The charge-time rendering, `std::ceil(x * 1e5) / 1e5` at fixed precision 5, is the abstract function `Oracle.format`.
- Queue tie-breaking: `std::priority_queue` compares `shared_ptr` values on equal keys. `Top` may return any entry of largest key.
- `shared_ptr` ownership and sharing: queued routes are heap objects and are never mutated after they are queued. `best_path_ = curr_path` is a fresh copy.
- The `curr.first` key read at src/path_solver.cpp:62 is never used, so it is not kept.
- `int` counters and `size()` arithmetic are unbounded integers. The queue is reset above 10000 entries and `candidate_count_` stops at 20. `reset_count_` has no bound in the source, because a search can restart forever; its signed overflow after 2^31 restarts is not modelled.
- Solver.PathSolver.Solve: runs at most `fuel` rounds and answers `None` when they run out. The source's loop need not terminate.
- Solver.PathSolver.Solve: does not state that the answer has the least time cost of the candidates offered. The search invariant does not keep the best cost equal to the best route's time cost; Offer states that relation at each replacement.
- src/main.cpp (argument checking and printing) and src/generate_test.cpp (random test generation, file output) are outside the modelled core.
