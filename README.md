# Homework exercises: edit distance, river crossing, powers of two

A Dafny model of three homework exercises, with proofs of what each promises.

- **Edit distance** (`EditDistance.dfy`, modelling `HW9/hw9.py`).
  - `min_edit_distance` fills an (m+1) x (n+1) table in place and returns its
    bottom-right cell. `MinEditDistance` does the same on an `array2<int>`.
  - It is proved equal to `Distance`, the Levenshtein recurrence written
    recursively on the last letters of both words.
  - `Distance` is tied to an independent meaning of "minimum number of
    operations". An edit script is a sequence of keep, delete, insert and
    replace steps, and `Distance(a, b)` is proved to be the cost of the
    cheapest script that turns `a` into `b`.
- **River crossing** (`RiverCrossing.dfy`, modelling `HW7/river_crossing.py`).
  - A state is the bank, 0 or 1, of the man, the wolf, the goat and the
    cabbage.
  - `IsValid` is `is_valid`, and `NextStates` is `get_next_states`. The
    source's move descriptions become the constructors of `Move`.
  - `BreadthFirstSearch` is the queue-and-visited-set search of
    `solve_river_crossing`. Its inner loop over the successors of the state
    just taken from the queue is the method `EnqueueSuccessors`.
  - The moves of a path are given meaning by `Run`: the state reached by
    making them in order, or `None` when some move is not allowed.
- **Powers of two** (`PowerOfTwo.dfy`, modelling `HW2/power2n.py`).
  - The two recursive definitions, `Power2n2a` and `Power2n2b`, are proved
    equal to `Pow(2, n)`. `Pow` is the `2**n` of the first, shadowed
    definition.
  - The memoised `power2n` is the method `Power2n` of class `Memo`. The class
    holds the 10000-cell `lookup` table as an array field, and an invariant
    says what the filled cells hold.

`Wrappers.dfy` holds the `Option` type.

## Model

| member | source | states |
|---|---|---|
| EditDistance.Min3 | HW9/hw9.py:34-38 | the result is at most each of the three numbers and equal to one of them |
| EditDistance.Script | HW9/hw9.py:1-7 | for any two words, a script turning the first into the second whose cost is exactly their distance |
| EditDistance.ScriptCostAtLeastDistance | HW9/hw9.py:1-7 | every script that turns a into b makes at least Distance(a, b) operations |
| EditDistance.DistanceIsCheapestScript | HW9/hw9.py:1-7 | the distance is the minimum number of operations: some script achieves it and no script does better |
| EditDistance.DistanceSymmetric | HW9/hw9.py:1-7 | the distance from a to b equals the distance from b to a |
| EditDistance.AppendToSource | HW9/hw9.py:34-38 | one more letter at the end of the source word changes the distance by at most one, in either direction |
| EditDistance.AppendToTarget | HW9/hw9.py:34-38 | one more letter at the end of the target word changes the distance by at most one, in either direction |
| EditDistance.DistanceBounds | HW9/hw9.py:17-38 | the distance lies between the difference of the lengths and the larger length |
| EditDistance.DistanceToSelf | HW9/hw9.py:29-30 | every word is at distance zero from itself |
| EditDistance.DistanceStep | HW9/hw9.py:29-38 | the recurrence the table follows, stated on `PrefixDistance` (the distance of the first i and first j letters): it copies the diagonal value when letters i and j agree, and otherwise is one plus the smallest of its three neighbours; MinEditDistance's loop invariant ties each table cell to this value |
| EditDistance.MinEditDistance | HW9/hw9.py:8-41 | the table's bottom-right cell is the Levenshtein distance of the two words; the loop invariants say the boundary cells are i and j and every filled cell holds the distance of the two prefixes |
| EditDistance.HorseToRos | HW9/hw9.py:44-49 | "horse" is at distance 3 from "ros" |
| PowerOfTwo.Power2n2aIsPow | HW2/power2n.py:6-9 | power2n2a(n) is 2^n for every natural n |
| PowerOfTwo.Power2n2bIsPow | HW2/power2n.py:12-15 | power2n2b(n) is 2^n for every natural n |
| PowerOfTwo.Power2n2aEqualsPower2n2b | HW2/power2n.py:6-15 | the two recursive definitions agree on every natural n |
| PowerOfTwo.Memo.constructor | HW2/power2n.py:18-19 | a fresh table of 10000 cells with 1 in cell 0 and nothing in the others, which satisfies the table invariant |
| PowerOfTwo.Memo.Power2n | HW2/power2n.py:21-25 | returns 2^n and keeps the invariant (cell k holds 2^k when filled, cell 0 holds 1); afterwards cells 0..n are filled and the cells above n are unchanged; when cell n was already filled, returns it and leaves the table as it was |
| RiverCrossing.IsValidMeansGoatGuarded | HW7/river_crossing.py:3-9 | a state is safe exactly when the goat is with the man or shares its bank with neither the wolf nor the cabbage |
| RiverCrossing.IsValidExactly | HW7/river_crossing.py:3-9 | a state is safe exactly when it is not one of the six states where wolf and goat, or goat and cabbage, are together without the man |
| RiverCrossing.NextStates | HW7/river_crossing.py:11-35 | at most four successors |
| RiverCrossing.NextStatesSound | HW7/river_crossing.py:11-35 | every listed successor is the state the listed move reaches, the move is allowed, and the successor is safe |
| RiverCrossing.NextStatesComplete | HW7/river_crossing.py:11-35 | every allowed move from a state is listed with the state it reaches |
| RiverCrossing.NextStatesDistinct | HW7/river_crossing.py:16-33 | no move is listed twice |
| RiverCrossing.CrossShape | HW7/river_crossing.py:14-33 | a crossing takes the man to the other bank and moves at most one item, and only an item on the man's bank |
| RiverCrossing.SuccessorShape | HW7/river_crossing.py:14-33 | every listed successor has the man on the other bank and at most one item moved, with him, from his bank |
| RiverCrossing.RunSnoc | HW7/river_crossing.py:50-53 | the step the search takes when it extends a path by one move: the run of the extended path is the run of the path followed by that move when the move is allowed, and fails otherwise |
| RiverCrossing.RunVisitsSafeStates | HW7/river_crossing.py:37-53 | every prefix of a path that can be made from a safe state can be made and ends in a safe state |
| RiverCrossing.RunPrefix | HW7/river_crossing.py:50-53 | every prefix of a path that can be made can be made |
| RiverCrossing.ManAlternates | HW7/river_crossing.py:14 | after k moves the man is on his starting bank exactly when k is even |
| RiverCrossing.StepDirection | HW7/river_crossing.py:66-67 | step i of a path from the starting bank takes the man from bank 0 to bank 1 (printed "->") exactly when i is odd |
| RiverCrossing.RunThrough | HW7/river_crossing.py:50-53 | a sequence of moves, each allowed in the state the previous one reached, runs to the last of those states |
| RiverCrossing.SevenMoveSolution | HW7/river_crossing.py:37-39 | goat over, back alone, wolf over, goat back, cabbage over, back alone, goat over takes everything from bank 0 to bank 1 |
| RiverCrossing.ClosedHoldsReachable | HW7/river_crossing.py:44-55 | a set of states that holds the start and all successors of its members holds every state reachable from the start |
| RiverCrossing.NewEntriesSound | HW7/river_crossing.py:50-53 | every entry the inner loop enqueues holds a state not visited before, and its path is the current path extended by one listed move to that state |
| RiverCrossing.NewEntriesComplete | HW7/river_crossing.py:50-53 | every listed successor not visited before is among the states the inner loop enqueues |
| RiverCrossing.NewEntriesDistinct | HW7/river_crossing.py:50-53 | the inner loop enqueues no state twice |
| RiverCrossing.AppendKeeps | HW7/river_crossing.py:50-53 | enqueueing the new entries of any list of allowed moves out of the state being expanded keeps the inner search invariant |
| RiverCrossing.EnqueueSuccessors | HW7/river_crossing.py:50-53 | the new queue is the old queue followed, in the order of `get_next_states`, by one entry for each successor not yet visited, with the path extended by its move; visited gains exactly those successors; afterwards every allowed move out of the state lands in visited, and the search invariant holds with the state done |
| RiverCrossing.BreadthFirstSearch | HW7/river_crossing.py:41-55 | a returned path runs from start to goal and no path is shorter; None only when no path reaches the goal; at most sixteen entries are taken from the queue |
| RiverCrossing.SolveRiverCrossing | HW7/river_crossing.py:37-55 | a path taking everything from bank 0 to bank 1 is always returned; it is a shortest one, of at most seven moves, and every state on the way is safe |

## Left out

- `HW10/hw10.py` is not part of this model. Its midpoint Riemann sum and Monte Carlo integration are floating-point numerics, and Monte Carlo draws from a random number generator.
- The printing code is left out because it is output only. That covers `print_solution`, the `__main__` block of HW7/river_crossing.py and the example printout of HW9/hw9.py. The "->"/"<-" rule that `print_solution` applies is stated by `RiverCrossing.StepDirection`, and the horse/ros example by `EditDistance.HorseToRos`.
- The text of the move descriptions in `get_next_states` is replaced by the four constructors of `Move`; the text carries no behaviour.
- PowerOfTwo.Memo.Power2n requires 0 <= n < 10000. For n >= 10000 and n < -10000 Python raises IndexError at line 22. For -10000 <= n < 0, Python's negative index reads cell 10000 + n, and the recursion runs down to n = -10000, whose cell is cell 0. That call returns 2^(10000 + n) and fills cells up to 10000 + n; for example power2n(-9998) returns 4. Negative arguments are not modelled. Python's recursion-depth limit, which raises RecursionError on a call that recurses deeper than it, is not modelled either.
- PowerOfTwo.Power2n2a and PowerOfTwo.Power2n2b take a natural number. On a negative n, `power2n2a` and `power2n2b` (HW2/power2n.py:6-15) never reach the base case 0, so they recurse until Python raises RecursionError.
- PowerOfTwo.Memo: the module-level `lookup` list becomes the array field of a `Memo` object. The invariant also requires the filled cells to form a prefix of the table, which holds from the initial table on.
- RiverCrossing.BreadthFirstSearch: the search takes its start and goal as parameters, which `solve_river_crossing` fixes as (0,0,0,0) and (1,1,1,1).
- RiverCrossing.BreadthFirstSearch: the deque is modelled as a sequence, taken from the front and appended at the back. The number of entries taken from the queue is a ghost out-parameter.
- RiverCrossing.SolveRiverCrossing states that the solution has at most seven moves, not exactly seven. That no six-move solution exists is not proved.
- RiverCrossing.NextStatesComplete states membership of each allowed move in one direction; the other direction is `RiverCrossing.NextStatesSound`.
