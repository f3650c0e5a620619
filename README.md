# Traffic light simulation: planner and rotation, in Dafny

This project models the two pieces of sequential logic in the traffic light
simulation (`main.cpp`). Four lights, ids 0 North, 1 West, 2 South and 3 East,
report car counts.

- **Priority planner.** When every count is zero, the program stops before
  planning. Otherwise it reorders the `(light id, car count)` list in place.
  In single mode it sorts by descending count, ties broken by ascending id.
  In paired mode it puts the North–South pair (lights 0 and 2) or the
  West–East pair (lights 1 and 3) first: the pair with more cars wins (apart
  from the `int` overflow under Findings) and a tie keeps North–South first.
- **Rotation.** One worker per slot of the planned list: 4 slots in single
  mode, 2 in paired mode. The worker whose index is the active slot drives its
  light, or its light and the opposite one, through Green, Yellow and Red. It
  then advances the active slot modulo the slot count and counts a cycle when
  the index wraps to 0. The first completed cycle sets the stop flag. Every
  worker holds the single lock for its whole loop body, so a turn is modelled
  as one atomic step on the shared state.

Modules:

- `Planner` (`planner.dfy`). Entries, the sort comparator, an in-place
  insertion sort over an `array`, the paired-mode swap, and the planner
  method `Plan`. Lemmas state that the sorted order is unique, what the order
  looks like for the initial list, and the two example inputs.
- `Rotation` (`rotation.dfy`). The shared state as a value, one turn as the
  function `Step`, and lemmas about whole runs from the initial state.
- `Simulation` (`simulation.dfy`). The class `Intersection` holds the shared
  globals (`trafficLightStates`, `currentActiveLightIndex`, `cycleCount`,
  `stopSimulation`, plus the planned list and the mode flag). `Turn` is one
  pass of a worker's loop. `Run` is the whole serialised run. `Simulate` is
  the flow of `main` from the counts to the end of the run.

Notes on the code:

- It displays the lights while it still holds the lock. In the model, `Turn`
  returns the snapshots it displays, and `Run` returns those of every turn.
- It plans in place on the shared vector; `Plan` reorders an array in place.

## Model

| member | source | states |
|---|---|---|
| `Planner.NoTraffic` | main.cpp:117 | The all-zero test: when it fails, some light reports a car; for four non-negative counts it holds exactly when the total of the two pair sums is zero |
| `Planner.HigherPriority` | main.cpp:136-139 | The sort comparator: more cars always goes first, a light never goes before one with more cars, and at an equal count the lower id goes first |
| `Planner.HigherPriorityIsStrictTotal` | main.cpp:136-139 | The comparator is irreflexive, asymmetric, transitive and total on distinct entries, so it is a valid strict ordering for `sort` |
| `Planner.SortByPriority` | main.cpp:135-139 | After the in-place sort no entry is followed by one of higher priority, and the array is a permutation of its old contents |
| `Planner.SortedUnique` | main.cpp:135-139 | Two sorted arrangements of the same entries are equal, so the single-mode order is determined by the counts (planning is deterministic) |
| `Planner.PairedOrder` | main.cpp:124-133 | Paired order: a permutation whose first pair has at least as many cars as the second; the only change possible is swapping both pairs; when North–South has at least as many cars (including a tie) nothing moves |
| `Planner.Plan` | main.cpp:116-140 | Returns false and leaves the list unchanged exactly when every count is zero; otherwise paired mode yields `PairedOrder` of the old list and single mode a sorted permutation of it |
| `Planner.SingleOrderOfInitial` | main.cpp:113-139 | For the list built from the counts, any sorted permutation holds each light once with its own count, and its ids are in the single-mode rotation order: a permutation of 0..3, strictly descending count, ties by ascending id |
| `Planner.SingleOrderExample` | main.cpp:135-139 | Counts 3, 3, 1, 0 give the single-mode order North, West, South, East |
| `Planner.PairedOrderOfInitial` | main.cpp:124-133 | For the initial list, slot 0 holds light 1 and slot 1 holds light 0 exactly when West–East has more cars, otherwise 0 then 1; the slots hold lights {0, 1}, the entries two further on are their opposite lights, and the two pairs cover all four lights disjointly |
| `Planner.PairedOrderExample` | main.cpp:124-133 | Counts 1, 5, 1, 5 in paired mode put West–East first: ids 1, 0, 3, 2 |
| `Planner.PairedOrderInt32` | main.cpp:124-133 | The paired choice with 32-bit `int` pair sums only ever swaps both pairs, and agrees with `PairedOrder` whenever neither sum exceeds INT_MAX |
| `Planner.PairedOrderInt32Overflow` | main.cpp:124-130 | With North at INT_MAX and South at 1, the wrapped North–South sum makes the 32-bit choice put West–East (0 cars) first, while `PairedOrder` keeps North–South first |
| `Rotation.Step` | main.cpp:45-81 | A turn keeps the state invariant: all lights Red, active slot in [0, N), cycles in {0, 1}, stop flag set exactly when a cycle has completed, and only at slot 0. It advances the slot by one modulo N and counts a cycle exactly when the slot wraps. The stop flag is set exactly on that wrap |
| `Rotation.TurnShowsOnlyActiveSlot` | main.cpp:45-63 | During a turn, the two displayed snapshots show the active slot's lights Green, then Yellow, and every other light Red. The slot drives one light in single mode and two in paired mode |
| `Rotation.RunFrom` | main.cpp:36-85 | From a running state at slot j, any sequence of workers that each pass their wait and act is j, j+1, … in order. It never goes past the last slot. The final state is stopped with all lights Red exactly when the last slot has acted |
| `Rotation.RunFromInit` | main.cpp:19-85 | From the initial state, the workers that act are 0, 1, … in order, each at most once. Until N turns have run, the next worker can always proceed. After N turns, cycles is 1, the stop flag is set, the active slot is 0 and all lights are Red |
| `Rotation.RestOfRotationAdmissible` | main.cpp:36-85 | From a running state at slot j, the turns of slots j, …, N-1 can all happen one after another |
| `Rotation.FullRotation` | main.cpp:36-85 | One full rotation 0..N-1 can run from the initial state, and it ends in the stopped, all-Red state |
| `Rotation.MayProceed` | main.cpp:39 | The wait predicate: while the run goes on it holds only for the worker whose index is the active slot; once the stop flag is set it holds for every worker |
| `Rotation.StoppedReleasesAll` | main.cpp:39-41 | Once the stop flag is set, every worker's wait predicate holds and the worker leaves its loop without acting |
| `Simulation.Intersection.constructor` | main.cpp:19-24 | The shared state starts with all lights Red, slot 0 active, no cycles and not stopped |
| `Simulation.Intersection.SetColor` | main.cpp:46-51 | Sets the slot's light, and in paired mode also the opposite light, to the colour and leaves the others unchanged |
| `Simulation.Intersection.Turn` | main.cpp:37-85 | A worker whose wait has returned leaves without change if the run is stopped. Otherwise it performs exactly one `Step`, returns the two snapshots it displayed, and keeps the invariant |
| `Simulation.Intersection.Run` | main.cpp:144-155 | The serialised run from the initial state ends stopped with all lights Red. The slots take their turns in planned order, each exactly once. In each turn's two displayed snapshots, that slot's lights are Green, then Yellow, and every other light is Red |
| `Simulation.PairedSlots` | main.cpp:124-133 | In paired mode the planned list is well formed. Its slots are lights 1 then 0 exactly when West–East has more cars, and 0 then 1 otherwise |
| `Simulation.SingleSlots` | main.cpp:135-139 | In single mode the sorted list is well formed and its four slots are in the single-mode rotation order |
| `Simulation.Simulate` | main.cpp:113-157 | No light goes Green exactly when all counts are zero. In paired mode the lit slots are the heavier pair first. In single mode they are all four lights by descending count, ties by ascending id |

## Left out

- Threads, the mutex, the condition variable and `notify_all` are not modelled. Each loop body runs under the one lock, so a turn is one atomic step. The wait is a precondition of `Turn` (the wait predicate holds). Interleavings and the liveness of wake-ups are not modelled. `Run` stands for the workers and the joins: at each point the only worker that can proceed is the active slot's.
- `sleep_for` and the duration constants are left out. They are timing only, and `RED_DURATION` is unused.
- Console output is left out. `displayTrafficLightStates` becomes the colour snapshots that `Turn` returns. The banners and messages are left out.
- The `cin` prompting loops are left out. They yield a mode of 1 or 2 and four non-negative counts. `Simulate` takes the four counts and `paired`, which stands for `greenMode == 2` as at main.cpp:101.
- Car counts are unbounded integers. The 32-bit pair sums in paired mode are modelled only in `Planner.PairedOrderInt32` (see Findings).

## Findings

| source | as written | input that shows it | evidently intended | confidence | as-written member | corrected member |
|---|---|---|---|---|---|---|
| main.cpp:124-130 | The pair sums are `int` additions of counts that can each be as large as INT_MAX, so a sum can exceed the `int` range | North 2147483647, West 0, South 1, East 0 in paired mode. North–South has 2147483648 cars, but its sum wraps to -2147483648, so West–East (0 cars) goes first | The pair with more cars goes first | medium: signed overflow is undefined behaviour in C++, and two's-complement wrap-around is assumed; not executed | `Planner.PairedOrderInt32`, shown by `Planner.PairedOrderInt32Overflow` | `Planner.PairedOrder` |
