# Hospital appointment scheduler, modelled in Dafny

This project models the two scheduling routines of `daaProject.java` and the
three entities they work on.

- **Entities** (`entities.dfy`). A `Resource` is a doctor or a room. It is a
  class whose `availableTime` the allocator updates in place. A `Patient` is a
  value. An `Appointment` is a value created by the allocator; it names its
  doctor and its room by their position in their pool.
- **Greedy allocator** (`allocator.dfy`). `greedyScheduleAppointments` puts the
  patients in a priority queue keyed on arrival time and serves them one at a
  time. For each patient, `findAvailableResource` picks the doctor and the room
  that became free earliest among those free at the patient's arrival, the
  first in pool order on ties. When both exist, both are occupied until
  `arrival + treatmentDuration` and an appointment starting at the arrival is
  appended. Otherwise the patient is dropped.
  - The method `GreedyScheduleAppointments` is proved against the function
    `Schedule`. `Schedule` runs `Step`, one loop iteration on the pools'
    availability times, over the order in which the queue hands out the
    patients. That order is returned as a ghost result and proved to be a
    permutation of the input, sorted by arrival.
  - The properties of the run are lemmas about `Schedule`: every patient is
    booked or dropped, starts follow arrivals, availability is the last claim,
    and there is no double-booking.
- **Optimizer** (`optimizer.dfy`). `optimizeScheduleWithDP` does weighted
  interval scheduling, the weight of an appointment being its duration. It
  sorts the caller's list in place by end time, fills the `dp` and `prev`
  arrays with a quadratic scan, takes the first index of largest `dp`, and
  returns the `prev` chain from there, latest appointment first.
  - The method works on arrays and is proved to return `Optimal`, a function
    of the sorted list.
  - The lemmas about `Optimal` prove the recurrence, that the result is a
    chain, and that it is optimal among chains and among all pairwise
    non-overlapping subsets.
- **Scenarios** (`scenarios.dfy`). The data of the program's entry point is
  worked through `Schedule` and `Optimal`. Two lemmas show that the methods'
  contracts pin the results down on that data: the queue has only one order
  to hand the patients out in, and both orders the sort may leave the tied
  appointments in give the same optimized schedule.

Times and durations are unbounded integers. The priority queue's choice among
patients with equal arrival times is left open: the loop takes any patient of
least arrival.

Where the intended behaviour one might expect differs from what the code does,
the model follows the code:

- An appointment starts at the patient's arrival (`daaProject.java:100`), not
  at the later of the arrival and the resources' availability. The chosen
  resources are free at the arrival, so no overlap follows from this.
- The optimizer on an empty list reads position 0 of the list
  (`daaProject.java:159`) and fails. It does not return an empty list, so
  `OptimizeScheduleWithDP` requires a non-empty list.
- Ties in arrival time are not broken by input order. `PriorityQueue` gives no
  such guarantee, so the model claims none.

## Model

| member | source | states |
|---|---|---|
| Entities.Resource.constructor | daaProject.java:10-13 | a new resource has the given name and is available from time 0 |
| Entities.NewAppointment | daaProject.java:37-43 | the appointment constructor: the treatment runs from the start time for the patient's treatment duration; `StepEffect` and `ScheduleAccountsForEveryPatient` state this of every booking |
| Entities.Duration | daaProject.java:136 | the weight of an appointment, its end minus its start; the total of a set of appointments is the sum of their weights (`TotalDuration`), which `BacktrackIsChain` and `OptimalBeatsConflictFree` are about |
| Allocator.Earliest | daaProject.java:109-121 | the selection yields a resource exactly when some resource is free at the given time; the one it yields is free, no free resource became free earlier, and every free resource before it in pool order became free strictly later (the strict `<` keeps the first on ties) |
| Allocator.FindAvailableResource | daaProject.java:109-121 | the scan over the pool returns none exactly when no resource is free at `currentTime`; otherwise it returns the earliest-free resource, first in pool order on ties, and it equals `Earliest` on the pool's times |
| Allocator.StepEffect | daaProject.java:94-103 | when a doctor and a room are free at the arrival, exactly one appointment is appended and no patient is dropped. The appointment is for that patient, starts at the arrival and ends at arrival + treatment duration. It holds the earliest-free doctor and room, and exactly those two resources become available at its end. Otherwise the patient is dropped, nothing is appended and no availability changes |
| Allocator.Step | daaProject.java:93-103 | one iteration of the drain loop on the availability times; what it does is stated by `StepEffect` |
| Allocator.Schedule | daaProject.java:92-106 | the number of appointments plus the number of drops is the number of patients handed out, so there are never more appointments than patients; the pools keep their sizes (which patients are booked or dropped is `ScheduleAccountsForEveryPatient`) |
| Allocator.Poll | daaProject.java:89-93 | handing out a patient of least arrival keeps the invariant of the drain: handed-out and queued patients are together the input, the handed-out ones are in arrival order, and none arrived after a patient still queued |
| Allocator.Occupy | daaProject.java:98-99 | writing one resource's availability changes that entry of its pool's times and nothing in the other pool |
| Allocator.Serve | daaProject.java:93-103 | one iteration on the live resources does what `Step` does on their times: it returns the appended appointment and the new availabilities, or reports the patient dropped with every availability unchanged |
| Allocator.GreedyScheduleAppointments | daaProject.java:87-107 | the patients are handled in an order that is a permutation of the input sorted by arrival; the appointments, the dropped patients and the final availability of every doctor and room are those of `Schedule` over that order from the initial availabilities |
| Allocator.StepAccounts | daaProject.java:97-103 | one iteration books or drops its patient and every booking starts at the arrival, lasts the treatment and holds a doctor and a room of the pools |
| Allocator.ScheduleAccountsForEveryPatient | daaProject.java:92-106 | over the whole run, the booked patients and the dropped patients together are exactly the handled patients (as multisets), and every appointment starts at its patient's arrival, ends after the treatment and holds a doctor and a room in range |
| Allocator.StepKeepsStartsSorted | daaProject.java:93-100 | appending the booking of a patient who arrived no earlier than every start keeps the starts in order |
| Allocator.ScheduleStartsInArrivalOrder | daaProject.java:89-100 | with patients handled in arrival order, the appointments are listed in nondecreasing start time and none starts after the last handled arrival |
| Allocator.StepTracksLastClaim | daaProject.java:98-100 | after one iteration every resource is still available from the end of the last appointment holding it, or from its initial time |
| Allocator.ScheduleTracksLastClaim | daaProject.java:98-100 | after the run the availability of every doctor and every room is the end of the last appointment holding it, or its initial availability when no appointment holds it |
| Allocator.StepKeepsApart | daaProject.java:98-100 | an iteration keeps appointments with the same resource apart and within its availability, since the resource chosen is free at the arrival, which is the new start |
| Allocator.ScheduleNoDoubleBooking | daaProject.java:98-100 | no double-booking: for nonnegative treatment durations, two appointments holding the same doctor, or the same room, follow one another as half-open intervals, and none ends after the resource's availability; with `ScheduleTracksLastClaim` that availability is therefore the latest end among them |
| Optimizer.Fits | daaProject.java:140 | the compatibility test: appointment `j` ends no later than appointment `i` starts; `ConflictFreeIsChain` relates it to non-overlap |
| Optimizer.Relax | daaProject.java:139-146 | after the inner scan over the earlier appointments, either there is no predecessor and the value is the appointment's duration, with no compatible earlier `dp` positive; or the predecessor is a compatible earlier appointment with positive `dp`, the value is that `dp` plus the duration, no compatible earlier `dp` is larger, and every compatible one before it is strictly smaller |
| Optimizer.DpTables | daaProject.java:135-147 | the outer loop fills exactly one `dp` and one `prev` entry per appointment |
| Optimizer.DpTablesHoldRecurrence | daaProject.java:135-147 | every entry satisfies `dp[i] = duration(i) + max(0, dp[j] over compatible j < i)`, with `prev[i]` the first maximising `j` or -1, and `prev[i]` is -1 or an earlier appointment ending no later than `i` starts |
| Optimizer.TablesLinked | daaProject.java:143 | every `prev` link is -1 or points to an earlier entry, so following the links ends |
| Optimizer.Backtrack | daaProject.java:158-161 | the links followed from `idx` visit positions no later than `idx`, and there are none exactly when `idx` is -1 |
| Optimizer.BacktrackIsChain | daaProject.java:135-161 | the backtrack from `i` starts at `i`, lists earlier and earlier appointments each ending no later than the previous one starts, and its total duration is `dp[i]` |
| Optimizer.ChainWithinDp | daaProject.java:135-147 | no chain of compatible appointments ending with appointment `i` has a total duration above `dp[i]` |
| Optimizer.BestIndex | daaProject.java:151-156 | the argmax is the first index of the largest `dp` entry, and 0 for an empty table |
| Optimizer.Optimal | daaProject.java:149-163 | the optimizer's result on the sorted list: the appointments along the `prev` links from the first index of largest `dp`; `OptimalIsChain`, `OptimalIsBestChain` and `OptimalBeatsConflictFree` state what it is |
| Optimizer.OptimalIsChain | daaProject.java:149-163 | for any durations, the result is non-empty, each appointment ends no later than the one before it starts, and its total duration is the largest `dp` entry |
| Optimizer.OptimalIsBestChain | daaProject.java:135-163 | with no negative durations, no chain of the sorted list, the empty one included, has a larger total duration than the result |
| Optimizer.WithoutEmptyKeepsTotal | daaProject.java:136 | dropping zero-duration appointments from a subset keeps its total duration |
| Optimizer.ConflictFreeIsChain | daaProject.java:126-140 | in a list sorted by end time, pairwise non-overlapping appointments of positive duration are a chain in the sense of the compatibility test |
| Optimizer.OptimalBeatsConflictFree | daaProject.java:124-163 | in a list sorted by end time with no negative durations, no pairwise non-overlapping set of appointments has a larger total duration than the result |
| Optimizer.SwapDown | daaProject.java:126 | one exchange of neighbouring entries in the sort, which changes nothing else and only permutes the list |
| Optimizer.InsertByEndTime | daaProject.java:126 | one insertion step extends the sorted prefix by one appointment and only permutes the list |
| Optimizer.SortByEndTime | daaProject.java:126 | the caller's list is sorted in place by end time and is a permutation of what it was |
| Optimizer.RelaxEntry | daaProject.java:136-146 | the inner loop for appointment `i` leaves in `dp[i]` and `prev[i]` what `Relax` gives over all earlier entries, and changes no other entry |
| Optimizer.FillTables | daaProject.java:128-147 | the nested loops leave in `dp` and `prev` the tables that satisfy the recurrence |
| Optimizer.ArgMax | daaProject.java:151-156 | the argmax loop returns the first index of the largest `dp` entry |
| Optimizer.CollectChain | daaProject.java:150-161 | the backtracking loop collects the appointments along the `prev` links from `idx`, in the order met |
| Optimizer.OptimizeScheduleWithDP | daaProject.java:124-164 | the caller's list ends sorted by end time and is a permutation of the original; the result is the chain from the first index of largest `dp`, which by the lemmas above is an optimal set of compatible appointments |
| Scenarios.AliceFirst | daaProject.java:58-70 | Alice, arriving at 0, takes the first doctor and the first room until 30 |
| Scenarios.BobSecond | daaProject.java:58-70 | Bob, arriving at 15 while they are busy, takes the second doctor and room until 60 |
| Scenarios.CharlieThird | daaProject.java:58-70 | Charlie, arriving at 30 as Alice leaves, takes the first doctor and room again until 60 |
| Scenarios.EntryPointAllocation | daaProject.java:56-70 | the entry point's three patients are all booked, with both pools busy until 60 |
| Scenarios.EntryPointOrderIsForced | daaProject.java:65-67 | the only arrival-sorted order of the entry point's patients is Alice, Bob, Charlie, so the queue has no choice to make |
| Scenarios.EntryPointRunIsDetermined | daaProject.java:56-70 | every order the allocator may hand the entry point's patients out in books them all as above |
| Scenarios.EntryPointTables | daaProject.java:78 | on the entry point's appointments the tables are `dp = [30, 45, 60]` and `prev = [-1, -1, 0]` |
| Scenarios.EntryPointOptimization | daaProject.java:78 | the optimized schedule of the entry point is Charlie then Alice, 60 minutes in all, beating Bob alone |
| Scenarios.EntryPointSortedOrders | daaProject.java:126 | sorted by end time, the entry point's appointments are Alice first, then Bob and Charlie in either order, as they end together |
| Scenarios.SwappedTables | daaProject.java:135-147 | with Charlie sorted before Bob the tables are `dp = [30, 60, 45]` and `prev = [-1, 0, -1]` |
| Scenarios.EntryPointOptimizationIsDetermined | daaProject.java:78 | whichever order the sort leaves the tied appointments in, the optimized schedule is Charlie then Alice |

## Left out

- The entry point's printing, `Appointment.toString` and the message printed for a dropped patient are output only. Dropped patients are returned as a second sequence instead.
- The queue's order among patients with equal arrival times is not modelled. Any least-arrival patient may be handed out, and no claim is made that input order is kept.
- Java's 32-bit `int` is not modelled. Times, durations and sums are unbounded, so overflow of `arrival + treatmentDuration` or of a `dp` sum is not captured.
- Allocator.Earliest: the `Integer.MAX_VALUE` starting value of the scan is replaced by "no resource yet". In the source, a resource available at exactly `Integer.MAX_VALUE` is never picked; here it is picked when the arrival is also that value.
- Appointments name their doctor and room by pool position, not by reference to the live resource object. The two pools are required to hold distinct objects and to share none.
- Allocator.Schedule: the run starts from any initial availabilities, not only the 0 set by the constructor, so the lemmas about it cover both.
- Allocator.ScheduleNoDoubleBooking: proved for nonnegative treatment durations only. With a negative duration a resource's availability falls below earlier end times.
- Optimizer.SortByEndTime: states sorted and permutation but not the stability of Java's list sort. The order among equal end times is left open, and the result is `Optimal` of whatever order the sort leaves.
- Optimizer.OptimizeScheduleWithDP: requires a non-empty list, because the source fails on an empty one.
- Optimizer.OptimizeScheduleWithDP: the result is `Optimal` of whatever order the sort leaves, so when tied chains exist it is not pinned to the one the stable sort selects. For two distinct appointments with the same start and end, either may be returned.
- Optimizer.OptimalBeatsConflictFree: assumes no negative durations. The optimizer's sort provides the sorted order it also requires.
- Re-running the optimizer on its own output returns the same set: this idempotence is not proved.
