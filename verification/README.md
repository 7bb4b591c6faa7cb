# Ride-hailing server: a verified model

A Dafny model of the ride-hailing server and its client, with proofs of what the system
keeps over every run, every interleaving and every way the network may cut up its bytes.
`dafny verify dfyconfig.toml` checks all of it.

The four parts:

- **The grid.** `GridMap` holds the map. `AStar` is the search of `get_next_step_astar` on
  values, `SearchOptimality` what it establishes, `SearchBounds` how far it goes,
  `SearchLoop` the loop in place, and `StepChooser` the greedy step that is returned. The
  search is proved optimal, its exhaustion sound, and, given enough steps and buffer,
  decisive, in spite of duplicate entries and of closed cells that are expanded again. The
  source throws its result away and steps greedily, so the step is characterised on its
  own, and `GreedyWalk` shows where such steps lead.
- **The fleet.** `Fleet` gives the shared state and its four critical sections as
  functions on values; `SharedState` is the block of shared memory with the code that
  changes it in place, proved to compute them. `Dispatch`, `FleetInvariants`, `FleetRuns`,
  `DriverTicks`, `RideEndings` and `RateLimit` hold the theorems over single choices, ticks
  and whole runs. `CriticalSections` splits the sections into small steps, `Locking`
  interleaves them under the mutex, and `LateReads` is about what is read after it.
- **The cryptography.** `DhCrypto` (modular exponentiation, key agreement, the derived
  key), `Rc4` (the cipher), `Rc4Vector` (the first bytes of a published vector of it),
  `Checksum` (the folded byte sum), `Bytes` (exclusive or and little-endian integers).
- **The session.** `Wire` moves whole buffers over a pipe that may take or give any part
  of them, interrupt a call, or fail. `Protocol` is the packet format and how a stream is
  taken apart. `Session` is both ends on values, with the end-to-end theorem; `Endpoints`
  is both ends in place, proved to do what `Session` says. `Conversation` and
  `ConversationEnds` run both ends at once over two channels with reads that block.
  `RideReplies` joins the session to the fleet: from the driver chosen to the client's
  return code.

Conventions. Positions are exact integers, offsets from the base corner in units of 1e-4
degree; five of them make a grid cell, and a cell is found by C's truncation toward zero.
Ratings are in tenths; distances are compared squared. Every result of `rand()` and
`time()` is a parameter, so the theorems hold for all of them. A method that changes state
in place is proved against a function on values, and the theorems are about the function.

Where the code and its documentation differ, the model follows the code:

- The packed header is 9 bytes (4 + 1 + 2 + 2); the repository's README shows 12.
- The VIP test is `client_id <= 10`, so zero and negative ids are VIPs too; the README
  says 1 to 10.
- The header file says the step is the start when the target cannot be reached, and the
  README promises obstacle avoidance by A*. The step returned is the best free neighbour:
  it comes closer exactly when a free neighbour lies on the target's side
  (`StepApproachesIffUnblocked`), and otherwise walks away. A target that no path leads to
  is stepped towards all the same (`UnreachableTargetIsSteppedTowards`), and a ride can
  circle for ever, unless the 20 percent early end occurs. `NeverEndsIffTrapped` says exactly which rides
  do, by a condition on the map, the place and the target that takes at most 822 steps to
  check. `CityRideThatNeverEnds` gives one on the city map, and `TrapHasAWayOut` a path of
  37 steps to its target.
- The rate limiter counts unbroken runs of calls in a second, not the calls made in it, and
  the clock is read before the lock is taken, so that a late reading can break a run.
  `BlockedIffRun` says exactly what is blocked for any readings, `AllowedByRuns` what is let
  through, and `PromiseKeptIff` when that is at most three calls a second, as it is for
  readings in lock order (`AllowedIsCapped`). `LateReadingSlipsThrough` shows one that is
  not.
- The dispatch log line loads the driver's target after the unlock, latitude and longitude
  one after the other. `LateTargetRead` says whose draw either load finds, when the pair is
  the section's own, and when its halves are one ride's. `LateTargetReadIsNotStable` shows
  a pair that is a later ride's. Two others are no ride's at all: in `TornTargetRead` both
  loads fall between the two writes of a section, in `MixedTargetRead` a whole section
  comes between the loads. The fields of the reply are stable, whenever each of them is
  loaded (`LateReadsAreStable`, `LateReplyIsTheReply`).

## Model

| member | source | states |
|---|---|---|
| GridMap.InitMapObstacles | src/server/pathfinding.c:21-37 | The loops over the grid array leave exactly the river and the two buildings, whatever was there before. |
| GridMap.CityIsAsDrawn | src/server/pathfinding.c:21-42 | A cell of the city is an obstacle exactly where its drawing, row by row, has a wall. |
| GridMap.CellOfPlace | src/server/map_monitor.c:39-40 | Rows and columns are five offsets wide, except the first, which also has the offsets -4 to -1. |
| GridMap.ClampIsNearest | src/server/pathfinding.c:50-62 | Clamping takes any cell to the nearest one of the grid. |
| AStar.HeuristicAlongPath | src/server/pathfinding.c:45-47 | The Manhattan estimate falls by at most one per step of a free path (consistency). |
| SearchOptimality.LowestIsLeast | src/server/pathfinding.c:81-91 | The selected entry has the least score, is the first with it, and scores below 999999; -1 means none does. |
| SearchOptimality.TakenHasLeastEstimate | src/server/pathfinding.c:81-91 | Of entries made by the search, the one taken has the least sum of its cost and its Manhattan distance to the target, and is the first that has it. |
| SearchOptimality.FrontierOnPath | src/server/pathfinding.c:80-124 | While nothing was dropped, every free path to a cell that is not closed has an open entry on it that costs no more than the path up to there. |
| SearchOptimality.FirstTakenIsShortest | src/server/pathfinding.c:84-97 | The first entry taken for a cell carries the length of a shortest path to it, duplicates notwithstanding. |
| SearchOptimality.PassKeepsInvariant | src/server/pathfinding.c:93-123 | One pass (removal by swap with last, closing, pushing) keeps the invariant, for first and repeated expansions alike. |
| SearchOptimality.SearchIsOptimal | src/server/pathfinding.c:64-124 | For every map, cells, buffer and budget: a cost found is that of a real path; with nothing dropped it is the shortest; and an exhausted open list with nothing dropped means no path exists. |
| SearchBounds.NoCandidateIsUnreachable | src/server/pathfinding.c:91 | On any map with width * height + width + height up to 999999, the "no candidate" break is never taken, whatever the budget. |
| SearchBounds.OpenListFits | src/server/pathfinding.c:66-67 | The open list never exceeds its buffer, and nothing is dropped when the buffer holds 3 * steps + 1 entries. |
| SearchBounds.SearchSettles | src/server/pathfinding.c:78-80 | The loop ends by itself: a step budget computed from the open cells, the entries and the stale entries is never used up. |
| SearchBounds.SearchDecidesReachability | src/server/pathfinding.c:64-124 | With enough steps and buffer the search either finds the shortest length or no path exists. |
| SearchLoop.FindLowest | src/server/pathfinding.c:81-89 | The scan over the buffer returns the index the specification selects. |
| SearchLoop.ExpandNeighbours | src/server/pathfinding.c:103-123 | The neighbour loop, with its early break on a full buffer, leaves the open list the specification gives. |
| SearchLoop.Search | src/server/pathfinding.c:64-124 | The loop over the open buffer and the closed matrix has the outcome of the search on values. |
| StepChooser.NextStepIsGreedy | src/server/pathfinding.c:126-151 | The step is the start exactly at the target or when walled in; otherwise the first free neighbour of least distance. |
| StepChooser.StepInCoordinates | src/server/pathfinding.c:126-151 | The same in coordinates: up, down, left and right are tried in this order, and the first free cell with the least distance is the step. |
| StepChooser.StepApproachesIffUnblocked | src/server/pathfinding.c:126-151 | A step changes the distance by one, and shortens it if and only if a neighbour on the target's side is free. |
| StepChooser.GetNextStep | src/server/pathfinding.c:50-152 | The returned cell is the greedy step from the clamped start cell to the clamped target cell, whatever the search, its buffer and its budget do. |
| GreedyWalk.StepSettlesOrDescends | src/server/pathfinding.c:126-151 | A step stays, steps into a cell that steps straight back, or comes nearer by rows first, then by whether the next row is open, then by columns. |
| GreedyWalk.WalkSettles | src/server/pathfinding.c:126-151 | From every free cell of every map, repeated steps reach the target, a walled-in cell, or two cells that step to each other, within a bound read off the start. |
| SharedStateBlock.SharedState.constructor | src/server/server_main.c:118-152 | A fresh block: the first n drivers set up as drawn, every other slot and counter zero. |
| SharedStateBlock.SharedState.FindDriverBasic | src/server/dispatch_algorithms.c:14-29 | The loop returns the index `Nearest` selects. |
| SharedStateBlock.SharedState.FindDriverSmart | src/server/dispatch_algorithms.c:32-55 | The VIP pass and its fallback return the index `ChooseSmart` selects. |
| Dispatch.NearestIsNearest | src/server/dispatch_algorithms.c:14-29 | -1 if and only if no driver is a candidate; otherwise the lowest index among the nearest candidates. |
| Dispatch.NearestInCoordinates | src/server/dispatch_algorithms.c:9-29 | The chosen driver is free, fuelled, rated 4.8 or better if that is asked, and has the least sum of squared offsets, strictly less than that of any such driver before it; -1 if and only if there is none. |
| Dispatch.ChoiceIsNearest | src/server/dispatch_algorithms.c:32-55 | A VIP in smart mode gets the nearest candidate rated 4.8 or more whenever there is one; every other request the nearest candidate; nobody only when there is none. |
| Dispatch.RequestInCoordinates | src/server/ride_service.c:19-30 | A client with an id up to 10, outside mode 0, gets the nearest driver rated 4.8 or better if there is one; everyone else the nearest; the answer carries that driver's id, rating and squared distance from the base, and says SMART exactly in mode 1. |
| SharedStateBlock.SharedState.HandleRideRequest | src/server/ride_service.c:13-74 | The critical section has exactly the effect of `Ride`, and the reply carries the chosen driver's id, rating, distance and mode as it was chosen, or says that nobody was found. |
| SharedStateBlock.SharedState.CheckAndUpdateRateLimit | src/server/resource_service.c:59-87 | The two arrays change as `RateCheck` says, ids outside 1..1999 change nothing, and the verdict is read off the new count. |
| SharedStateBlock.SharedState.ProcessDriverJoin | src/server/coordinator.c:199-210 | A free slot is taken into use with id, availability and full tank; a full fleet is left alone. |
| SharedStateBlock.SharedState.TickOne | src/server/map_monitor.c:36-121 | One pass of the loop body changes the one driver as `TickDriver` says and no other. |
| SharedStateBlock.SharedState.MonitorTick | src/server/map_monitor.c:34-122 | The whole tick ticks every driver in use once and nothing else. |
| FleetInvariants.OnMapOffsets | src/server/map_monitor.c:39-43 | Being on the map is being inside an open rectangle of offsets, with -4..-1 in the first row and column. |
| FleetInvariants.ZombieBranchIsDead | src/server/map_monitor.c:91-95 | The failsafe for a busy driver without a target never fires. |
| FleetInvariants.WalkStaysOnMap | src/server/map_monitor.c:109-120 | A driver without a ride drifts to the place drawn, or stays when that is a wall or off the map. |
| FleetInvariants.RideStep | src/server/map_monitor.c:98-108 | For a driver on a ride the clamping changes nothing, the cell the stuck test compares with is its current one, and it gets stuck or steps to one free neighbour. |
| FleetInvariants.ArrivalRule | src/server/map_monitor.c:50-59 | A ride arrives within a hundredth of a degree of its target, or on a roll below 20 of 100. |
| FleetInvariants.TickPlace | src/server/map_monitor.c:42-120 | Where every tick leaves a driver: on a ride that goes on, at the corner of the next cell; stuck, where it was; otherwise at the base after a respawn, at the target after an arrival, or where it was, shifted by the drift drawn unless that ends on a wall or off the map. |
| FleetInvariants.RespawnOverATick | src/server/map_monitor.c:42-89 | A driver on a wall or off the map comes out available with the fuel it has, or refuelling if it has none. |
| FleetInvariants.NobodyIsLeftIdle | src/server/map_monitor.c:91-95 | Whatever state a driver is in, after the failsafe it is not busy without a ride. |
| FleetInvariants.TickDriverOk | src/server/map_monitor.c:36-121 | A tick keeps a driver in exactly one mode with fuel in 0..10 and puts it on the map; it never starts a ride and ends one exactly by respawn, arrival or getting stuck; a continuing ride has moved one cell, to a free one. |
| FleetInvariants.FuelOverARideTick | src/server/map_monitor.c:49-89 | A ride tick burns at most one unit; an arrival on an empty tank turns into refuelling at once, a stuck ride does not. |
| FleetRuns.FreshDriver | src/server/server_main.c:118-150 | A fresh fleet's ids, places, tanks and ratings: ids from 1001, offsets 0 to 99, 4.9 or 5.0 for the first two drivers, 3.5 to 4.9 for the others, each as drawn. |
| FleetRuns.FirstVipIsServedWell | src/server/dispatch_algorithms.c:36-50 | In a fresh fleet in smart mode the first VIP gets a driver rated 4.8 or better, whatever was drawn. |
| FleetRuns.RideInFull | src/server/ride_service.c:30-55 | All that a request changes, field by field: the chosen driver is taken, one ride up, one unit of fuel down and bound for the target drawn; the counters go up by one and the revenue by 150 for a VIP and 100 otherwise. |
| FleetRuns.JoinInFull | src/server/coordinator.c:203-210 | All that a join changes: the next slot gets an available driver with that id and a full tank, unrated and at zero degrees; a full fleet stays as it is. |
| FleetRuns.RideKeepsSound | src/server/ride_service.c:30-46 | A request keeps the state sound; only an available driver with fuel is assigned, and it comes out navigating, one unit of fuel down, with a target on the map. |
| FleetRuns.ReachableStatesAreSound | src/server/map_monitor.c:42-95 | In every state of every run each used driver is in exactly one of the three modes, fuel is 0..10 (even and at least 2 while refuelling), and every unused slot is still zero. |
| FleetRuns.EveryTickLeavesDriversOnMap | src/server/map_monitor.c:98-120 | After any tick of any run every driver is in bounds, and every driver still on a ride is on a free cell. |
| FleetRuns.NobodyFoundMeansNobodyFree | src/server/ride_service.c:22-30 | In a sound state a request finds nobody if and only if no available driver has fuel. |
| FleetRuns.ApplyKeepsSlots | src/server/coordinator.c:204-209 | No critical section changes the id or rating of a used slot, gives a slot back, or changes the dispatch mode. |
| FleetRuns.BooksBalance | src/server/ride_service.c:33-55 | Over every run, for each driver: rides = rides ended + at most one underway; in all: successes = handled = ended + underway, and revenue = 100 * successes + 50 * VIP successes. |
| RideEndings.RequestsSkipBusyDrivers | src/server/dispatch_algorithms.c:18-26 | A ride request never touches a driver that is not available. |
| RideEndings.RideIsOnIff | src/server/map_monitor.c:36-108 | For any dice: after n ticks a ride is still on if and only if none of them rolled the early end and its walk has not stopped (on a wall, near the target, at its cell, walled in); then the driver is at the corner of the n-th cell of its walk. |
| RideEndings.NeverEndsIffTrapped | src/server/map_monitor.c:98-108 | Without the early end a ride never ends if and only if its walk, before it stops, comes to two free cells out of range of the target that step to each other; which is if and only if it has not stopped after 822 ticks. |
| RideEndings.RiderFollowsTicks | src/server/map_monitor.c:34-122 | Rides, joins and rate checks between the ticks change nothing for a driver on a ride. |
| RideEndings.FleetRideIsOnIff | src/server/map_monitor.c:34-122 | Both conditions, for any driver on a ride in any run of the fleet from a fresh start. |
| RideEndings.UnblockedRideEnds | src/server/map_monitor.c:98-107 | In any run, a driver that can come closer wherever its walk takes it ends its ride within distance + 1 ticks. |
| RideEndings.CityRideThatNeverEnds | src/server/map_monitor.c:52-59 | On the city map a fresh fleet's first request can start a ride that, but for the early end, never ends, whatever requests, joins, rate checks and ticks follow. |
| RideEndings.TrapHasAWayOut | src/server/pathfinding.c:21-37 | Yet the target of that ride is 37 free steps away. |
| RideEndings.UnreachableTargetIsSteppedTowards | src/server/pathfinding.c:126-151 | A ride can draw a target in the river: no path leads there, and the step returned is not the start but a step towards it. |
| DriverTicks.RefuellingTakesSixTicks | src/server/map_monitor.c:75-89 | An idle driver with an empty tank on a free cell gains 2 a tick and is available with a full tank after exactly six ticks. |
| DriverTicks.RespawnCutsRefuelling | src/server/map_monitor.c:42-46 | A refuelling driver standing on a wall cell is made available with the fuel it has. |
| RateLimit.StartIsFresh | src/server/server_main.c:118-122 | A fresh block is one from which the following hold. |
| RateLimit.ArraysHoldTheRun | src/server/resource_service.c:70-77 | The two arrays hold, per client, the second of its last call and the number of its latest calls in that second without a break. |
| RateLimit.BlockedIffRun | src/server/resource_service.c:59-87 | For any clock readings: a call is blocked if and only if at least the client's last three calls were in the same second as it. |
| RateLimit.BlockedIffThreeInSecond | src/server/resource_service.c:59-87 | When the client's readings do not go back: blocked if and only if it already made three calls in that second. |
| RateLimit.AllowedByRuns | src/server/resource_service.c:70-82 | For any clock readings: of the calls in a second, the smaller of three and the length is let through of each unbroken run. |
| RateLimit.PromiseKeptIff | src/server/resource_service.c:79-82 | For any clock readings: at most three calls in a second are let through if and only if no more were made or all were made in one unbroken run. |
| RateLimit.AllowedIsCapped | src/server/resource_service.c:79-82 | When the readings do not go back: exactly the smaller of three and the number made are let through in a second. |
| RateLimit.LateReadingSlipsThrough | src/server/resource_service.c:65-68 | A fourth call in the same second is let through after a later reading in between. |
| RateLimit.RunLimitsByCallsAlone | src/server/resource_service.c:68-84 | Over a whole run of the system, rides, joins and ticks leave the limiter's arrays alone. |
| CriticalSections.StartHeadsForApply | src/server/ride_service.c:17-57 | Each section, split into steps of one field or one driver stage, sets out for its atomic effect and result. |
| CriticalSections.MicroKeepsHeading | src/server/map_monitor.c:34-122 | No single step of any of the four sections changes what state and result it is heading for. |
| CriticalSections.MicroKeepsSlots | src/server/coordinator.c:203-210 | Not even halfway through a section is the id or rating of a slot changed that was in use before it. |
| CriticalSections.MicroDescends | src/server/ride_service.c:17-57 | Every step of a section lowers a bound on the steps to come, which starts at 1281 or less. |
| CriticalSections.MicroKeepsTargets | src/server/ride_service.c:42-49 | Halfway through a section every slot's target is the one before it, but for the halves that the section itself has drawn and written. |
| Locking.NextKeepsSerial | src/server/ride_service.c:17-57 | Every step of any thread (request, lock, section step, unlock, report) keeps the shared state on course for the serial run in lock order. |
| Locking.EveryExecutionIsSerialisable | src/server/ride_service.c:17-63 | In every execution: whenever the mutex is free the shared state is that of the sections run one by one in lock order, no two threads are inside at once, and each result is the serial one. |
| Locking.FreeStatesAreSoundAndBalanced | src/server/map_monitor.c:34-122 | So the modes, the fuel range, the zeroed slots and the books hold at every moment the mutex is free. |
| Locking.LateReadsAreStable | src/server/ride_service.c:57-63 | The id, rating and mode read for the reply after the unlock are those of the section, whatever other threads have done or are doing. |
| Locking.HolderCanMove | src/server/ride_service.c:17-57 | In every reachable state the thread that holds the mutex can take its next step or unlock. |
| Locking.MutexIsFreed | src/server/ride_service.c:17-57 | However the threads are scheduled, the mutex is free again within 1281 + 2 * threads + 1 transitions. |
| Locking.AnySectionCanRun | src/server/ride_service.c:17-57 | Whenever the mutex is free, any idle thread can run any section next, with its serial effect and result: every serial order is an execution. |
| LateReads.TargetIsLastDraw | src/server/ride_service.c:42-49 | Over any serial run the target of a slot is the draw of the last request that chose it. |
| LateReads.LateTargetRead | src/server/ride_service.c:65-66 | Latitude loaded at one position of an execution after the unlock, longitude at another, in either order, whoever is inside: each is the draw of the last section in the log that chose the driver and has written that half; the pair is the section's own if and only if those draws are, and the halves are one ride's if and only if `OneRidesHalves`, a condition on the writes between the loads. |
| LateReads.SourceOverTrace | src/server/ride_service.c:48-49 | From one position of an execution to a later one, the section a half comes from never goes back, and changes exactly if that half is written in between. |
| LateReads.FreeLoadsAgreeIff | src/server/ride_service.c:65-66 | With the mutex free at both loads the halves are one ride's if and only if no section that took the lock in between chose the driver. |
| LateReads.LateTargetReadIsNotStable | src/server/ride_service.c:65-66 | An execution with the first thread still to log, in which both loads would find the target of a later ride. |
| LateReads.TornTargetRead | src/server/ride_service.c:65-66 | One in which loads in one and the same state would find a later ride's latitude and its own longitude, a section standing between its two writes. |
| LateReads.MixedTargetRead | src/server/ride_service.c:65-66 | And one with the mutex free at both loads, in which they find its own latitude and then a later ride's longitude. |
| DhCrypto.PowerMod | src/common/dh_crypto.c:17-26 | For every base and exponent and 1 < mod <= 2^31: the C remainder of the power (1 for a negative exponent), every product within signed 64 bits. |
| DhCrypto.PowerRemIsCongruent | src/common/dh_crypto.c:17-26 | That remainder is congruent to the power, and the least residue for a base that is not negative. |
| DhCrypto.CalculatePublicKey | src/common/dh_crypto.c:34-36 | The generator to the private key, modulo the prime. |
| DhCrypto.CalculateSharedSecret | src/common/dh_crypto.c:39-41 | The other side's key to the private key, modulo the prime, for any 64-bit key received. |
| DhCrypto.FirstPublicKeys | src/common/dh_crypto.c:34-36 | The public keys for private keys 1, 2 and 3 are 16807, 282475249 and 1622650073. |
| DhCrypto.SecretsAgree | src/common/dh_crypto.c:34-41 | Both sides compute the same shared secret, for all private keys. |
| DhCrypto.DeriveSessionKey | src/common/dh_crypto.c:44-46 | The buffer holds the whole derived text as a C string, for every 64-bit secret. |
| DhCrypto.SessionKeyText | src/common/dh_crypto.c:44-46 | The text is "KEY_", a decimal numeral without superfluous zeros that reads back as the secret, with a minus sign if that is negative, and "_SECURE". |
| DhCrypto.SessionKeyFits | src/common/dh_crypto.c:44-46 | The text has at most 31 characters, so 64 bytes never cut it short. |
| DhCrypto.SessionKeyIsUsable | src/common/dh_crypto.c:44-46 | The text is not empty, ASCII, and free of NUL, as the cipher needs. |
| DhCrypto.SessionKeyIsInjective | src/common/dh_crypto.c:44-46 | Different secrets give different keys. |
| Rc4.InitState | src/common/net_wrapper.c:158-174 | The in-place key schedule leaves the scheduled state. |
| Rc4.KeyEntersSchedule | src/common/net_wrapper.c:168-173 | Two keys that first differ in what round n reads, n up to 255, have equal schedules before that round and different indices j after it. |
| Rc4.KeyCharacterEnters | src/common/net_wrapper.c:168-173 | So it is for two keys that first differ in a character inside both. |
| Rc4.StateIsPermutation | src/common/net_wrapper.c:163-186 | After key scheduling and any number of outputs the state holds each of 0..255 exactly once. |
| Rc4.Rc4Crypt | src/common/net_wrapper.c:157-194 | The first len bytes become their exclusive or with the keystream; the rest of the buffer is untouched. |
| Rc4Vector.KeystreamOfKey | src/common/net_wrapper.c:157-194 | Under the key "Key" the keystream begins EB 9F 77, as the published vector of the cipher has it. |
| Rc4Vector.PlaintextUnderKey | src/common/net_wrapper.c:157-194 | Under it "Pla" encrypts to BB F3 16. |
| Rc4.CryptIsInvolution | src/common/net_wrapper.c:179-193 | Applying the cipher twice with the same key restores the data. |
| Rc4.CryptOfPrefix | src/common/net_wrapper.c:179-193 | Encrypting a prefix gives the prefix of the encryption. |
| Rc4.KeystreamIgnoresData | src/common/net_wrapper.c:179-193 | The keystream is the same whatever the data. |
| Checksum.CalculateChecksum | src/common/protocol.c:15-30 | The summing and folding loops end and compute the checksum of the buffer, with the sum kept in 32 bits. |
| Checksum.FoldIsResidue | src/common/protocol.c:24-27 | Folding gives the sum modulo 65535, with zero kept apart from its multiples. |
| Checksum.ChecksumCompletesSum | src/common/protocol.c:15-30 | For up to 1024 bytes: the checksum brings the byte sum to a multiple of 65535, and is 65535 itself if and only if every byte is zero. |
| Checksum.ChecksumsAgreeIff | src/common/protocol.c:15-30 | Two buffers of up to 1024 bytes have equal checksums if and only if their byte sums agree modulo 65535 and are both zero or both not. |
| Checksum.SingleByteChangeIsSeen | src/common/protocol.c:15-30 | Changing one byte always changes the checksum. |
| Checksum.BalancedChangeIsNotSeen | src/common/protocol.c:15-30 | Moving value from one byte to another, such as a swap, never does. |
| Bytes.BitOfXor | src/common/net_wrapper.c:188-191 | Each bit of an exclusive or is one if and only if the two bits differ. |
| Bytes.DecodeEncode | src/common/include/protocol.h:22-27 | Little-endian fields come back from their bytes. |
| Wire.SendN | src/common/net_wrapper.c:105-121 | All of the buffer goes out, in order, whatever the partial writes and interrupts; on failure a proper prefix has. |
| Wire.RecvN | src/common/net_wrapper.c:130-148 | Exactly n of the bytes still to arrive, or all there are before the end of the stream, land in the buffer in order; the rest of the buffer and of the stream is untouched. |
| Protocol.HeaderRoundTrip | src/common/include/protocol.h:22-27 | A packed 9-byte header comes back unchanged. |
| Protocol.HeaderLayout | src/common/include/protocol.h:22-27 | The nine bytes of a header: length, type, opcode and checksum, low bytes first. |
| Protocol.FrameAcceptsIff | src/server/dispatcher.c:113-123 | With a whole header there, a message is taken if and only if its length field is at most 1024 and that many bytes follow; it is then exactly those bytes, and the rest of the stream is what comes after. |
| Protocol.ShortHeaderIsCompleted | src/server/dispatcher.c:114-117 | A header that the end of the stream cuts short is taken as if the bytes left in its buffer had come. |
| Protocol.FramesComeBack | src/server/dispatcher.c:113-123 | Any sequence of messages with bodies up to 1024 bytes comes apart from its byte stream identical and in order, whatever the buffers held. |
| Session.RequestFields | src/client/client_core.c:117-123 | A request is 24 bytes: the client's id, 1 for a VIP (an id up to 10) and 0 otherwise, and the coordinates. |
| Session.HandshakeLayout | src/client/client_core.c:60-68 | The bytes of the two handshake messages, whose bodies read back as the public keys. |
| Session.RequestLayout | src/client/client_core.c:125-137 | The bytes of a request: its header, with the checksum of the plaintext, and the encrypted body. |
| Session.ResponseLayout | src/server/dispatcher.c:41-55 | The bytes of a response: its header, with the checksum of the text, and the encrypted text. |
| Session.BothSidesAgree | src/client/client_core.c:86-91 | Each side, from its own private key and the other's public key, derives the same usable session key. |
| Session.HelloEstablishesKey | src/server/dispatcher.c:126-157 | The dispatcher answers a hello with its public key and holds the agreed key from then on. |
| Session.RequestIsServed | src/server/dispatcher.c:160-195 | With the key in place a client's request is decrypted to its exact plaintext, passes the checksum, reaches the service under the client's id, and the encrypted reply goes back. |
| Session.RequestIsRefused | src/server/dispatcher.c:85-90 | A request that the rate limiter blocks ends the connection as a refusal of that client. |
| Session.RequestWithoutHandshake | src/server/dispatcher.c:160-166 | A request without a handshake before it ends the connection, whatever is in it and follows it. |
| Session.JoinIsTaken | src/server/dispatcher.c:198-204 | A join message registers the id in the first four bytes of its body, is answered by the empty response, and ends the connection. |
| Session.OthersArePassedOver | src/server/dispatcher.c:112-205 | Any other message is passed over: the dispatcher goes on with the next as if it had only read it. |
| Session.ReplyIsRead | src/client/client_core.c:145-171 | The client decrypts the exact reply text, passes its checksum, leaves it as the C string in its caller's buffer, and returns the code of that text. |
| Session.ClientGivesUp | src/client/client_core.c:77-84 | When nothing comes back, a header alone, or a header of another type, the client has sent its hello only, returns -1 and leaves the handshake message. |
| Session.NoReply | src/client/client_core.c:139-148 | When no reply header comes, or a header alone, or a length field outside 1 to 1023, the client returns -1 and leaves the message as it was. |
| Session.ShortAckIsCompleted | src/client/client_core.c:79-84 | An acknowledgement cut short in its header or its body is taken as if the bytes its buffer held had come. |
| Session.ShortReplyIsCompleted | src/client/client_core.c:142-162 | So is a reply cut short; `AlteredReply` says what becomes of it. |
| Session.ContainsIff | src/client/client_core.c:165-169 | One text is found in another if and only if it is a slice of it. |
| Session.WordsSought | src/client/client_core.c:165-169 | The two words a reply is searched for, byte by byte. |
| Session.UpToNulIsPrefix | src/client/client_core.c:165-169 | The text that is searched is what precedes the first NUL of the buffer. |
| Session.SessionEndToEnd | src/client/client_core.c:103-173 | For all private keys, ids, coordinates, replies and stale buffers: given what the other sent, each end sends what the other needs, both hold the same key, the server serves the client's plaintext, in which id, VIP type and coordinates are the client's, and the client ends with the exact reply. |
| Session.SessionIsCausal | src/client/client_core.c:71-91 | The dispatcher needs only the hello to send its key, and the client only that key to send its request. |
| Session.ConnectionsAreOrderly | src/server/dispatcher.c:113-206 | For any input bytes: a connection is some handshakes followed by at most one other event, and no request is served, refused or checked without a handshake before it. |
| Session.AlteredRequest | src/server/dispatcher.c:177-189 | A request altered on the way is rejected if and only if the byte sum of what it decrypts to can be told from that of the plaintext. |
| Session.AlteredByteIsRefused | src/server/dispatcher.c:177-189 | So a request with a single altered byte is always rejected. |
| Session.AlteredReply | src/client/client_core.c:145-171 | A reply altered on the way ends in -1 and the mismatch message if the byte sum of what it decrypts to can be told from that of the text, and is taken for the reply if not; so the message in the buffer says mismatch if and only if it can be told, or that is the very string it decrypts to. |
| Session.AlteredReplyByteIsRefused | src/client/client_core.c:157-162 | So a reply with a single altered byte always ends in -1 and the mismatch message. |
| Endpoints.SendResponsePacket | src/server/dispatcher.c:41-55 | The text is checksummed, encrypted in place and sent as one packet. |
| Endpoints.Handshake | src/server/dispatcher.c:126-156 | The session key buffer holds the key derived from the received public key, and the dispatcher's own goes out. |
| Endpoints.HandleMessage | src/server/dispatcher.c:125-205 | One turn of the dispatcher's loop changes its locals, sends and decides as the session says. |
| Endpoints.ReceiveMessage | src/server/dispatcher.c:114-123 | Reading a header and body leaves the buffers and the stream as `Frame` says, including a header cut short. |
| Endpoints.HandleClient | src/server/dispatcher.c:106-206 | Over any fragmentation, unless a call fails for good, a whole connection sends and does exactly what `Serve` says of its bytes. |
| Endpoints.PerformDhHandshake | src/client/client_core.c:55-95 | The hello goes out and, if an acknowledgement comes, the key buffer holds the key derived from it. |
| Endpoints.PerformRideRequest | src/client/client_core.c:103-173 | Over any fragmentation, unless a call fails for good, the client sends, returns and leaves in its caller's buffer exactly what `RequestRide` says, early failures included. |
| Endpoints.SessionOverPipes | src/client/client_core.c:103-173 | The two programs against each other: with what the other sends arriving in any pieces, unless a call fails for good, each sends exactly that, the dispatcher serves the plaintext, and the client returns with the exact reply. |
| Conversation.EveryConversationFollows | src/common/net_wrapper.c:105-148 | Both ends at once over two channels with blocking reads, any interleaving and any pieces: what an end has sent is always the beginning of one stream, and an end that is done has done what it does with the other's whole stream there from the start. |
| ConversationEnds.SomeoneCanMove | src/server/dispatcher.c:113-195 | With each end where the bytes moved so far put it, until both are done one of them can move. `EveryConversationEnds` has it of every conversation. |
| ConversationEnds.EveryConversationEnds | src/server/dispatcher.c:106-206 | Whatever the services answer, the number of moves is bounded, and both ends finish with what `Serve` and `RequestRide` say of the two streams. |
| ConversationEnds.ReplyArrives | src/client/client_core.c:103-173 | When a reply is made, every finished conversation has the request served under the agreed key, with the client's id, VIP type and coordinates in it, and exactly that reply at the client. |
| RideReplies.LateReplyIsTheReply | src/server/ride_service.c:57-63 | Id, rating and mode, each loaded at a time of its own after the unlock of any execution, give the text of the reply as it was chosen. |
| RideReplies.ConfirmedText | src/server/ride_service.c:60-63 | The text of a confirmation in full, with the id, the rating, the distance and the mode in their places. |
| RideReplies.TenthsReadBack | src/server/ride_service.c:61-62 | A rating is printed as its whole part, a point and one digit, which read back as the rating. |
| RideReplies.PrintedIsPrefix | src/server/ride_service.c:60-63 | As much of the text is printed as goes into 255 characters, character for character. |
| RideReplies.CodeOfReply | src/client/client_core.c:164-172 | The printed confirmation, cut short or not, gives the client 0; the printed apology gives -1. |
| RideReplies.BlockedIsMinusTwo | src/client/client_core.c:168-169 | The text of a refusal would give the client -2. |
| RideReplies.RideOutcome | src/server/ride_service.c:57-73 | Over every finished conversation with the services in place: the client ends with the text the ride section printed and returns 0 if it chose a driver, -1 if not; in a sound state 0 if and only if some available driver has fuel. |

## Left out

- Sockets, accept loops, fork, signals, memory mapping, saving and loading of state, logging and the map drawing: input, output and display.
- Loading a saved state: `server_main.c` always starts fresh, and the loader in `coordinator.c` does not restore the mode invariant. The number of drivers to start with is taken to be between 0 and 256; the source does not check it.
- Floating-point rounding: positions, distances and ratings are exact, so a cell boundary that rounding would move is not modelled.
- Integer widths of the counters and ids in shared memory: rides, successes, revenue and request counts are unbounded in the model, as are driver ids.
- The reply to a rate-limited request: the source encrypts a string literal in place, which C leaves undefined. The refusal is an event without bytes.
- The `%.4f` of the distance in the ride reply: any printing of it in ASCII without NUL will do. What the client's `sscanf` makes of the reply is never used.
- Failing sends on the server: the source ignores them, so what goes out after one is not described.
- Wire.RecvN: a pipe's content is all that will still arrive, so a read that waits for the peer is not told apart from one that does not; `Conversation` has the waiting.
- Endpoints.PerformRideRequest: when a call fails for good, what is left in the caller's buffer is not stated.
- Interrupts are finite in number. `Conversation` has no interrupts and no failing calls; the methods over pipes have both.
- `complete_ride_and_update_resources`, `check_if_driver_available`, `calculate_surge_price` and the queue of pending rides: not used by the running server.
- The insecure server and dispatcher, the malicious, stress and single clients, and the dump tool: demonstrations and test drivers.
- Strength of the keys and quality of the randomness, and finding the target within 3000 steps and 4000 entries: the code guarantees neither. Driver ids may repeat after a join.
