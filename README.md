# SCANcontroller: a verified model of SCANsat's scanning core

SCANsat is a Kerbal Space Program mod. Vessels carry scanners, and as they
fly the scanners fill coverage maps of the bodies they orbit.
`SCANcontroller` is the mod's scenario module. It keeps a registry of known
vessels and the sensors registered on each. On every game tick,
`scanFromAllVessels` runs `doScanPass` for each qualifying vessel.

`doScanPass` samples the vessel's position now. While time passes between
ticks, it then refines the interval back to the previous tick by bisection.
At every sample that has not converged, each sensor computes its footprint,
a square of whole-degree cells, and passes each cell to the coverage map.
`getAvailableScience` turns coverage into a science report.

This project models that core in Dafny and proves properties of it.

| file | module | what it models |
|---|---|---|
| `scan_type.dfy` | `ScanType` | the `SCANtype` bit-flag enumeration as the set of its bit positions; the order-independent OR fold over dictionary keys |
| `bit_count.dfy` | `BitCount` | `countBits` as a loop on a 32-bit word, proved to be the population count |
| `angles.dfy` | `Angles` | `fixLatitude` / `fixLongitude` with C#'s truncating `%` on doubles |
| `sensors.dfy` | `Sensors` | a vessel's sensor table; register and unregister as folds over the enumeration in declaration order; the default profiles |
| `footprint.dfy` | `Footprint` | one sensor at one sample: range flags, projected field of view, `Math.Truncate` / `Math.Round` half-widths, the nested grid loops |
| `scan_pass.dfy` | `ScanPass` | `doScanPass`: the bisection loop over a FIFO queue of doubles, six per branch, with termination, a bound on the work and a ghost trace of the visits |
| `real_arith.dfy` | `RealArith` | order facts about real multiplication and division shared by the footprint and science proofs |
| `science.dfy` | `Science` | the experiment priority and the yield arithmetic of `getAvailableScience` |
| `controller.dfy` | `Controller` | the `SCANcontroller` class: the registry, the queries, `registerSensor` / `unregisterSensor`, and the per-tick driver with its gate and counters |

The model takes the source's form:

- **State the source updates in place is a class.** `ScanController` holds
  `knownVessels`, the gate fields and the counters. Its methods say what they
  modify and state the new state.
- **Loops become methods with invariants.** This covers `countBits`, both
  registration loops, the grid loops, the sensor loop, the scan loop and the
  vessel loop. Each method is proved against a specification function.
- **Pure computation becomes functions and lemmas.** This covers the
  angles, the footprint arithmetic and the science formula.

## Model

| member | source | states |
|---|---|---|
| `Angles.Truncate` | SCANcontroller.cs:441 | `(int)Math.Truncate`: the integer toward zero, within one of the argument on the correct side |
| `Angles.FixLatitude` | SCANcontroller.cs:321-323 | for latitudes ≥ -270 the result lies in [-90, 90); below that in (-270, -90]; it always differs from the input by a whole multiple of 180 |
| `Angles.FixLongitude` | SCANcontroller.cs:325-327 | for longitudes ≥ -540 the result lies in [-180, 180); below that in (-540, -180]; it always differs from the input by a whole multiple of 360 |
| `Angles.FixLatitudeUnique` | SCANcontroller.cs:321-323 | the result is the one latitude in [-90, 90) congruent to the input modulo 180 |
| `Angles.FixLongitudeUnique` | SCANcontroller.cs:325-327 | the result is the one longitude in [-180, 180) congruent to the input modulo 360 |
| `Angles.FixLatitudeIdempotent` | SCANcontroller.cs:321-323 | normalising a normalised latitude changes nothing |
| `Angles.FixLongitudeIdempotent` | SCANcontroller.cs:325-327 | normalising a normalised longitude changes nothing |
| `Angles.FixLatitudePeriodic` | SCANcontroller.cs:321-323 | adding 180 degrees does not change the normalised latitude |
| `Angles.FixLongitudePeriodic` | SCANcontroller.cs:325-327 | adding 360 degrees does not change the normalised longitude |
| `Angles.FixExamples` | SCANcontroller.cs:321-327 | -95 maps to 85, 90 maps to -90 (the range is closed below, open above), 185 maps to -175 |
| `BitCount.Popcount` | SCANcontroller.cs:205-209 | the number of set bits of a 32-bit word is at most 32 |
| `BitCount.PopcountZero` | SCANcontroller.cs:207 | only the zero word has no set bit, so the loop stops exactly when the word is exhausted |
| `BitCount.PopcountClearLowest` | SCANcontroller.cs:207 | `i & (i - 1)` on a non-zero word clears exactly one set bit |
| `BitCount.SingleBitIff` | SCANcontroller.cs:205-209 | a word has exactly one set bit iff it is non-zero and `x & (x - 1)` is zero |
| `BitCount.CountBits` | SCANcontroller.cs:205-209 | the loop returns the number of set bits of its 32-bit argument, negative values included |
| `BitCount.SingleMembers` | SCANcontroller.cs:166-167 | of the enumeration's members, exactly the five sensor bits pass the `countBits(...) == 1` test |
| `ScanType.SingleIsMember` | SCANcontroller.cs:166 | every single-bit sensor is a member of the enumeration and meets `Everything` |
| `ScanType.SinglesMeet` | SCANcontroller.cs:175-176 | two single-bit sensors share a bit iff they are equal |
| `ScanType.UnionOfBits` | SCANcontroller.cs:236-237 | the OR fold over the table's keys, in whatever order the dictionary yields them, sets exactly the bits some key has |
| `ScanType.UnionOfMeets` | SCANcontroller.cs:213-215 | the fold meets a mask iff some key meets it |
| `ScanType.UnionOfSingles` | SCANcontroller.cs:234-239 | a set of single-bit sensors is recovered from its fold, and the fold has no other bits |
| `Sensors.Effective` | SCANcontroller.cs:169-182 | the given profile when its maximum altitude is positive; otherwise a default with a positive maximum and min ≤ best ≤ max |
| `Sensors.DefaultsPerBit` | SCANcontroller.cs:170-181 | the defaults: fov 3 for the high-resolution altimeter; (1, 0, 2000, 0) for anomaly detail; (5, 5000, 500000, 200000) for every other bit |
| `Sensors.Configure` | SCANcontroller.cs:183-189 | the entry takes the sensor and the four numbers; an existing entry keeps its range flags, a new one starts with both clear |
| `Sensors.RegisterStepAt` | SCANcontroller.cs:166-190 | one iteration of the registration loop acts on a key exactly as the single-bit and mask tests say |
| `Sensors.RegisterPrefixAt` | SCANcontroller.cs:166-190 | after any prefix of the enumeration, the visited single-bit members the mask selects are configured and all other entries are untouched |
| `Sensors.RegisterSpec` | SCANcontroller.cs:162-191 | after registration the keys are the old keys plus the selected single bits; each selected bit is configured with its effective profile; other entries are untouched |
| `Sensors.UnregisterPrefixAt` | SCANcontroller.cs:198-202 | after any prefix of the enumeration, exactly the visited members that meet the mask are removed |
| `Sensors.UnregisterSpec` | SCANcontroller.cs:193-203 | exactly the registered members that meet the mask are removed; the remaining entries are untouched |
| `Sensors.RegisterWellFormed` | SCANcontroller.cs:162-191 | registration keeps every key a single bit whose entry records that bit |
| `Sensors.UnregisterWellFormed` | SCANcontroller.cs:193-203 | unregistration keeps the table well formed |
| `Sensors.ActiveSingles` | SCANcontroller.cs:234-239 | in a well-formed table the active sensors are single bits only, and a single bit is active iff it is registered |
| `Sensors.ActiveBit` | SCANcontroller.cs:234-239 | bit i is active iff the key {i} is registered |
| `Sensors.ActiveAfterRegister` | SCANcontroller.cs:162-191 | registration ORs in the mask's single bits: old \| (mask & sensor bits) |
| `Sensors.ActiveAfterUnregister` | SCANcontroller.cs:193-203 | unregistration clears the mask's bits: old & ~mask |
| `Sensors.UnregisterEmpties` | SCANcontroller.cs:193-203 | the table becomes empty iff the mask meets every registered sensor; unregistering Everything always empties it |
| `Sensors.RegisterIdempotent` | SCANcontroller.cs:162-191 | registering the same mask and profile twice is registering it once |
| `Sensors.UnregisterUndoesRegister` | SCANcontroller.cs:162-203 | unregistering a mask right after registering it gives what unregistering it alone gives |
| `Footprint.Min` | SCANcontroller.cs:427 | `Math.Min`: at most both arguments and equal to one of them |
| `Footprint.Classified` | SCANcontroller.cs:424-433 | recomputing every entry's range flags keeps the keys |
| `Footprint.ProjectedFov` | SCANcontroller.cs:430-439 | the projected field of view is at most 20; it is None exactly when the capped best altitude is 0 and the sample lies below it (a division by zero) |
| `Footprint.BelowBestNarrower` | SCANcontroller.cs:431-439 | below the best altitude the footprint is never wider than at it |
| `Footprint.AtBestUnscaled` | SCANcontroller.cs:433-439 | at or above the best altitude the field of view is fov × scale, capped at 20 |
| `Footprint.RoundHalfEven` | SCANcontroller.cs:442 | `Math.Round`: within 0.5 of the argument, ties to the even integer |
| `Footprint.HalfWidths` | SCANcontroller.cs:441-442 | for fov ≥ 0: f = ⌊fov⌋, and f1 is f or f + 1, f + 1 exactly when the fraction exceeds 0.5 |
| `Footprint.ColumnSize` | SCANcontroller.cs:444-446 | the inner loop makes one registration per y from lo to hi |
| `Footprint.ColumnCells` | SCANcontroller.cs:444-446 | a cell is registered by the inner loop iff it is in column x at a whole y offset in [lo, hi] |
| `Footprint.GridSize` | SCANcontroller.cs:443-447 | the nested loops make (columns) × (rows) registrations |
| `Footprint.GridCells` | SCANcontroller.cs:443-447 | a cell is registered iff it has the sensor's bit and whole offsets within [lo, xhi] and [lo, hi] |
| `Footprint.RegisterGrid` | SCANcontroller.cs:443-447 | the nested loops register the grid column by column, in loop order |
| `Footprint.ProjectFov` | SCANcontroller.cs:430-440 | the field-of-view statements compute ProjectedFov, and bestRange is set iff the altitude reaches the capped best altitude |
| `Footprint.SensorPass` | SCANcontroller.cs:424-447 | one sensor clears and recomputes its flags and registers exactly its footprint cells |
| `Footprint.OutOfRangeNoCells` | SCANcontroller.cs:426-427 | a sensor below its minimum or above its capped maximum registers nothing |
| `Footprint.InRangeCells` | SCANcontroller.cs:428-447 | an in-range sensor registers exactly the cells at whole offsets in [-f, f1] × [-f, f1], all with its own bit |
| `Footprint.InRangeCount` | SCANcontroller.cs:439-447 | an in-range sensor registers at most 41 × 41 cells, and (f + f1 + 1)² for a non-negative field of view |
| `Footprint.CellNear` | SCANcontroller.cs:439-447 | every registered cell has the sensor's bit and lies within 20 whole degrees of the sample in each angle |
| `Footprint.WorkedExampleFov` | SCANcontroller.cs:430-442 | a generic default sensor at 200 km has a 5-degree field of view and half-widths (5, 5) |
| `Footprint.WorkedExampleCells` | SCANcontroller.cs:430-447 | that sensor registers an 11 × 11 grid of 121 cells |
| `ScanPass.Abs` | SCANcontroller.cs:415 | `Math.Abs`: non-negative and equal to x or -x |
| `ScanPass.Surface` | SCANcontroller.cs:411-412 | the depth-0 sample takes the height above terrain when it is non-negative and the altitude otherwise, at fixLatitude / fixLongitude of the vessel's angles |
| `ScanPass.OnOrbit` | SCANcontroller.cs:405-408 | an orbit sample keeps a non-negative altitude and turns a negative one into 0, at fixLatitude / fixLongitude of the orbit's angles |
| `ScanPass.ReflagAt` | SCANcontroller.cs:419-433 | after the loop has visited some keys, exactly those entries have recomputed flags and the keys are unchanged |
| `ScanPass.StepCellsMembers` | SCANcontroller.cs:419-447 | a sample's registrations are the union of its sensors' footprints |
| `ScanPass.SampleCellsNear` | SCANcontroller.cs:419-447 | every registration at a sample is for one of the vessel's sensors, within 20 whole degrees |
| `ScanPass.ClassifiedCells` | SCANcontroller.cs:424-447 | the footprints do not depend on the flags left by an earlier sample |
| `ScanPass.SameProjection` | SCANcontroller.cs:430-439 | the projected field of view reads only the fov and the best altitude |
| `ScanPass.FlagsIgnored` | SCANcontroller.cs:424-447 | a sensor's footprint does not depend on its flags |
| `ScanPass.SensorLoopStep` | SCANcontroller.cs:419-447 | one sensor-loop iteration extends the registrations by that sensor's footprint and recomputes its flags |
| `ScanPass.ReflagAll` | SCANcontroller.cs:419-433 | after the whole walk every entry has recomputed flags |
| `ScanPass.SampleSensors` | SCANcontroller.cs:418-448 | the sensor loop registers every sensor's footprint, recomputes every entry's flags, and at depth 0 reports uncovered iff the coverage map gives every sensor a value ≤ 0 |
| `ScanPass.SampleOne` | SCANcontroller.cs:419-447 | one sensor of the walk keeps the loop's three invariants |
| `ScanPass.UncoveredByOrder` | SCANcontroller.cs:418-421 | the walk finds coverage iff some sensor of the table has it, whatever the order |
| `ScanPass.NodesSplit` | SCANcontroller.cs:462-475 | a refining visit trades its own budget for one visit plus two child budgets |
| `ScanPass.QueuedLength` | SCANcontroller.cs:463-484 | the queue's length is always a multiple of six |
| `ScanPass.QueuedAppend` | SCANcontroller.cs:462-469 | enqueueing a branch keeps the queue whole and adds that branch's budget |
| `ScanPass.Encode` | SCANcontroller.cs:463-468 | a branch occupies six doubles, with the depth last |
| `ScanPass.DecodeEncode` | SCANcontroller.cs:463-484 | dequeuing gives back the branch that was enqueued |
| `ScanPass.ClassifiedTwice` | SCANcontroller.cs:424-433 | recomputing flags twice is recomputing them for the later altitude |
| `ScanPass.ClassifiedUncovered` | SCANcontroller.cs:420-421 | recomputed flags do not change which sensors have coverage |
| `ScanPass.VisitBranch` | SCANcontroller.cs:396-460 | one visit: the sample comes from the vessel at depth 0, else from the orbit; an unevaluable orbit or a converged sample goes to dequeue without counting; otherwise the visit counts, registers every footprint, and then returns, dequeues or refines by exactly the source's tests; maxRes only grows, to the depth |
| `ScanPass.TraceExtend` | SCANcontroller.cs:395-485 | appending a deeper visit keeps the trace consistent and appends its registrations |
| `ScanPass.Advance` | SCANcontroller.cs:457-485 | refining continues into the newer half one level deeper and enqueues the older half when startUT > UT; dequeuing takes the head branch; the remaining budget strictly decreases |
| `ScanPass.FirstVisit` | SCANcontroller.cs:383-475 | the depth-0 visit and its decision establish the loop invariant |
| `ScanPass.Iterate` | SCANcontroller.cs:395-485 | every further visit keeps the loop invariant and strictly decreases the remaining budget |
| `ScanPass.RunCount` | SCANcontroller.cs:415-416 | the visits that reach actualPasses++ are at most all the visits |
| `ScanPass.PendingAppend` | SCANcontroller.cs:462-469 | enqueueing a branch that has a parent visit and an interval within the tick's keeps every queued branch so |
| `ScanPass.LinkedParents` | SCANcontroller.cs:470-484 | in a linked trace every visit after the first has an earlier parent visit that ran the sensors one level up and whose sample is the visit's llat / llon |
| `ScanPass.QueueStep` | SCANcontroller.cs:457-484 | both halves of a refinement have the visit as parent and lie inside the visited branch's interval; a dequeued branch brings its parent and interval along |
| `ScanPass.LineageStart` | SCANcontroller.cs:383-475 | the depth-0 visit samples the vessel at the tick's time and starts the lineage |
| `ScanPass.LineageStep` | SCANcontroller.cs:395-485 | each further visit samples the orbit at its branch's time, has its branch's parent, and keeps the lineage and the count of visits that ran |
| `ScanPass.RunPass` | SCANcontroller.cs:383-486 | the loop ends with the invariant and the lineage holding and no branch left |
| `ScanPass.PassFacts` | SCANcontroller.cs:383-486 | once the loop has ended, the invariant gives the bound on visits, the registrations, the counters and the stop cases |
| `ScanPass.LineageFacts` | SCANcontroller.cs:395-484 | once the loop has ended, the lineage gives each visit's sample, parent and time |
| `ScanPass.DoScanPass` | SCANcontroller.cs:383-486 | the pass terminates after at most 2^(R+1) - 1 visits (R = timeWarpResolution); the first visit is the vessel itself at the tick's time and later ones are at depths 1..R; every visit samples the vessel (depth 0) or the orbit at its own time (below), and every later visit compares with the sample of an earlier visit one level up that ran the sensors; when lastUT ≤ UT ≤ startUT (the caller passes UT as startUT) every visit's time lies in [lastUT, startUT]; the registrations are exactly those of the visits that ran the sensors; actualPasses is the number of those visits (so 1 ≤ actualPasses ≤ visits); the table ends with flags recomputed; when the pass must stop after the first sample (uncovered, never scanned, landed, or R ≤ 0) it makes only the depth-0 registrations; otherwise the second visit is at depth 1 at the midpoint (lastUT + UT) / 2 |
| `Science.Choose` | SCANcontroller.cs:250-270 | the chosen experiment is offered by the body and requested; no better-ranked one qualifies; None exactly when none qualifies |
| `Science.ChooseIsBest` | SCANcontroller.cs:250-268 | any qualifying experiment ranks no better than the choice |
| `Science.ChooseMonotone` | SCANcontroller.cs:250-268 | requesting more sensors can only move the choice to a better-ranked experiment |
| `Science.Fraction` | SCANcontroller.cs:281-284 | the fraction is 0 iff coverage < 30, 1 iff coverage > 95, the percentage itself (coverage / 100) from 30 to 95, and within [0, 1] for percentages |
| `Science.FractionMonotone` | SCANcontroller.cs:281-284 | more coverage never earns a smaller fraction |
| `Science.Remaining` | SCANcontroller.cs:285 | max(0, fraction × cap - collected) |
| `Science.Yield` | SCANcontroller.cs:279-294 | defined iff the subject value is non-zero; scientificValue becomes 1; the result times the subject value is the remaining science, except that with notZero a quotient ≤ 0 becomes 0.00001 |
| `Science.AvailableScience` | SCANcontroller.cs:241-298 | a report exists iff an experiment is chosen, its subject is found and the subject value is non-zero; it is for the chosen experiment and its amount is the yield on that experiment's coverage |
| `Science.YieldMonotoneInCoverage` | SCANcontroller.cs:281-290 | with a non-negative cap and a positive subject value, more coverage never yields less |
| `Science.YieldAntitoneInCollected` | SCANcontroller.cs:285-290 | the more science already collected, the less is reported |
| `Science.YieldExhausted` | SCANcontroller.cs:285-294 | once the collected science reaches the earned cap, the report is 0, or 0.00001 with notZero |
| `Science.YieldFullCoverage` | SCANcontroller.cs:282-290 | above 95% coverage with nothing collected, the whole cap over the subject value is reported |
| `Science.YieldLowCoverage` | SCANcontroller.cs:283-294 | below 30% coverage the report is 0, or 0.00001 with notZero |
| `Controller.NewRecord` | SCANcontroller.cs:163-165 | a new vessel record has the id, no sensors, frame 0 and lastUT 0 |
| `Controller.GateSpacing` | SCANcontroller.cs:345-348 | after a tick, a second tick in the same frame or less than a second later is skipped; one in another frame a second or more later (or with the clock not ahead) runs |
| `Controller.ChosenMembers` | SCANcontroller.cs:355-368 | a vessel is scanned iff it is listed, known and qualifies; no more vessels are scanned than listed |
| `Controller.ClassifiedWellFormed` | SCANcontroller.cs:424-428 | recomputing flags keeps a table well formed |
| `Controller.KeysInOrder` | SCANcontroller.cs:419 | the dictionary walk visits every key once |
| `Controller.TickVessel` | SCANcontroller.cs:356-375 | a vessel is scanned iff its body is enabled and in focus (or background scanning is on), it is not debris and it has sensors; its record is stamped with this tick's frame, time and normalised position either way; a scan only recomputes its flags |
| `Controller.RegisterPrefixNext` | SCANcontroller.cs:166-190 | the registration fold over one more member is one more loop iteration |
| `Controller.UnregisterPrefixNext` | SCANcontroller.cs:198-202 | the unregistration fold over one more member is one more loop iteration |
| `Controller.RegisterTable` | SCANcontroller.cs:166-190 | the registration loop computes Register on the vessel's table |
| `Controller.UnregisterTable` | SCANcontroller.cs:198-202 | the unregistration loop computes Unregister on the vessel's table |
| `Controller.RegistryNext` | SCANcontroller.cs:355-376 | visiting one more listed vessel keeps the registry's progress |
| `Controller.UpdatedNext` | SCANcontroller.cs:355-376 | replacing the next vessel's record leaves the earlier visited vessels updated |
| `Controller.CountNext` | SCANcontroller.cs:365-366 | the counters grow by one vessel and its sensor count exactly when that vessel was scanned |
| `Controller.TickNext` | SCANcontroller.cs:355-376 | one iteration of the vessel loop keeps the registry and counter progress |
| `Controller.TickAll` | SCANcontroller.cs:355-376 | after the loop, every known listed vessel is updated, every other record is untouched, and the counters are those of the scanned vessels |
| `Controller.ScanController.constructor` | SCANcontroller.cs:57-59 | an empty registry with scan_background on and timeWarpResolution 20 |
| `Controller.ScanController.ActiveSensorsOnVessel` | SCANcontroller.cs:234-239 | Nothing for an unknown vessel; otherwise a bit is set iff some registered key has it |
| `Controller.ScanController.IsVesselKnownFor` | SCANcontroller.cs:211-216 | true iff the vessel is known and some registered key shares a bit with the request |
| `Controller.ScanController.IsVesselKnown` | SCANcontroller.cs:218-221 | true iff the vessel is known and has at least one registered sensor |
| `Controller.ScanController.IsShipKnown` | SCANcontroller.cs:223-226 | debris is never known; otherwise as isVesselKnown(id) |
| `Controller.ScanController.GetSensorStatus` | SCANcontroller.cs:228-232 | the entry when the vessel and sensor are registered, None otherwise |
| `Controller.ScanController.RegisterSensorById` | SCANcontroller.cs:162-191 | the vessel's record (created if new) gets its table registered and nothing else changes; the active sensors gain the mask's single bits; each selected bit reads back its configuration |
| `Controller.ScanController.RegisterSensor` | SCANcontroller.cs:155-160 | as by id, plus the record takes the vessel's normalised latitude and longitude, in range |
| `Controller.ScanController.UnregisterSensor` | SCANcontroller.cs:193-203 | an unknown vessel changes nothing; otherwise its table loses the mask's members and the active sensors become old & ~mask; the vessel stays known iff some sensor survives |
| `Controller.ScanController.ScanFromAllVessels` | SCANcontroller.cs:344-379 | the tick runs iff the gate is open; a gated tick changes nothing; a tick that runs records the frame, clock and UT, updates every known listed vessel, leaves other records alone, and sets the counters to the scanned vessels, their sensors, at least one pass each, and a maxRes of 0 or at most the resolution |

## Left out

- I/O is not modelled: `OnLoad`/`OnSave` persistence, the `print` logging, and the singleton accessor. The constructor starts from the persistent fields' declared defaults.
- `SCANdata.cs` is not part of this model. Coverage is an oracle parameter (`Body.coverage`). `registerPass` is recorded as a ghost log of `Pass` values. The `SCANtype` values assumed are Nothing 0, AltimetryLoRes 1, AltimetryHiRes 2, Altimetry 3, Biome 8, Anomaly 16, AnomalyDetail 32, Everything 255, listed in that order.
- `getData`, `updateCoverage`, and `bodyIsDisabled`/`setBodyDisabled` are left out, because they are `SCANdata` bookkeeping. A body's disabled flag is an input (`Body.disabled`).
- Doubles and floats are modelled as exact reals. Rounding, NaN and infinity are not modelled, nor is the `(float)` cast of coverage in the science formula.
- The surface scale `sqrt(max(1, 600000 / radius))` is an input, because square roots are not modelled. The body's rotation correction is part of the orbit input.
- The orbit is a function from time to an optional position. None stands for the NaN time, `ObT <= 0` and NaN checks that send a visit to dequeue.
- A best altitude of 0 with the sample below it divides by zero in the source. The model registers no cells there (`ProjectedFov` is None).
- Dictionary order is not fixed: `KeysInOrder` may produce any order. The properties are proved for every order.
- `SCANvessel` and `SCANsensor` objects are values in a map field that the methods reassign, so aliasing through shared references is not captured. The `vessel` and `body` back-references stored on a record are left out.
- The shared static `scanQueue` is a local sequence emptied at the start of each pass. The recursion's root visit is peeled off the loop (`FirstVisit`).
- Controller.ScanController.ScanFromAllVessels: requires the listed vessels to have distinct ids, as KSP's vessel list does.
- Controller.ScanController.ScanFromAllVessels: states only that the registration log grows. The registrations of each pass are stated by `ScanPass.DoScanPass`.
- Science.AvailableScience: the experiment and subject lookups of ResearchAndDevelopment are one `lookup` parameter. The report's title and subject id are left out.
- Science.Yield: a subject value of 0 gives None, where the source produces infinity or NaN.
- Science.YieldMonotoneInCoverage: requires a non-negative science cap, because with a negative cap more coverage yields less.
- `getCoverage` is an oracle: the model does not say what its number measures. It states only the source's test: the depth-0 sample returns early when `getCoverage(sensor) > 0` fails for every sensor of the vessel (`ScanPass.Uncovered`).
- `Footprint.OutOfRangeNoCells` and `ScanPass.ClassifiedUncovered` follow from the definitions alone. They are kept as statements of the source's behaviour.

## Notes on the code

- Latitudes normalise to [-90, 90), closed below (SCANcontroller.cs:321-323).
- The science thresholds are strict: above 95% counts as full, below 30% as nothing (SCANcontroller.cs:282-283).
- The field of view is scaled by the best altitude capped at the sphere of influence (SCANcontroller.cs:430-431).
- The depth-0 visit returns early when `getCoverage(sensor) > 0` fails for every sensor of the vessel (SCANcontroller.cs:418-421, 449).
- The work of a pass is bounded by the full binary tree of 2^(R+1) - 1 visits, not by R (SCANcontroller.cs:457-484).
