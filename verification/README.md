# Site power control: a verified model

The gateway steers batteries and GPU power caps so that a site's grid connection
(the point of interconnection, POI) stays inside an import and an export limit.
This project models its control core and proves what that core keeps over whole
runs. Each Dafny module follows one part of the program:

| Dafny module | part of the program |
|---|---|
| `Numbers` | shared real arithmetic and sums |
| `PoiServo`, `ControlLaw` | the servo law, and the Normal/Constrained/Ramping controller as a class |
| `ClosedLoop`, `Tightening`, `NoRinging`, `Recovery` | the controller behind a meter up to three ticks late, over whole runs |
| `ApproachHold`, `HeldRuns` | what a held approach does to one tick, and to the output from a deferral to the second later reading |
| `Allocation`, `WaterFilling`, `FairShares`, `Favoured` | max-min fair splitting, section 6.5.2 of Bertsekas and Gallager, *Data Networks* |
| `Distribution`, `Conservation`, `RackShares` | site to module to rack, and what one rack may be told |
| `WriteOrder`, `PoiGate`, `Writes`, `Disagreement` | the handoff protocol for child writes, and what it does when devices and memory differ |
| `Rebalance` | one rebalance tick, and runs of them: what the controller, the memory and the devices hold |
| `Steering`, `TaskLoop` | what a tick steers to from what it reads, and the closed loop of whole ticks |
| `Shed`, `PowerCap` | the compute-shed controller and its whole-watt caps |
| `Requested`, `SiteDistribution` | the operators' requests and curtailment events |
| `CommandWord`, `RegisterCodec`, `ScaledSetpoint` | SunSpec command words, and register values |

Conventions. An f64 is read as a `real`, `f64::EPSILON` as the exact number
2^-52. A missing limit, or an infinity that stands for one, is `None`. Time is
real seconds; an `Instant` is a real. What a task reads from its cache is a value
with an age; a device write is a step that lands or fails. Each tick, beat,
command and landed write is one step. Where the program updates fields, a Dafny
class does the same, and each of its methods is proved equal to a function on
values; the theorems are about runs of those functions.

Sign: POI power is positive for import, battery power for discharge.

## Findings

Places where the code does less than it seems meant to, each with the inputs or the
condition for it. Where a condition is exact only up to something, it says so.

- `SiteDistribution.EventShareReturns`: a release puts a module back only if the
  event's last *handled* command to it asked for the share it holds. A share that
  landed but whose acknowledgement was lost (`SiteDistribution.LostAcknowledgement`),
  or one followed by a share that was acknowledged as failed
  (`SiteDistribution.FailedRedispatch`), stays after the event, which is forgotten;
  the next event takes the first for the operator's own setpoint.
- `Rebalance.CeaseToEnergizeExactly`: a tick of cease-to-energize stops a rack only
  if no reading the tick waits for is missing and *every* unlocked rack of the
  module has been heard. One rack that never reported
  (`Rebalance.SilentRackStopsNothing`) keeps all the others running.

- `ApproachHold.HeldTickGrowsExactly`: the approach hold bounds the output only on
  the side of 0 W it is on. On a reading inside the limits, in Normal mode, a held
  tick grows the output's magnitude exactly if the request, the rating and the
  other side's headroom let it cross 0 W past its own mirror image;
  `ApproachHold.HeldReversal` goes from 100 W of discharge to 500 W of charge.
  `HeldRuns.HandoffHoldsOutput` is what a handoff does guarantee.
- `Writes.LostHandoffHolds`: if the write that completes a handoff fails, the
  completion is forgotten, and the approach stays held, whatever lands later,
  until growth happens to be held back again.
- `Writes.UnsafeAfterCut`: after a plan cut short by a failed write the memory no
  longer says what the devices hold, and the next plan, ordered by the memory,
  can put more on the bus on its way than before or after it (60 W, 100 W, 50 W).
  `Rebalance.AgreesAfterPlan` says exactly when a cut makes the memory wrong.
  `Disagreement.HarmlessIsSafe` and `Disagreement.HarmfulIsUnsafe` say which wrong
  memories admit an unsafe plan, exactly but for two write thresholds of 2^-52 W;
  `Writes.PlanInOrderIsSafe` and `Writes.PlanPrefixIsSafe` say what holds of any plan.
- `Rebalance.SyncedAfterTick`: the pull-back to what is delivered compares with
  the target after the energize gate, so on a de-energized tick it never acts,
  while the controller ticks on: the output then agrees with the 0 W told exactly
  if it was within 1 W of 0 anyway. `Rebalance.WindsUpDeenergized` gives inputs
  for which a whole request stands, and `Rebalance.WindsUpToRatingAtMost` what
  still bounds it.
- `Shed.OverLimitRaise`: over the import limit, a tick that is not waiting for
  storage proposes a *raise* of the cap exactly when the cap sits half-way between
  two 0.1% steps (only a GPU floor can) and the cut wanted is under 0.1%;
  `Shed.RaiseWhileOver` is such a tick.
- `PowerCap.CutTakesNoMoreExactly`: caps are rounded up so as never to cut more
  than asked, but the *next* cut starts from the rounded cap. A GPU's cuts take no
  more than asked exactly when the cap it holds was not rounded up;
  `PowerCap.CutPastTheLimit` ends 0.995 W below the import limit with one GPU.
- `PowerCap.CapOverrunsExactly`: caps can pass a GPU's maximum exactly when that
  maximum, to the microwatt, is above its whole watts; `PowerCap.CapPastMaximum`
  caps a 1000.5 W GPU at 1001 W.
- `SiteDistribution.HandledFailureIsForgotten`: a restore that was handled but
  whose write failed is not retried, because the release looks only at whether it
  was handled; the module keeps the ended event's share.
- `Requested.OverlappingFailures`: of two overlapping commands that both fail, if
  the one that started first fails first, its refused value stays behind unless
  the two values were equal or it was there before. In the other order the record
  always comes back.
- `SiteDistribution.OperatorValueStands`: an operator's mid-event value that
  happens to be the event's own share is taken for it and undone by the release.
- `CommandWord.FailedStopIsUndone`: when the write of a stop fails, the next beat
  asserts the run bit again.
- `ScaledSetpoint.ReadBack`, `ScaledSetpoint.ReservedIsWritten`: a setpoint whose
  count is the type's reserved "not implemented" one is written, not refused.
- `ControlLaw.WindowWithinRating`: a limit's ceiling below the module's minimum
  drags the floor below the rating, exactly then (`ControlLaw.OutputBelowRating`
  sends a 10 W battery to -30 W); the upper side holds unconditionally.

## Model

| member | source | states |
|---|---|---|
| PoiServo.Jump | src/envelope/poi_servo.rs:84-92 | the violation a tightening creates is never negative |
| PoiServo.JumpIsTightening | src/envelope/poi_servo.rs:84-92 | a jump happens exactly when a limit tightened and the reading violates it, and is exactly the part of the tightening that the reading violates |
| PoiServo.OneSideJumps | src/envelope/poi_servo.rs:55-63 | limits with a non-negative sum never jump on both sides at once |
| PoiServo.CrossedOnlyByJump | src/envelope/poi_servo.rs:58-68 | the raw floor passes the raw ceiling only when a limit tightened this tick, and then exactly one side jumped |
| PoiServo.BackOffNeverOvershoots | src/envelope/poi_servo.rs:28-36 | a violated side backs off at once by the whole jump and at least a tenth per second of the rest, and in a tick of up to a second by no more than the violation, whatever the other side's headroom |
| ControlLaw.ServoBoundsOrdered | src/envelope/poi_servo.rs:58-75 | once the crossing is resolved, and after an approach hold, the bounds are in order for any limits |
| ControlLaw.WindowWithinRating | src/envelope/control_law.rs:109-123 | the clamp's window is never empty and never above the rating; it reaches below the rating exactly when a limit's ceiling does |
| ControlLaw.OutputBelowRating | src/envelope/control_law.rs:109-111 | a concrete tick whose output is below the minimum |
| ControlLaw.EnvelopeController.constructor | src/envelope/control_law.rs:66-75 | a controller starts in Normal mode from the given output, with no limits seen |
| ControlLaw.EnvelopeController.Advance | src/envelope/control_law.rs:87-182 | one tick, updating the fields in place, is the function the run theorems are about; it reports a write exactly when the output changed |
| ControlLaw.EnvelopeController.Settle | src/envelope/control_law.rs:114-181 | the mode machine on a tick's target |
| ControlLaw.EnvelopeController.RampStep | src/envelope/control_law.rs:160-179 | one ramp step toward the target; reaching it ends the recovery |
| ControlLaw.EnvelopeController.WriteOutput | src/envelope/control_law.rs:186-192 | a change below the write threshold is no write |
| ControlLaw.EnvelopeController.SyncToDelivered | src/envelope/anti_windup.rs:13-15 | the output becomes what was delivered and nothing else changes |
| ControlLaw.EnvelopeController.RampToZero | src/envelope/stale.rs:10-28 | one step of ramp toward 0 W |
| ControlLaw.OutputMovesTowardTarget | src/envelope/control_law.rs:114-182 | in every mode a tick stays put or moves toward the clamped request and never past it; a violation or Normal mode lands on it |
| ControlLaw.NextNotes | src/envelope/control_law.rs:95-112 | the recorded limits and the readings still to skip do not depend on the mode |
| ClosedLoop.UndisturbedTick | src/envelope/control_law.rs:87-182 | a tick on a reading inside the limits stays in the rating and moves toward neither limit by more than the approach gain allows |
| ClosedLoop.KeepsThreeQuarters | src/envelope/poi_servo.rs:20-26 | one tick on a reading up to three ticks old keeps three quarters of each headroom |
| ClosedLoop.RunStaysInside | src/envelope/control_law.rs:87-182 | for every sequence of requests, lags up to 3, freshness and hold flags, in every mode, also while readings are being skipped, the true POI stays inside both limits |
| ClosedLoop.ClosedLoopSafety | src/envelope/poi_servo.rs:20-26 | a settled start inside the limits keeps the true POI inside them, and the output inside the rating, forever: no overshoot up to a 3 s lag |
| Tightening.TighteningTick | src/envelope/poi_servo.rs:84-92 | a tick on a violated reading moves the output by exactly the jump, on either side |
| Tightening.TighteningsTelescope | src/envelope/control_law.rs:94-108 | under one settled reading any number of tightenings moves the output by exactly the last limit's violation, whichever of the skipped readings come by |
| Tightening.TighteningsInLoop | src/envelope/control_law.rs:88-108 | the same run in the loop itself: each tick reads any of the last four true POIs, from before or after earlier tightenings, fresh or reused, and the output still ends exactly where the last limit asks |
| Tightening.TightenedLoopStaysInside | src/envelope/control_law.rs:27-29 | at the end of such a run the true POI stands on the last limit, and every continuation with readings up to three ticks old stays inside both limits, so the three skipped readings cover the lag |
| NoRinging.ZeroBandTick | src/envelope/poi_servo.rs:94-114 | with both limits 0 floor and ceiling coincide: a tick lands on the one output they allow, or stays put while held or below the write threshold |
| NoRinging.LoadStepNeverRings | src/envelope/poi_servo.rs:28-36 | after a load step seen up to three ticks late the true POI never changes sign nor grows, and n fresh 1 s ticks on readings since the step bring it to at most 0.9^n of the step, or below ten write thresholds |
| ApproachHold.HeldTick | src/envelope/bounds.rs:41-50 | in every mode a held tick never takes a discharging output higher, nor a charging one lower unless the reading is past the export limit |
| ApproachHold.CutsPass | src/envelope/bounds.rs:42-43 | a tick that without the hold would not have moved toward the held side ends on the same output with it |
| ApproachHold.HeldTickGrowsExactly | src/envelope/bounds.rs:41-50 | on a reading inside the limits, in Normal mode, a held tick ends farther from 0 W if and only if request, rating and the other limit let it cross 0 W past its mirror image |
| ApproachHold.HeldReversal | src/envelope/bounds.rs:44-48 | a concrete held tick from 100 W of discharge to 500 W of charge |
| HeldRuns.HeldSinceDeferral | src/envelope/poi_gate.rs:7-12 | every tick from a deferral on is held, until the second distinct reading received after the completing write |
| HeldRuns.MemoryTakesTurns | src/envelope/task.rs:95-194 | over every run of the task its memory goes through exactly the readings, plans and landings of its ready ticks |
| HeldRuns.DeliveredTowardZero | src/dispatch/distribute.rs:59-86 | what all racks are told lies between 0 W and the target |
| HeldRuns.HandoffHoldsOutput | src/envelope/poi_gate.rs:7-12 | over every run of the task, from a tick that holds growth back until the second later reading, the output never goes farther on its side until it crosses 0 W, whatever is requested, missing, stale or lost; charging, as long as the meter keeps to the export limit |
| Recovery.HeldUntilServed | src/envelope/control_law.rs:125-153 | after a clamp, with no new violation, the output stands still exactly until consecutive clear ticks total the dwell |
| Recovery.ViolationReclamps | src/envelope/control_law.rs:114-123 | a violation clamps at once in any mode and restarts the dwell |
| Recovery.RampTick | src/envelope/control_law.rs:160-179 | a ramping tick moves at most ramp x rated x dt toward the target, never past it, and ends the ramp exactly when the target was within reach |
| Recovery.RampArrives | src/envelope/control_law.rs:155-181 | a ramp toward a fixed target arrives, and stays, once its ticks can cover the distance |
| Steering.UnmeteredTick | src/envelope/bounds.rs:53-64 | without a meter a tick moves toward the request held in rating and limits, never past it, and lands there in Normal mode or at a limit |
| Steering.UnmeteredTickWithin | src/envelope/control_law.rs:109-123 | after such a tick, pulled back or not, the output is within the import and export limit it was given |
| Steering.UnmeteredRunWithin | src/envelope/control_law.rs:156-159 | under limits that stand every run, in every mode, keeps the output within them |
| Steering.ReusedReading | src/envelope/bounds.rs:29-31 | a reading used before moves the output toward neither limit that stands |
| Steering.CountedTick | src/envelope/poi_servo.rs:20-26 | a new reading inside the limits: the output lands on the request held in the rating and within a tenth of each headroom per second |
| Steering.PastExportTick | src/envelope/poi_servo.rs:28-36 | past the export limit alone the output is held 0.3 of the excess per second lower, in every mode |
| Steering.PastImportTick | src/envelope/poi_servo.rs:28-36 | past the import limit alone, as much higher |
| Steering.StaleTick | src/envelope/stale.rs:9-28 | on a reading more than 5 s old the magnitude drops by exactly one ramp step of its own side's rating, down to 0 |
| Steering.RampingTick | src/envelope/control_law.rs:160-179 | recovering without a meter, exactly one ramp step of the tick's own time toward the request held in rating and limits |
| Steering.ViolatingMeans | src/envelope/control_law.rs:114-119 | a limit counts as violated exactly when the meter, or the battery alone, is at or past it |
| Steering.ClearMeans | src/envelope/control_law.rs:126-138 | the dwell counts exactly when the limit on the side of the next move has the margin times that side's rating |
| TaskLoop.RunInLoop | src/envelope/task.rs:122-154 | every run of the task on such readings is a run of the closed loop, reading by reading |
| TaskLoop.TaskStaysInside | src/envelope/task.rs:95-194 | over every run of whole ticks on readings up to three ticks late, the true POI stays inside the limits each tick was given, and the output inside the rating |
| Allocation.EligibleOf | src/dispatch/allocation.rs:80-83 | exactly the children not faulted or offline, whatever the policy |
| Allocation.NextRound | src/dispatch/allocation.rs:95-131 | every round that does not finish the demand closes a child: the loop's termination measure |
| Allocation.Raise | src/dispatch/allocation.rs:96-107 | a round's offers are a water line nowhere below the last round's, using exactly the demand |
| Allocation.CappingRound | src/dispatch/allocation.rs:112-126 | a round that caps someone keeps the filling invariant at the raised line |
| Allocation.FillIsFill | src/dispatch/allocation.rs:95-132 | for all caps, weights and totals there is one level L with every share min(cap, weight x L); weightless children receive only once every weighted one is at its cap; the sum is min(total, sum of caps) |
| Allocation.ThresholdLoss | src/dispatch/allocation.rs:95 | stopping at an undistributed remainder takes nothing from the filling but that remainder |
| Allocation.AllocationIsNearFill | src/dispatch/allocation.rs:75-168 | what the program hands out is that filling for its policy's weights, short by at most 2^-52 in all and past it for no child |
| Allocation.CapRound | src/dispatch/allocation.rs:109-121 | the loop over one round's offers caps, sums and keeps exactly the children it should |
| Allocation.TakeOffers | src/dispatch/allocation.rs:127-129 | the last round hands every open child its offer |
| Allocation.Allocate | src/dispatch/allocation.rs:75-139 | the program's loop terminates with the allocation the theorems are about, for every input |
| WaterFilling.FillsDoNotCross | src/dispatch/allocation.rs:69-74 | when no cap shrinks and a child of unchanged cap gets more, no child gets less |
| WaterFilling.FillIsUnique | src/dispatch/allocation.rs:69-74 | the filling is the only assignment of its form |
| WaterFilling.TotalMonotone | src/dispatch/allocation.rs:75-139 | raising the total lowers no share |
| WaterFilling.HeadroomMonotone | src/dispatch/allocation.rs:75-139 | raising one child's headroom raises no other's share and does not lower its own |
| WaterFilling.ReorderingInvariant | src/dispatch/allocation.rs:75-139 | permuting the children permutes the shares |
| FairShares.RaisingTotal | src/dispatch/allocation.rs:75-168 | the same for the program's own shares, to its 2^-52 threshold, weights of the policy included |
| FairShares.RaisingHeadroom | src/dispatch/allocation.rs:75-168 | one child's extra headroom raises no other child's share, nor lowers its own, to the threshold |
| FairShares.OrderDoesNotMatter | src/dispatch/allocation.rs:75-168 | the order children are listed in moves no share, to the threshold |
| Favoured.FavoursStake | src/dispatch/allocation.rs:149-160 | of two eligible children with no less headroom the fuller is given no less when discharging, and the emptier when charging, to 2^-52 |
| Favoured.UncappedInProportion | src/dispatch/allocation.rs:145-168 | shares that headroom does not limit are proportional to the state of charge, or to 100 minus it when charging; equal under an equal split and under the fallback |
| Favoured.NothingAtStakeLast | src/dispatch/allocation.rs:95-132 | an empty child is discharged, or a full one charged, only once every other is at its headroom |
| Distribution.ComputeShares | src/dispatch/distribute.rs:59-86 | the split and the loop that tells every left-out child 0 W compute the shares the theorems are about, or the first rack's error |
| Distribution.ModulesWithBounds | src/der_dispatch/module_bounds.rs:17-64 | the loop with its early exit gathers every dispatchable module, or nothing if one has no state of charge |
| Distribution.ModulesWhenReported | src/der_dispatch/module_bounds.rs:29-37 | the site split waits if and only if a module not locked out, with both bounds, has no state of charge |
| Distribution.ModulesTakingPart | src/der_dispatch/module_bounds.rs:29-34 | it is over exactly the modules that are not locked out and have both bounds |
| Distribution.SharesWhenHeard | src/dispatch/distribute.rs:125-155 | a module is split, whatever the target, if and only if every unlocked rack has both readings, a number for its state of charge, and a known state or one too old to matter |
| Distribution.SharesCoverUnlocked | src/dispatch/distribute.rs:66-85 | exactly the unlocked racks are told something; a locked one never appears |
| RackShares.RackShareBounds | src/dispatch/distribute.rs:141-174 | for any target an unlocked rack is told 0 W if its state or state of charge is over 5 s old or it is faulted or offline, and to discharge at or below the reserve floor; else nothing past its configured bound or its own recent limit, in the target's direction |
| RackShares.HeadroomIsMost | src/dispatch/rack_limits.rs:32-46 | a rack's headroom is exactly the most that its configured bound and a limit read in the last 5 s allow |
| RackShares.ModuleHeadroomIsMost | src/der_dispatch/module_bounds.rs:38-55 | a module's headroom is exactly the most that its own bound and its unlocked racks together allow |
| Conservation.AllocationDelivers | src/dispatch/allocation.rs:75-139 | a split delivers sign x min(\|total\|, sum of eligible headroom), in the total's direction, with no share past its headroom |
| Conservation.ModuleDelivers | src/dispatch/distribute.rs:59-86 | racks that report, are in service and above their floor deliver their module's target up to their joint room |
| Conservation.TwoLevelConservation | src/der_dispatch/module_bounds.rs:24-63 | rack shares over all modules add up to sign x min(\|site target\|, sum of module headrooms), short by at most 2^-52 per split, whatever locked-out modules or modules without bounds are there too |
| Conservation.ZeroTargetZeroShares | src/dispatch/distribute.rs:77-84 | a module told 0 W tells every rack 0 W |
| WriteOrder.ReductionsFirst | src/dispatch/write_order.rs:13-19 | the ordered writes are the given ones, none lost or repeated |
| WriteOrder.SortedByGrowth | src/dispatch/write_order.rs:13-19 | they are in order of growth |
| WriteOrder.BusAfter | src/dispatch/write_order.rs:61-65 | landed writes change the total magnitude by the sum of their growths |
| WriteOrder.OrderedBatchIsSafe | src/dispatch/write_order.rs:10-12 | no prefix of such a batch puts more on the bus than before or after the whole of it |
| PoiGate.PoiGate.constructor | src/envelope/poi_gate.rs:42-47 | no reading used, no handoff |
| PoiGate.PoiGate.Take | src/envelope/poi_gate.rs:51-66 | the whole new state, freshness and hold for one reading |
| PoiGate.PoiGate.GrowthDeferred | src/envelope/poi_gate.rs:69-71 | growth was held back |
| PoiGate.PoiGate.GrowthLanded | src/envelope/poi_gate.rs:74-78 | the count of readings starts, only from a held-back growth |
| PoiGate.FreshOnce | src/envelope/poi_gate.rs:52-53 | a reading passes as fresh at most once |
| PoiGate.HoldIsExact | src/envelope/poi_gate.rs:7-12 | after the growth write the hold stays up exactly until the second distinct reading received after it |
| PoiGate.HandoffHold | src/envelope/poi_gate.rs:49-78 | the whole hold, from the deferral on |
| Writes.WriteState.constructor | src/envelope/writes.rs:11-20 | nothing known, nothing held back |
| Writes.WriteState.MakePlan | src/envelope/writes.rs:38-72 | the plan and the new memory, for every set of shares |
| Writes.WriteState.RecordLanded | src/envelope/writes.rs:75-80 | landed writes become the memory, and complete a handoff |
| Writes.PlanPrefixIsSafe | src/envelope/writes.rs:31-72 | whatever prefix of a plan lands and whatever the devices hold, the bus carries at most the larger of before and after, and the devices' disagreement with the memory; exactly the larger of the two when they agree |
| Writes.HeldBackExactly | src/dispatch/write_order.rs:21-64 | growth is held back if and only if, with none held before, a changed child gives up over 1% of its output while another takes on more; then nothing planned grows, otherwise everything changed is planned |
| Writes.PlanInOrderIsSafe | src/envelope/writes.rs:31-72 | a plan in order of what it adds to what the devices really hold is safe, whatever the memory says |
| Writes.UnsafeAfterCut | src/envelope/task.rs:183-193 | a reachable state, after a plan cut short, in which a plan is not safe |
| Writes.LandedShare | src/envelope/writes.rs:31-37 | a landed plan leaves each device, whatever it held, at its fresh share if that was in the batch, back at its last landed share if not, and alone if it was never written |
| Writes.UndeferredLandsAll | src/envelope/writes.rs:31-37 | a landed plan that held nothing back leaves every device at its share, whatever it held |
| Writes.GrowthHeldOnce | src/dispatch/write_order.rs:33-49 | growth is never held on two changing ticks running, and the second completes the handoff |
| Writes.TwoTicksLandAll | src/envelope/writes.rs:38-80 | constant shares are on every device after the second landed tick, whatever the devices did in between |
| Writes.ZeroSharesLandAtOnce | src/dispatch/write_order.rs:39-47 | all-zero shares are never held back: one landed tick leaves every device at 0 W, whatever it held |
| Writes.HandoffMovesOn | src/envelope/writes.rs:48-80 | a waiting handoff moves on exactly when growth was held last, something changes and the writes land |
| Writes.LostHandoffHolds | src/envelope/task.rs:183-193 | if that write fails the hold stays up until a new deferral |
| Writes.HoldFromDeferral | src/envelope/poi_gate.rs:49-78 | seen from the ticks: from a deferral the approach is held through every tick without a change, and after the completing tick until precisely the second distinct later reading |
| Disagreement.HarmlessIsSafe | src/envelope/writes.rs:31-72 | with no written device holding more than the memory says, and none that is off by more than another holding anything, no plan is unsafe at any prefix |
| Disagreement.HarmfulIsUnsafe | src/envelope/writes.rs:31-72 | with a written device holding more than the memory says, or one holding more than two thresholds and off by that much more than another, some plan is unsafe after its first write |
| Rebalance.RebalanceTask.constructor | src/envelope/task.rs:41-42 | no controller yet, nothing written |
| Rebalance.RebalanceTask.TickOnce | src/envelope/task.rs:76-194 | the composed tick on its objects is the function the run theorems are about |
| Rebalance.RebalanceTask.Steer | src/envelope/task.rs:112-155 | the gate takes the reading, the controller is built on its first complete tick, then ticks or ramps to 0 |
| Rebalance.RebalanceTask.Distribute | src/envelope/task.rs:165-193 | split, pull back the controller, plan and write |
| Rebalance.RebalanceTask.WriteOut | src/envelope/task.rs:177-193 | only a fully landed plan is recorded |
| Rebalance.RebalanceTask.WriteShares | src/dispatch/distribute.rs:93-116 | writes land one by one up to the first failure and stay |
| Rebalance.SyncedAfterTick | src/envelope/task.rs:158-176 | after a ready tick whose racks have reported the output is within 1 W of what they were told if and only if the tick was not de-energized or was steering to within 1 W of 0 |
| Rebalance.WindsUpDeenergized | src/envelope/task.rs:158-176 | for every request in the rating, with no limits, a de-energized tick leaves the whole request as the output while 0 W is told |
| Rebalance.NeverWindsUp | src/envelope/anti_windup.rs:6-15 | over every run, whatever came before, the output is at most 1 W past what the racks can deliver whenever the last ready tick was not de-energized and its racks have reported |
| Rebalance.WindsUpToRatingAtMost | src/envelope/control_law.rs:109-123 | over every run, also while de-energized or with racks that have not reported, the output stays within the rating, the deliverable capacity and where it started, as long as no ceiling is below the rating |
| Rebalance.AgreesAfterPlan | src/envelope/task.rs:183-193 | a plan leaves devices and memory agreeing if and only if it landed in full or the part that landed told no remembered child anything new |
| Rebalance.RunAgrees | src/envelope/writes.rs:13-15 | from any start, as long as every plan so far has landed, the devices hold what the memory says |
| Rebalance.RunPrefixIsSafe | src/dispatch/write_order.rs:10-12 | bus safety of every prefix along such runs, with the children never yet written counted as disagreeing |
| Rebalance.SharesDistinct | src/dispatch/distribute.rs:77-85 | each rack is told at most one thing |
| Rebalance.CeaseToEnergize | src/envelope/task.rs:95-193 | one landed de-energized tick stops every unlocked rack, whatever it held and whatever handoff was under way, and leaves locked racks alone, if the tick's readings are there and every unlocked rack of the module has been heard; if not, it leaves every rack at what it held |
| Rebalance.CeaseToEnergizeExactly | src/envelope/task.rs:95-193 | such a tick leaves an unlocked rack at 0 W whatever the devices held if and only if no reading it waits for is missing and every unlocked rack has been heard |
| Rebalance.SilentRackStopsNothing | src/dispatch/distribute.rs:133-138 | one unlocked rack that never reported its state keeps every rack at what it held |
| Shed.ShedController.constructor | src/envelope/shed.rs:75-83 | nothing written, no timer running |
| Shed.ShedController.Propose | src/envelope/shed.rs:88-143 | the new timers and the proposed cap, if it changes |
| Shed.ShedController.Confirm | src/envelope/shed.rs:146-148 | only a confirmed cap becomes the held one |
| Shed.ShedController.ResetTimers | src/envelope/shed.rs:151-155 | both timers and the trend are cleared |
| Shed.CapStaysHoldable | src/envelope/shed.rs:88-148 | in every reachable state, whichever writes fail, the confirmed cap is on the 0.1% grid or at the GPU floor, and between floor and 100% |
| Shed.CutsNeverOverCut | src/envelope/shed.rs:25-33 | in every reachable state a cut comes only of an import gap, is at most the ramp step, and leaves the predicted POI at or above the import limit |
| Shed.OverLimitRaise | src/envelope/shed.rs:103-143 | an over-limit tick proposes a raise if and only if it is not waiting for storage, the cap is half-way between steps and the cut wanted, the smaller of gap and ramp, is under a step |
| Shed.RaiseWhileOver | src/envelope/shed.rs:88-143 | a concrete fleet and reading where it does |
| Shed.OverForIsPatience | src/envelope/shed.rs:103-127 | the over-limit timer is the time since import was last inside the limit or storage last still closing the gap |
| Shed.DwellBeforeCut | src/envelope/shed.rs:6-10 | while storage has spare, a cut needs that time to reach the full dwell |
| Shed.ExportRaisesAtOnce | src/envelope/shed.rs:12-13 | exporting past the limit raises the cap on that tick, whatever the timers, by the excess or one tick of the ramp |
| Shed.CutsOnceDue | src/envelope/shed.rs:114-128 | with storage spent or the dwell served, a cut goes as far as the excess or one tick of the ramp |
| Shed.RestoresOnceServed | src/envelope/shed.rs:129-135 | with its dwell served a restore goes as far as the room above the margin or one tick of the ramp |
| Shed.ClearForIsRoom | src/envelope/shed.rs:129-139 | the restore timer is the time there has been room without a break |
| Shed.DwellBeforeRestore | src/envelope/shed.rs:129-135 | with nothing exported a raise needs that time to reach the full dwell |
| Shed.Thresholds | src/envelope/shed.rs:18-23 | import falls by more than 0.1% of the fleet's maximum or counts as flat; a cap is proposed for a change of 0.05% or more |
| PowerCap.ChildCapIsItsShare | src/dispatch/power_cap.rs:16-30 | every child is written its own cap: the percentage of its maximum, held in its range, rounded up to whole watts and never below it but for half a microwatt |
| PowerCap.ChildCapsWithinRange | src/dispatch/power_cap.rs:16-30 | with whole-watt ranges every child gets its own cap, inside its own range, at every percentage |
| PowerCap.CapOverrunsExactly | src/dispatch/power_cap.rs:23-26 | no percentage's cap passes the maximum if and only if the maximum, to the microwatt, is no more than its whole watts |
| PowerCap.FleetTakesAtMost | src/dispatch/power_cap.rs:23-26 | from the caps a fleet holds, any cut takes off at most what it asks, a watt and a microwatt per GPU |
| PowerCap.CutTakesNoMoreExactly | src/dispatch/power_cap.rs:23-26 | no cut takes a GPU more than half a microwatt past what it asks if and only if the cap held is at most the percentage's own watts, or the minimum |
| PowerCap.FleetTakesNoMore | src/dispatch/power_cap.rs:23-26 | a fleet of such GPUs gives up at most what is asked and half a microwatt each |
| PowerCap.ShedCutKeepsImport | src/envelope/shed.rs:25-33 | a shed cut written as whole-watt caps brings the POI below the import limit by at most a watt and a microwatt per GPU, and by half a microwatt each from caps that were not rounded up |
| PowerCap.FirstCutKeepsImport | src/envelope/shed.rs:25-33 | the first cut of whole-watt ranges, from full power, passes the limit by at most half a microwatt per GPU |
| PowerCap.CapPastMaximum | src/dispatch/power_cap.rs:23-26 | a concrete GPU capped past its maximum |
| PowerCap.CutPastTheLimit | src/dispatch/power_cap.rs:23-26 | a concrete GPU and reading where a cut passes the limit by 0.995 W |
| Requested.LastRequested.Note | src/dispatch/requested.rs:16-23 | the new request is recorded and the old one handed back |
| Requested.LastRequested.Restore | src/dispatch/requested.rs:27-45 | the old request comes back unless a newer one replaced the failed one |
| Requested.LastRequested.HandleCommand | src/dispatch/mod.rs:161-224 | record, write and restore leave the new value if the write lands, and no trace if it fails or the command is refused |
| Requested.RestoreUndoes | src/dispatch/requested.rs:25-45 | a restore right after its record undoes it |
| Requested.RestoreKeepsNewer | src/dispatch/requested.rs:25-45 | a failed command leaves its replacement alone if and only if that has another value or is what it would put back, and never touches another device |
| Requested.OverlappingFailures | src/dispatch/requested.rs:38-44 | two overlapping commands that both fail, in both orders: with the first to start failing first the record comes back if and only if their values were equal or the first one's was there before; with the second failing first it always does |
| SiteDistribution.EventMemory.constructor | src/der_dispatch/event_memory.rs:16-24 | no event |
| SiteDistribution.EventMemory.Begin | src/der_dispatch/event_memory.rs:34-38 | only the first call of an event takes a snapshot |
| SiteDistribution.EventMemory.Note | src/der_dispatch/event_memory.rs:54-56 | the dispatched share is remembered |
| SiteDistribution.EventMemory.Clear | src/der_dispatch/event_memory.rs:79-81 | the event is forgotten |
| SiteDistribution.SiteTask.DispatchOne | src/der_dispatch/module_command.rs:16-60 | one command through the handler |
| SiteDistribution.SiteTask.DispatchTick | src/der_dispatch/site_distribution.rs:143-162 | a tick with an event: snapshot, then command and remember what changed |
| SiteDistribution.SiteTask.CommandRestores | src/der_dispatch/site_distribution.rs:106-118 | every restore is commanded, in any order, with the same outcome |
| SiteDistribution.SiteTask.ReleaseTick | src/der_dispatch/site_distribution.rs:96-122 | the release, forgetting the event only once all restores were handled |
| SiteDistribution.SnapshotIsEventStart | src/der_dispatch/event_memory.rs:30-38 | over any interleaving the snapshot is the record at the event's first Dispatch tick |
| SiteDistribution.ReleaseOutcome | src/der_dispatch/event_memory.rs:63-76 | what a release does to each module whatever lands; the event is forgotten if and only if every restore was handled |
| SiteDistribution.ReleasePutsBack | src/der_dispatch/event_memory.rs:58-76 | a landed restore puts a module within a microwatt of the event's share back to the snapshot, or to 0 W, and no other module is touched |
| SiteDistribution.DispatchOnlyChanges | src/der_dispatch/event_memory.rs:40-51 | a tick of an event commands a module exactly if its share is a microwatt or more off what it was last told |
| SiteDistribution.ReleaseRestoresOperator | src/der_dispatch/site_distribution.rs:92-122 | over any interleaving of ticks and operator commands, a release whose restores land returns every module still holding the share the event remembers to its record at the event's first Dispatch tick, 0 if none, and leaves the others alone |
| SiteDistribution.EventShareReturns | src/der_dispatch/site_distribution.rs:156-162 | over any interleaving, a module whose setpoint is the event's doing goes back, when its restore lands, if and only if the event's last handled command to it asked for the same share |
| SiteDistribution.LandedShareReturns | src/dispatch/mod.rs:206-224 | one landed command at a time: its share is taken back if and only if the command was handled too, or asked for what was remembered |
| SiteDistribution.LostAcknowledgement | src/dispatch/mod.rs:207-209 | for every record and share, a landed share whose acknowledgement is lost outlives the event and becomes the next one's snapshot |
| SiteDistribution.FailedRedispatch | src/der_dispatch/site_distribution.rs:158-161 | a share followed by a handled one that did not land outlives the event |
| SiteDistribution.HandledFailureIsForgotten | src/der_dispatch/site_distribution.rs:106-121 | once all restores are handled the event is forgotten, and a module keeps the event's share if and only if its write failed or would have changed nothing |
| SiteDistribution.StandsUnlessCommanded | src/der_dispatch/event_memory.rs:58-62 | a module not holding the event's share keeps its setpoint through anything that does not command it |
| SiteDistribution.OperatorValueStands | src/der_dispatch/event_memory.rs:58-76 | an operator's mid-event value survives the release if and only if it is not the event's own share, or its restore does not land or restores that value |
| SiteDistribution.OperatorValueOutlasts | src/der_dispatch/event_memory.rs:58-76 | one that differs from the event's share outlasts any number of releases |
| SiteDistribution.RetryLeavesRestored | src/der_dispatch/site_distribution.rs:92-122 | a retried release never re-commands a module already restored to a different value |
| CommandWord.MachineBits | src/sunspec/bits.rs:73-81 | or, and-not and shift on a 32-bit word are union, difference and singleton on the bits that are on |
| CommandWord.VerbLeavesBit | src/sunspec/bits.rs:38-48 | which verbs write the bit on, and which keep it on |
| CommandWord.Apply | src/sunspec/bits.rs:71-81 | the word a command writes and the one it keeps, bit by bit |
| CommandWord.Beats | src/sunspec/heartbeat.rs:35-55 | one entry per point some binding names a bit of, owning exactly the bits named |
| CommandWord.WordSlot.constructor | src/sunspec/bits.rs:59-69 | a slot starts empty |
| CommandWord.WordSlot.Feed | src/sunspec/heartbeat.rs:72-96 | one beat: forget, seed or re-assert |
| CommandWord.WordSlot.WriteBit | src/sunspec/write.rs:65-83 | one bit command: refused with no heartbeat, kept only once its write lands |
| CommandWord.LatchedStep | src/sunspec/bits.rs:71-81 | how one event changes whether a bit was set since the last seeding and not undone |
| CommandWord.WordMeans | src/sunspec/bits.rs:4-8 | after every run an unowned bit is as last read at seeding, and an owned one is on exactly if it was set since and not undone |
| CommandWord.SentMeans | src/sunspec/heartbeat.rs:72-96 | the same of every word ever written, whether or not the write lands |
| CommandWord.PulseIsOneWrite | src/sunspec/bits.rs:33-34 | a pulse that lands is in its own write and in no later one before it is asked for again |
| CommandWord.NeverResumesItself | src/sunspec/heartbeat.rs:1-5 | once steering is lost nothing is written before a fresh seeding, and then every owned bit is off until asked for |
| CommandWord.FailedStopIsUndone | src/sunspec/write.rs:80-82 | a stop whose write fails leaves the next beat asserting the bit |
| RegisterCodec.EncodeThenDecode | src/modbus/codec.rs:52-120 | integer round trip for every width, sign and word order; the two orders are each other's reversal |
| RegisterCodec.DecodeThenEncode | src/modbus/codec.rs:52-120 | every register content is the encoding of what it decodes to |
| RegisterCodec.FirstCountsMost | src/modbus/codec.rs:61-107 | with the high word first the registers are the digits of the value to base 65536, highest first, negatives wrapped at the type's width |
| RegisterCodec.RawRoundTrip | src/modbus/codec.rs:126-152 | refused if and only if the value is a half or more outside the type's range; otherwise the rounded value comes back |
| RegisterCodec.ScaledRoundTrip | src/modbus/codec.rs:154-163 | with a binding's scale and offset a setpoint reads back within half the scale |
| ScaledSetpoint.ReservedContent | src/sunspec/client.rs:90-99 | one number per type encodes to the reserved content |
| ScaledSetpoint.RefusedExactly | src/sunspec/write.rs:35-63 | the exact range of accepted setpoints, in engineering units: the register's own, and less than half a unit on either side |
| ScaledSetpoint.ReadBack | src/sunspec/client.rs:53-99 | an accepted setpoint reads back within half of 10^sf if and only if its count is not the reserved one |
| ScaledSetpoint.ReservedIsWritten | src/sunspec/write.rs:43-63 | such a setpoint is accepted |
| ScaledSetpoint.CountedInPowersOfTen | src/modbus/sunspec.rs:1-16 | a setpoint is counted in units of ten to the signed scale word |
| ScaledSetpoint.PowersOfTen | src/modbus/sunspec.rs:16 | each step of the exponent is a factor of ten |
| ScaledSetpoint.CountExamples | src/sunspec/write.rs:43-63 | two concrete setpoints and their registers |

## Left out

- Floating-point rounding, overflow and NaN: numbers are reals, so an extreme
  SunSpec exponent scales exactly instead of overflowing, and a 64-bit integer is
  read back exactly instead of to 53 bits.
- WaterFilling.TotalMonotone: the lemmas of `WaterFilling` are about the exact
  filling; the program's own shares follow it to 2^-52 in all, which `FairShares` states.
- FairShares.RaisingTotal: under the state-of-charge policy, needs states of charge
  between 0 and 100, outside which a weight is negative; the program does not check
  it. The same holds of `Favoured` and of the amounts in `RackShares.RackShareBounds`.
- Conservation.TwoLevelConservation: every module that takes part has racks, and
  every unlocked rack reports, is in service and is above its floor unless charging.
- Tightening.TighteningsInLoop: the request asks for no more relief than the limit,
  and no rating or held approach is in the way, as at
  `Tightening.TighteningsTelescope`.
- Tightening.TighteningsTelescope: each step of a limit is 0 or at least 2^-52,
  the write threshold, below which the program writes nothing.
- NoRinging.LoadStepNeverRings: starting output and new load are inside the
  rating, and only fresh 1 s ticks on readings taken since the step are counted.
- Rebalance.NeverWindsUp: says nothing right after a de-energized tick, or one whose
  racks were not all heard, where the code does wind up; `Rebalance.WindsUpToRatingAtMost` is what holds there.
- TaskLoop.TaskStaysInside: the battery delivers the command, and the racks can be
  told it to within 1 W; a tick cut back to what the racks can deliver is covered
  by `Rebalance.NeverWindsUp` alone.
- HeldRuns.HandoffHoldsOutput: as long as the output has not crossed 0 W, and while
  charging the meter keeps to the export limit, past which a cut must pass the hold.
- Steering.UnmeteredRunWithin: limits that stand and are not negative; when a limit
  tightens in Constrained or Ramping mode, only ticks at the limit, or already
  within it, are bounded by it (`Steering.UnmeteredTickWithin`).
- Steering.CountedTick: in Normal mode; in the other modes the output moves toward
  the same place (`ControlLaw.OutputMovesTowardTarget`).
- Writes.PlanPrefixIsSafe: after a plan cut short, or before a child was first
  written, only up to the disagreement; the plain bound is false then.
- WriteOrder.ReductionsFirst: the library's stable sort is modelled as a stable
  insertion sort on values; the vector is not sorted in place.
- SiteDistribution.ReleaseRestoresOperator: commands do not overlap;
  `Requested.OverlappingFailures` says what goes wrong when they do.
- Requested.LastRequested: only the one channel that distribution uses; other
  channels of a device are independent entries.
- PoiServo.BackOffNeverOvershoots: one tick on a present reading; stability of
  the 0.3/s violation gain under lag is not proved.
- RegisterCodec.RawRoundTrip: the Float32 type, which needs IEEE 754 single precision.
- ScaledSetpoint.ReadBack: the scale register reads the same at the write and at the read.
- CommandWord.Beats: bindings are taken as parsed, with bits below 32.
- The recharge request, the reserve floor's own derivation and the storage-spare
  sum: inputs of the model.
- Discovery of a device's SunSpec models and the cache of them.
- MQTT, HTTP, TLS and every protocol session; configuration, topics, payloads,
  logging, tasks, timers and locks (except that a command word's lock makes each
  beat and each bit command one step).
- Synthetic measurements, polling, counter heartbeats and function-code tables.
