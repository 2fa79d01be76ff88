# SE_Booster thrust boost, modelled in Dafny

SE_Booster is a Space Engineers session component. While the player holds
Shift in a cockpit, it boosts every thruster of the grid being controlled:
thrust ×5, power ×2.5, flame strength 2.5 and an orange flame light. Boosting
heats each thruster in proportion to its thrust ratio. A thruster that reaches
MAX_HEAT (100) overheats: it drops back to baseline, shows the "Damage"
effect, and cools until its heat is 0 again. The boost gate is computed once
per tick, before any thruster is updated. So from the tick after a thruster
overheats, and for as long as it stays overheated, no thruster on the vehicle
may boost; on the tick it overheats, the other boosting thrusters keep
boosting.
A HUD notification shows a header and a 40-column heat bar.

The model has six modules.

- `UnitSpec` (`unit_spec.dfy`) holds the per-thruster state machine as values.
  - The boost record is heat, saved colour and mode Normal/Boost/Overheat.
  - The actuation fields are what the mod writes on a thruster.
  - It has one function per handler: `Cooled`, `Enabled`, `Disabled`,
    `HeatedUp`, `NormalStep`, `BoostStep`, `OverheatStep`, and the
    dispatcher `Advance`.
  - Lemmas state what each transition does and what every transition keeps.
- `UnitRuns` (`unit_runs.dfy`) covers runs of many ticks with a fixed reading
  and gate:
  - cooldown over n ticks;
  - idempotence of an idle, cold thruster;
  - a full-thrust run that, with exact arithmetic, boosts for 600 ticks and
    overheats at exactly 100 on tick 601;
  - a zero-thrust run that never heats;
  - an overheated thruster that ignores the gate while it cools.
- `UnitMachine` (`unit_machine.dfy`) is the imperative state machine.
  - Class `Thruster` holds the host fields the mod reads and writes.
  - The handlers `EnableBooster`, `DisableBooster`, `ApplyCooldown`,
    `ApplyHeatup` and the three `UpdateThruster*Mode` methods update it in
    place, and each is proved equal to its `UnitSpec` function.
- `StatusText` (`status_text.dfy`) is the notification text.
  - `Message` is its meaning as a value.
  - `MessageLayout` states the layout exactly.
  - `RenderMessage` and the helper `AppendBar` are the source's loops, proved
    to build `Message`.
- `Fleet` (`fleet.dfy`) is one tick over all thrusters, on values:
  - the first pass (`AnyOverheat`) and the gate (`Gate`);
  - the second pass (`PassUpTo`/`Pass`), which folds the peak heat and the
    overheat flag;
  - the show/hide decision (`Shown`, `Text`);
  - lemmas on the peak, the overheat flag and the independence of thrusters,
    plus the gate properties: an overheated thruster is never re-boosted,
    another thruster's overheat revokes boost, and an overheat during the
    pass closes the gate only from the next tick;
  - what leaving the ship does to a boosted thruster: its record is dropped
    but its actuation is not restored.
- `Controller` (`controller.dfy`) is the session component as class
  `ThrustBoost`.
  - Its fields are the grid, the thruster list, the record map and the
    notification.
  - The tick `UpdateBeforeSimulation` runs the two loops (`AnyOverheated`,
    `AdvanceAll`) and `Notify`, and is proved against `Fleet`.
  - Also modelled: `ControlledEntityChanged`, `UpdateThrusters` and the
    block-added and block-removed handlers.

Heat is an exact `real`. The thrust ratio `CurrentThrust / MaxThrust` is an
input in [0, 1]. The shift key is a parameter of the tick.

Two behaviours of the code are easy to miss, and the model keeps both:

- A Normal thruster with the gate open goes to Boost without gaining heat on
  that tick (`ThrustBoost.cs:279-283`). At full thrust and with exact
  arithmetic, the overheat therefore comes on tick 601, not 600
  (`UnitRuns.FullThrustOverheats`).
- The record map is cleared only when the controlled entity has no grid
  (`ThrustBoost.cs:172-179`). Switching directly to another grid, or
  rebuilding the thruster list, keeps every record. Clearing the map does not
  call DisableBooster or RemoveEffect, so a thruster left boosting (or
  damaged) keeps that actuation; on re-entry it reads as a fresh Normal
  record, and a tick with the gate closed does not restore it
  (`Fleet.StaleBoostAfterReentry`).

## Model

| member | source | states |
|---|---|---|
| `UnitSpec.HeatQuantValue` | SE_Booster/ThrustBoost.cs:38-48 | the heat step is MAX_HEAT / 60 / MAX_BOOST_TIME |
| `UnitSpec.CooldownQuant` | SE_Booster/ThrustBoost.cs:352-353 | the cooldown step (1 − 0.75·r)·HEAT_QUANT lies between a quarter of HEAT_QUANT and HEAT_QUANT for r in [0, 1], and is the full HEAT_QUANT with no thrust |
| `UnitSpec.HeatupQuant` | SE_Booster/ThrustBoost.cs:334-335 | the heatup step r·HEAT_QUANT lies in [0, HEAT_QUANT], and it is 0 exactly when the thrust ratio is 0 |
| `UnitSpec.Cooled` | SE_Booster/ThrustBoost.cs:348-360 | heat drops by the cooldown step and is clamped at 0, so it is never negative; mode and colour are unchanged; within range, heat does not rise and stays the same only at 0 |
| `UnitSpec.Enabled` | SE_Booster/ThrustBoost.cs:362-375 | boosted multipliers, strength and flame colour; the current ThrustColor is saved in the record; heat, mode and damage are untouched |
| `UnitSpec.Disabled` | SE_Booster/ThrustBoost.cs:377-389 | multipliers and strength go back to 1 and the light to the saved colour; the record and damage are untouched |
| `UnitSpec.HeatedUp` | SE_Booster/ThrustBoost.cs:330-346 | heat rises by the heatup step; at or above MAX_HEAT it is clamped to exactly MAX_HEAT, the booster is disabled and an overheat is reported (in both directions); otherwise the actuation is unchanged; heat stays in [0, MAX_HEAT] |
| `UnitSpec.NormalStepSpec` | SE_Booster/ThrustBoost.cs:277-288 | with the gate open: Boost at unchanged heat, boosted, colour saved; with it closed: cooldown only, actuation kept, and no change at all from heat 0 |
| `UnitSpec.BoostStepSpec` | SE_Booster/ThrustBoost.cs:290-308 | with the gate open: heatup, and at MAX_HEAT Overheat with heat exactly MAX_HEAT, baseline actuation with the saved colour and damage set; below it, still Boost with unchanged actuation; with the gate closed: Normal at baseline with heat unchanged |
| `UnitSpec.OverheatStepSpec` | SE_Booster/ThrustBoost.cs:310-328 | cooldown whatever the gate; while heat stays above 0, record (but heat) and actuation are kept; at 0, damage is removed and the mode becomes Boost (boosted, colour saved) or Normal according to the gate |
| `UnitSpec.AdvanceSpec` | SE_Booster/ThrustBoost.cs:259-270 | every transition keeps heat in [0, MAX_HEAT] and mode and actuation consistent; only a boosting thruster overheats, always at MAX_HEAT; Overheat is left only at heat 0; nothing boosts with the gate closed |
| `UnitRuns.RunKeeps` | SE_Booster/ThrustBoost.cs:251-275 | over any number of ticks with the same reading and gate, heat stays in [0, MAX_HEAT] and mode and actuation stay consistent |
| `UnitRuns.CooledForClosed` | SE_Booster/ThrustBoost.cs:353-359 | clamping at 0 after every cooldown step gives the same result as subtracting n steps and clamping once |
| `UnitRuns.CooldownRun` | SE_Booster/ThrustBoost.cs:284-287 | a Normal thruster with the gate closed for n ticks loses n cooldown steps of heat, clamped at 0, and keeps its mode and actuation |
| `UnitRuns.IdleIsNoOp` | SE_Booster/ThrustBoost.cs:284-287 | an idle, cold Normal thruster is unchanged by any number of ticks |
| `UnitRuns.BoostRun` | SE_Booster/ThrustBoost.cs:292-302 | a boosting thruster with the gate open gains n heatup steps and stays in Boost, as long as that stays below MAX_HEAT |
| `UnitRuns.FullThrustBoosting` | SE_Booster/ThrustBoost.cs:279-302 | at full thrust from cold, tick k (1 to 600) leaves the thruster boosting with k − 1 heat steps, below MAX_HEAT |
| `UnitRuns.FullThrustOverheats` | SE_Booster/ThrustBoost.cs:290-302 | at full thrust from cold, tick 601 overheats at exactly MAX_HEAT, at baseline with the saved colour and with damage set |
| `UnitRuns.ZeroThrustStaysCold` | SE_Booster/ThrustBoost.cs:330-336 | with no thrust, holding boost keeps a thruster boosting at heat 0 forever |
| `UnitRuns.OverheatRun` | SE_Booster/ThrustBoost.cs:310-328 | an overheated thruster ignores the gate and keeps record and actuation (damage included) while n cooldown steps leave heat above 0 |
| `UnitMachine.EnableBooster` | SE_Booster/ThrustBoost.cs:362-375 | the in-place writes to the thruster and the record produce `Enabled` |
| `UnitMachine.DisableBooster` | SE_Booster/ThrustBoost.cs:377-389 | the in-place writes to the thruster produce `Disabled` |
| `UnitMachine.ApplyCooldown` | SE_Booster/ThrustBoost.cs:348-360 | the record after cooldown is `Cooled`: mode and colour are kept and heat is never negative; the thruster is only read |
| `UnitMachine.ApplyHeatup` | SE_Booster/ThrustBoost.cs:330-346 | the record, the thruster fields and the returned overheat flag are `HeatedUp` |
| `UnitMachine.UpdateThrusterNormalMode` | SE_Booster/ThrustBoost.cs:277-288 | the handler produces `NormalStep` |
| `UnitMachine.UpdateThrusterBoostMode` | SE_Booster/ThrustBoost.cs:290-308 | the handler produces `BoostStep` |
| `UnitMachine.UpdateThrusterOverheatMode` | SE_Booster/ThrustBoost.cs:310-328 | the handler produces `OverheatStep` |
| `StatusText.Ceiling` | SE_Booster/ThrustBoost.cs:130 | Math.Ceiling with the integer cast gives the least integer not below its argument |
| `StatusText.MessageLayout` | SE_Booster/ThrustBoost.cs:126-162 | the header is OVERHEAT if overheated, else ENGAGED if engaged, else COOLDOWN; then the newline, '[', `fill` hashes where fill = ceil(progress·40/100), underscores to column 40, and ']'; for progress in [0, 100] there are exactly 40 columns between the brackets |
| `StatusText.RenderMessage` | SE_Booster/ThrustBoost.cs:126-162 | the header branches followed by the bar build exactly `Message` |
| `StatusText.AppendBar` | SE_Booster/ThrustBoost.cs:149-159 | the two index loops append '[', the hashes, the underscores and ']' |
| `Fleet.AnyOverheat` | SE_Booster/ThrustBoost.cs:85-91 | the first pass is true exactly when some tracked thruster's record (Normal on a miss) is in Overheat |
| `Fleet.Gate` | SE_Booster/ThrustBoost.cs:93 | boost is enabled exactly when the key is held and no tracked thruster was overheated before the tick |
| `Fleet.PassRecords` | SE_Booster/ThrustBoost.cs:272 | the second pass keeps every record and adds one per visited id; records of ids it does not visit are unchanged |
| `Fleet.PassUnits` | SE_Booster/ThrustBoost.cs:97-108 | with distinct ids, each thruster's stored record and new actuation are what UpdateThruster makes of it from the records before the tick |
| `Fleet.PassPeak` | SE_Booster/ThrustBoost.cs:95-105 | the reported heat is the maximum post-update heat: no thruster is hotter, and some thruster is exactly that hot |
| `Fleet.PassOverheat` | SE_Booster/ThrustBoost.cs:96-107 | hasOverheat is true exactly when some thruster ends the tick in Overheat |
| `Fleet.PassInRange` | SE_Booster/ThrustBoost.cs:97-108 | every stored heat and the peak stay in [0, MAX_HEAT] |
| `Fleet.OverheatedNeverReboosts` | SE_Booster/ThrustBoost.cs:85-93 | a thruster overheated before the tick closes the gate, so the Overheat-to-Boost branch cannot fire from a tick |
| `Fleet.BoostRevokedByOtherOverheat` | SE_Booster/ThrustBoost.cs:85-108 | a boosting thruster on a vehicle where another is overheated drops to Normal at baseline with its heat unchanged, even with the key held |
| `Fleet.OverheatClosesGateNextTick` | SE_Booster/ThrustBoost.cs:85-108 | the gate is fixed before the second pass: a thruster that overheats during the pass leaves another boosting thruster below MAX_HEAT in Boost with its actuation on that tick, and the gate computed from the new records is closed |
| `Fleet.StaleBoostAfterReentry` | SE_Booster/ThrustBoost.cs:172-179 | after the records are dropped, a boosted thruster reads as a fresh Normal record and a tick with the gate closed keeps its boosted actuation |
| `Fleet.TickNotification` | SE_Booster/ThrustBoost.cs:110-121 | the notification is shown exactly when boost is enabled or some thruster is warm after the tick, and its header reads OVERHEAT exactly when some thruster ends the tick overheated |
| `Controller.ThrustersOf` | SE_Booster/ThrustBoost.cs:216-221 | every element of the list is a thruster block of the grid, every thruster block of the grid is in the list, and the list is no longer than the block sequence; order and multiplicity are fixed by the definition, not by the contract |
| `Controller.ThrustBoost.ReadThrusterState` | SE_Booster/ThrustBoost.cs:240-249 | gives the record's mode, or Normal on a miss, and inserts nothing |
| `Controller.ThrustBoost.UpdateThruster` | SE_Booster/ThrustBoost.cs:251-275 | reads the record (fresh on a miss), stores `Advance` of it under the thruster's id, writes the new actuation and returns the new heat and mode |
| `Controller.ThrustBoost.AnyOverheated` | SE_Booster/ThrustBoost.cs:85-91 | the first loop computes `Fleet.AnyOverheat` |
| `Controller.ThrustBoost.AdvanceOne` | SE_Booster/ThrustBoost.cs:99-107 | one iteration of the second loop extends the pass by one thruster |
| `Controller.ThrustBoost.AdvanceAll` | SE_Booster/ThrustBoost.cs:95-108 | the second loop leaves the records, the actuations, the peak heat and the overheat flag of `Fleet.Pass`, and never writes what a thruster reads |
| `Controller.ThrustBoost.Notify` | SE_Booster/ThrustBoost.cs:110-121 | shows the rendered message for progress 100·heat/MAX_HEAT when boost is enabled or heat is above 0, and hides the notification otherwise |
| `Controller.ThrustBoost.UpdateBeforeSimulation` | SE_Booster/ThrustBoost.cs:75-122 | no change without a grid or thrusters; otherwise the records, actuations and notification are those of `Fleet.Gate`, `Fleet.Pass` and `Fleet.Text`; the class invariant is kept |
| `Controller.ThrustBoost.UpdateThrusters` | SE_Booster/ThrustBoost.cs:211-222 | the list is rebuilt from the grid's blocks and the record map is left as it is |
| `Controller.ThrustBoost.ControlledEntityChanged` | SE_Booster/ThrustBoost.cs:164-199 | with no grid, the list and the whole map are cleared; otherwise the list is rebuilt, the map is kept and the hint is marked shown |
| `Controller.ThrustBoost.OnBlockAdded` | SE_Booster/ThrustBoost.cs:201-204 | the list is rebuilt |
| `Controller.ThrustBoost.OnBlockRemoved` | SE_Booster/ThrustBoost.cs:206-209 | the list is rebuilt |

## Left out

- Initialize (lines 57-73) is not modelled. At the top of every tick (line 78) the source runs it once, and it calls the mod's own ControlledEntityChanged with the entity the player controls (line 67), so the first tick attaches to the current cockpit's grid before ticking. A fresh model `ThrustBoost` instead has no grid, and its ticks do nothing until `ControlledEntityChanged` is called.
- Event subscription (`+=`/`-=` on the grid's block events) is not modelled. The handlers are plain methods.
- The cast `(entity?.Entity as IMyCockpit)?.CubeGrid` (line 172) is not modelled: `ControlledEntityChanged` takes the resulting grid. For a null entity or an entity that is not a cockpit, the caller passes null, and the list and the map are cleared as in the source.
- Logging (`MyLog`) is not modelled. It has no effect on state.
- The HUD notification is reduced to two fields, `notificationVisible` and `notificationText`. `CreateNotification`, `ResetAliveTime` and the font are not modelled, and the one-shot hint is only the `hintShown` flag.
- The shift key (`IsAnyShiftKeyPressed`) is the `shift` parameter of the tick.
- Single-precision floating point is not modelled: heat and ratios are exact reals. The thrust ratio `CurrentThrust / MaxThrust` is an input required to lie in [0, 1], so the division by a zero `MaxThrust` is not modelled.
- UnitRuns.FullThrustOverheats: the tick count holds for exact arithmetic only. The source keeps heat in a `float` (line 235) and adds the single-precision HEAT_QUANT each tick (lines 48, 336). With rounding after every add, 600 heatups at full thrust sum to about 99.99964, below MAX_HEAT, so the source overheats one tick later, on tick 602.
- `UpdateLight` and `UpdateThrustFlame` are host refresh calls and are not modelled. `SetEffect("Damage")` and `RemoveEffect` are the `damaged` field.
- `GetBlocks`, the `_slimBlocks` buffer and `Capacity` are replaced by the grid's block sequence, filtered to thrusters (`ThrustersOf`).
- The shared StringBuilder is a local string. `AppendLine`'s newline is the fixed constant "\r\n".
- Controller.ThrustBoost.UpdateThrusters: requires the grid's thruster ids (EntityId) to be distinct, as the host guarantees. The source does not check this; the model needs it so that the per-thruster lemmas hold.
- Controller.ThrustBoost.UpdateBeforeSimulation: requires every thrust ratio to lie in [0, 1], which the host's CurrentThrust and MaxThrust guarantee.
