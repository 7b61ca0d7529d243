# Thermal decision engine — a Dafny model

This project models the decision engine of the thermal-comfort dashboard:
the two classes of `dash-app/dash_app/src/data_processing/ThermalControlUnit.py`.

- `UserConfig` holds the occupant's target room temperature. It derives a
  seasonal default from the month and keeps a one-slot rollback of the
  target.
- `ThermalControlUnit` runs one decision cycle at a time:
  1. It refreshes a rolling window of fused sensor rows: merge newer rows,
     keep the last H hours, sort by time.
  2. It checks the latest row against fixed thresholds (high-level pass).
  3. When the thresholds propose neither heat nor cool, it combines the
     classifier's recent mode with the occupant's feedback (low-level
     pass). This pass may recalibrate the target temperature by sweeping a
     0.01 °C grid.
  4. It blocks actions that would reverse a decision younger than 30
     minutes.
  5. It chooses the actuators and writes the actions back onto the latest
     stored row.
  6. It can roll back to the decision captured before the last one.

Modules, one per concern of the source:

| file | module | what it holds |
|---|---|---|
| `Records.dfy` | `Records` | sensor row, action flags, decision, error kinds |
| `UserConfig.dfy` | `Config` | seasonal default, `update_optimal_room_temp`, class `UserConfig` |
| `HighLevel.dfy` | `HighLevel` | the three threshold checks and the high-level pass |
| `LowLevel.dfy` | `LowLevel` | classifier mode over the last 12 rows, the feedback rules |
| `Recalibration.dfy` | `Recalibration` | the temperature grid, the zone table, the midpoint rule |
| `Guard.dfy` | `Guard` | contradiction guard, actuator choice, persisting onto the last row |
| `Window.dfy` | `Window` | merge, trim and sort of the rolling window |
| `Engine.dfy` | `Engine` | class `ThermalControlUnit`: one cycle, rollback, user preference |

The objects that the source updates in place are classes:
`Config.UserConfig` and `Engine.ThermalControlUnit`. Each of their methods
states its whole new state through a specification function of the old
state: `Config.Updated`, `Window.RefreshedWindow`, `Engine.CycleActions`,
`Engine.ConfigAfterCycle`, `Engine.FeedbackAfterCycle` and
`Engine.CapturedDecision`. The lemmas state what those functions promise.

Inputs that the source reads from the environment become parameters:

- `now`: the wall clock, in seconds.
- `month`: the calendar month of the clock.
- `dayChanged`: whether the clock's day of the month differs from that of
  the newest cached row.
- `today` and `yesterday`: the rows of the day files.

Rows persisted to today's file are returned, not written. The ASHRAE score
is a function parameter `ashrae(candidate, target)` of the unit.

Temperatures and humidity are `real`; timestamps are integer seconds; an
action flag is the integer 0 or 1.

### Behaviour of the code worth knowing

- `rollback_last_decision` never clears `rollback_decision`, so a second
  rollback in a row succeeds and re-applies the same decision.
  `Engine.ThermalControlUnit.RollbackLastDecision` keeps the captured
  decision.
- The guard looks at the newest row of the window whose four action
  columns are set. The engine never writes its own decisions into the
  window: `persist_actions` writes the day file, and the next refresh only
  merges rows newer than the cached maximum. So the guard sees only
  decisions that were already on rows when those rows were merged.
  `Engine.ThermalControlUnit.DecisionMaking` states that the window after a
  cycle is exactly the refreshed window.
- The guard clears at most one flag per axis (`if`/`elif`). For the
  proposals the two passes make, which never set both flags of an axis,
  this is the same as clearing each flag independently against a recent
  opposite (`Guard.GuardOnExclusiveActions`, `Engine.CycleActions`).
- The comfort score truncates toward zero with `int(...)`. The score is a
  parameter here, so this does not affect the model.

## Model

Source paths are relative to the repository root.

| member | source | states |
|---|---|---|
| Config.SeasonOf | dash-app/dash_app/src/data_processing/ThermalControlUnit.py:20-30 | spring exactly for months 3–5, summer for 6–8, autumn for 9–11, winter for every other month |
| Config.SeasonalTarget | dash-app/dash_app/src/data_processing/ThermalControlUnit.py:20-39 | the default is 20.0 exactly in summer months, 21.0 exactly in spring and autumn months, 22.0 exactly otherwise |
| Config.Updated | dash-app/dash_app/src/data_processing/ThermalControlUnit.py:41-53 | a truthy value (present and non-zero) becomes the target, the old target goes to the rollback slot, and the user-set flag is raised; otherwise the seasonal default is re-derived only while the flag is down, and nothing changes once it is up; a rollback slot is never filled without the flag |
| Config.RollbackSwaps | dash-app/dash_app/src/data_processing/ThermalControlUnit.py:41-50 | updating with the (non-zero) rollback slot swaps target and slot |
| Config.RollbackTwiceRestores | dash-app/dash_app/src/data_processing/ThermalControlUnit.py:41-50 | two rollbacks in a row restore the configuration |
| Config.EmptyRollbackNoSwap | dash-app/dash_app/src/data_processing/ThermalControlUnit.py:41-53 | rolling back with an empty slot swaps nothing and only re-derives the seasonal default while the user has not set a target |
| Config.PreferenceThenRollback | dash-app/dash_app/src/data_processing/ThermalControlUnit.py:41-53 | an explicit preference sets the flag and one rollback recovers the previous target |
| Config.UserConfig.constructor | dash-app/dash_app/src/data_processing/ThermalControlUnit.py:10-18 | construction always sets the target to the seasonal default, with an empty rollback slot, the flag down and `last_feedback` 0 |
| Config.UserConfig.UpdateOptimalRoomTemp | dash-app/dash_app/src/data_processing/ThermalControlUnit.py:41-53 | the fields after the call are `Updated` of the fields before; `last_feedback` is untouched |
| HighLevel.CheckRoomTemperature | dash-app/dash_app/src/data_processing/ThermalControlUnit.py:271-284 | heat exactly below 18.0, cool exactly above 26.0 (strict thresholds) |
| HighLevel.CheckSkinTemperature | dash-app/dash_app/src/data_processing/ThermalControlUnit.py:286-299 | heat exactly below 30.0, cool exactly above 38.0 |
| HighLevel.CheckRoomHumidity | dash-app/dash_app/src/data_processing/ThermalControlUnit.py:301-310 | humidify exactly below 20.0, dry exactly above 80.0 |
| HighLevel.HighLevelActions | dash-app/dash_app/src/data_processing/ThermalControlUnit.py:239-269 | cool and heat each in closed form over room and wrist temperature, humidify and dry over humidity; never heat and cool, never humidify and dry |
| HighLevel.OpposingSignalsCancel | dash-app/dash_app/src/data_processing/ThermalControlUnit.py:254-263 | a room check and a skin check that oppose each other give neither heat nor cool |
| HighLevel.TemperatureDecidedIffUnopposed | dash-app/dash_app/src/data_processing/ThermalControlUnit.py:254-263 | heat or cool is proposed exactly when some check is not neutral and the two checks do not oppose |
| LowLevel.Predictions | dash-app/dash_app/src/data_processing/ThermalControlUnit.py:323-325 | the classifier column of a run of rows, element by element |
| LowLevel.LagPredictions | dash-app/dash_app/src/data_processing/ThermalControlUnit.py:321-325 | the labels of the last min(12, n) rows, in row order |
| LowLevel.Mode | dash-app/dash_app/src/data_processing/ThermalControlUnit.py:323-325 | the result occurs in the labels, no label occurs more often, and among equally frequent labels it is the smallest |
| LowLevel.WarmBranch | dash-app/dash_app/src/data_processing/ThermalControlUnit.py:344-351 | only a warm vote (1 or 2) selects it; a strong warm vote, or a slight one the classifier agrees with, always does; a slight one against the classifier does exactly after no vote or a vote of 0 or 1, and is ignored after a cold or a strong warm vote |
| LowLevel.CoolBranch | dash-app/dash_app/src/data_processing/ThermalControlUnit.py:357-364 | the mirror image for cold votes (−1 or −2) |
| LowLevel.LowLevelDecision | dash-app/dash_app/src/data_processing/ThermalControlUnit.py:313-371 | never humidify or dry, never heat and cool; without feedback cool iff mode 1, heat iff mode −1, zone = mode; feedback 2 cools and −2 heats; feedback ±1 acts exactly when the mode agrees or the previous feedback does not contradict; any other feedback does nothing; with feedback a zone is chosen exactly when an action is taken, and it is the feedback |
| Engine.WindowMode | dash-app/dash_app/src/data_processing/ThermalControlUnit.py:321-325 | the mode the low-level pass uses is the label of one of the last 12 rows |
| Recalibration.Grid | dash-app/dash_app/src/data_processing/ThermalControlUnit.py:83-87 | grid point i is 18.00 + i/100 |
| Recalibration.GridEnds | dash-app/dash_app/src/data_processing/ThermalControlUnit.py:83-87 | the intended grid runs from 18.00 to exactly 26.00; the grid as written ends above 26.00 |
| Recalibration.ZoneRange | dash-app/dash_app/src/data_processing/ThermalControlUnit.py:376-383 | a warm vote seeks a band scoring below zero, a cold vote one above, zone 0 the band around zero; vote bands are one point wide |
| Recalibration.ZoneRangeSymmetric | dash-app/dash_app/src/data_processing/ThermalControlUnit.py:376-382 | opposite zones have mirror-image bands |
| Recalibration.Candidates | dash-app/dash_app/src/data_processing/ThermalControlUnit.py:385-391 | exactly the swept temperatures whose score lies in the zone's band |
| Recalibration.CandidatesIncreasing | dash-app/dash_app/src/data_processing/ThermalControlUnit.py:385-391 | the candidates keep the increasing order of the grid |
| Recalibration.RecalibratedOn | dash-app/dash_app/src/data_processing/ThermalControlUnit.py:393-401 | no new target exactly when no grid point is in the band; otherwise the new target lies between the first and last grid point |
| Recalibration.MidpointOfZoneSpan | dash-app/dash_app/src/data_processing/ThermalControlUnit.py:396-399 | the new target is the midpoint of the lowest and highest grid temperature in the band, whatever lies between them |
| Recalibration.Recalibrated | dash-app/dash_app/src/data_processing/ThermalControlUnit.py:373-401 | over the intended grid, no new target exactly when no grid point is in the band, and a new target always lies within 18.0..26.0 |
| Recalibration.RecalibratedAsWritten | dash-app/dash_app/src/data_processing/ThermalControlUnit.py:83-87 | the same sweep over the 802-point grid the code builds; its target can reach the grid's last point |
| Recalibration.ArangeOvershootsMaximum | dash-app/dash_app/src/data_processing/ThermalControlUnit.py:83-87 | with target 24.40 and zone −2 the sweep as written moves the target to 26.01, above 26.0, where the intended sweep leaves it alone |
| Engine.Shifted | dash-app/dash_app/src/data_processing/ThermalControlUnit.py:373-401 | an empty band leaves the configuration unchanged; otherwise the target becomes the recalibrated one, the rollback slot gets the old target and the flag is raised; a changed target lies within 18.0..26.0 |
| Guard.OverwriteContradictingActions | dash-app/dash_app/src/data_processing/ThermalControlUnit.py:425-462 | flags are only cleared; a decision 30 minutes old or older changes nothing; cool is cleared exactly against a recent heat, heat exactly against a recent cool unless cool was just cleared, and the same for dry and humidify |
| Guard.GuardOnExclusiveActions | dash-app/dash_app/src/data_processing/ThermalControlUnit.py:434-460 | for a proposal without opposing flags each flag is cleared exactly when the last decision took its opposite less than 30 minutes ago |
| Guard.LastDecidedIndex | dash-app/dash_app/src/data_processing/ThermalControlUnit.py:115-131 | the index of the newest row with its actions set; no later row has them; none when no row has them |
| Guard.ActuatorCalls | dash-app/dash_app/src/data_processing/ThermalControlUnit.py:465-476 | heater iff heat, cooler iff cool without heat, humidifier iff humidify, window opener iff dry without humidify; at most one call per axis, temperature first |
| Guard.PersistActions | dash-app/dash_app/src/data_processing/ThermalControlUnit.py:497-503 | an empty file has no last row; otherwise only the last row changes, and only in its four action columns |
| Engine.Proposed | dash-app/dash_app/src/data_processing/ThermalControlUnit.py:103-112 | humidify and dry always come from the high-level pass; heat and cool come from it when it decided one, else from the low-level pass; no opposing flags |
| Engine.Guarded | dash-app/dash_app/src/data_processing/ThermalControlUnit.py:114-134 | the guard only clears flags and changes nothing when no row of the window is decided |
| Engine.LowRuns | dash-app/dash_app/src/data_processing/ThermalControlUnit.py:105 | the low-level pass runs exactly when the room and skin checks are both neutral or oppose each other |
| Engine.ConfigAfterCycle | dash-app/dash_app/src/data_processing/ThermalControlUnit.py:103-112 | the configuration changes only when the low-level pass runs; the user-set flag is never lowered; a change keeps the old target in the rollback slot, raises the flag and puts the target within 18.0..26.0 |
| Engine.FeedbackAfterCycle | dash-app/dash_app/src/data_processing/ThermalControlUnit.py:369 | the remembered vote is either the old one or the latest row's, changes only when the low-level pass runs, and then becomes the latest row's vote, even an absent one |
| Engine.CapturedDecision | dash-app/dash_app/src/data_processing/ThermalControlUnit.py:129-136 | with no decided row the rollback decision stays as it was; otherwise it is the readings and actions of the newest decided row |
| Engine.CycleDecision | dash-app/dash_app/src/data_processing/ThermalControlUnit.py:143-148 | the applied decision carries the latest row's room temperature and humidity, and actions that never oppose each other on an axis |
| Engine.CycleActions | dash-app/dash_app/src/data_processing/ThermalControlUnit.py:96-134 | the actions of a cycle never heat and cool, or humidify and dry, at once |
| Engine.RecentDecisionBlocksReversal | dash-app/dash_app/src/data_processing/ThermalControlUnit.py:129-134 | against a decided row younger than 30 minutes a cycle never takes the opposite action on either axis |
| Engine.OldDecisionsBlockNothing | dash-app/dash_app/src/data_processing/ThermalControlUnit.py:129-134 | when every decided row is 30 minutes old or older the cycle applies its proposal unchanged |
| Engine.ComfortableRowFollowsClassifier | dash-app/dash_app/src/data_processing/ThermalControlUnit.py:333-341 | a comfortable latest row without feedback, with no decided row, cools iff the mode is 1, heats iff it is −1, recalibrates to the mode's zone and clears the remembered feedback |
| Window.MaxTimestamp | dash-app/dash_app/src/data_processing/ThermalControlUnit.py:180 | an upper bound of the timestamps that some row attains |
| Window.NewerThan | dash-app/dash_app/src/data_processing/ThermalControlUnit.py:182-184 | exactly the rows strictly newer than the bound, none added |
| Window.NewerThanCopies | dash-app/dash_app/src/data_processing/ThermalControlUnit.py:182-184 | every copy of a newer row is kept and every copy of an older or equal one dropped |
| Window.SortByTime | dash-app/dash_app/src/data_processing/ThermalControlUnit.py:208-209 | sorted by ascending timestamp and a permutation of its input |
| Window.SortSorted | dash-app/dash_app/src/data_processing/ThermalControlUnit.py:208-209 | sorting a sorted window changes nothing |
| Window.Merged | dash-app/dash_app/src/data_processing/ThermalControlUnit.py:178-199 | the merge is never empty and holds exactly the cached rows and the file rows newer than the cached maximum, yesterday's only after a day change |
| Window.RefreshedWindow | dash-app/dash_app/src/data_processing/ThermalControlUnit.py:177-212 | the new window is sorted and is a permutation of the merged rows newer than the cutoff |
| Window.WindowMembers | dash-app/dash_app/src/data_processing/ThermalControlUnit.py:201-206 | a row is in the new window exactly when it is merged and newer than latest − H hours |
| Window.RefreshMembers | dash-app/dash_app/src/data_processing/ThermalControlUnit.py:177-212 | a row is in the new window exactly when it is cached or newer than the cached maximum in a read file, and newer than the cutoff |
| Window.RefreshEndsAtLatest | dash-app/dash_app/src/data_processing/ThermalControlUnit.py:201-209 | for H > 0 the window is non-empty, ends with a row at the latest timestamp, and that timestamp never moves backwards |
| Window.WindowAfterCutoff | dash-app/dash_app/src/data_processing/ThermalControlUnit.py:201-206 | every kept row is newer than the cutoff |
| Window.NothingNewAfterRefresh | dash-app/dash_app/src/data_processing/ThermalControlUnit.py:177-206 | for H > 0 the day files hold no row newer than the refreshed window, so merging them again adds nothing |
| Window.RefreshIdempotent | dash-app/dash_app/src/data_processing/ThermalControlUnit.py:177-212 | refreshing again from the same files changes nothing |
| Engine.ThermalControlUnit.constructor | dash-app/dash_app/src/data_processing/ThermalControlUnit.py:65-87 | the window is today's rows; no feedback, rollback or applied decision yet |
| Engine.ThermalControlUnit.ApplyUserPreference | dash-app/dash_app/src/data_processing/ThermalControlUnit.py:89-90 | the configuration is updated with the preference |
| Engine.ThermalControlUnit.UpdateSensorDataCache | dash-app/dash_app/src/data_processing/ThermalControlUnit.py:177-215 | no cached rows: `EmptyHistory`, nothing changes; otherwise the window becomes the refreshed window and the seasonal default is re-derived |
| Engine.ThermalControlUnit.ShiftOptimalRoomTemperature | dash-app/dash_app/src/data_processing/ThermalControlUnit.py:373-401 | the configuration becomes `Shifted` of the old one |
| Engine.ThermalControlUnit.LowLevelDecisionMaking | dash-app/dash_app/src/data_processing/ThermalControlUnit.py:313-371 | returns the low-level actions, recalibrates to their zone, and records the latest feedback unconditionally |
| Engine.ThermalControlUnit.ProposeActions | dash-app/dash_app/src/data_processing/ThermalControlUnit.py:96-112 | returns `Proposed`; configuration and feedback change only when the low-level pass runs |
| Engine.ThermalControlUnit.GuardAgainstLastDecision | dash-app/dash_app/src/data_processing/ThermalControlUnit.py:114-136 | returns the guarded proposal; the newest decided row becomes the rollback decision, and none leaves it as it was |
| Engine.ThermalControlUnit.DecideActions | dash-app/dash_app/src/data_processing/ThermalControlUnit.py:96-136 | returns `CycleActions` of the window, with the configuration, feedback and rollback decision after the cycle |
| Engine.ThermalControlUnit.ApplyActions | dash-app/dash_app/src/data_processing/ThermalControlUnit.py:138-151 | chooses the actuators, remembers the latest row's readings with the actions, and persists the actions on the last row of today's file |
| Engine.ThermalControlUnit.DecideOnWindow | dash-app/dash_app/src/data_processing/ThermalControlUnit.py:96-153 | the whole cycle after the refresh, on a non-empty window |
| Engine.ThermalControlUnit.DecisionMaking | dash-app/dash_app/src/data_processing/ThermalControlUnit.py:92-153 | `EmptyHistory` without cached rows and `EmptyWindow` when the trim leaves nothing, with no further change; otherwise the window is the refreshed window, the actions are `CycleActions` of it, the low-level pass alone recalibrates and records feedback, the rollback decision is the newest decided row, and the applied decision, actuator calls and stored file follow |
| Engine.ThermalControlUnit.RollbackLastDecision | dash-app/dash_app/src/data_processing/ThermalControlUnit.py:155-175 | without a captured decision `NoPriorDecision` and no change; otherwise the captured decision is re-applied and persisted, the target is updated with the rollback slot, and the captured decision is kept |

## Left out

- Reading and writing the day CSV files, their paths and dates (lines 217-236, the file part of 497-503): the rows are inputs and the stored rows an output.
- The wall clock and the calendar (lines 21, 189, 429): `now`, `month` and `dayChanged` are inputs.
- Logging throughout, and the actuator stubs `trigger_*` (lines 478-494), which only log: the model keeps which stubs `apply_actions` would call.
- The sigmoid of `calculate_ashrae_value` (lines 403-422), floating point: the score is an abstract parameter of the unit.
- Floating-point arithmetic in general: temperatures are exact reals, so grid point i is exactly 18 + i/100 and the midpoint is exact.
- PreprocessingUnit.py, the Flask routes, the Dash layout and both app files are not part of this model: they are HTTP, resampling and UI code around the engine.
- Rows whose action columns are only partly set, and the other sensor columns (heart rate and the like): a row's four action columns are set together or not at all, and only the columns the engine reads are modelled.
- Config.UserConfig.constructor: takes no keyword arguments besides the month; the pydantic fields keep their declared defaults, and pydantic validation is not modelled.
- Engine.ThermalControlUnit.constructor: the 0.01 grid is not stored on the unit; the sweep builds it when it runs.
- Engine.ThermalControlUnit.ShiftOptimalRoomTemperature: sweeps the corrected 801-point grid 18.00..26.00 (`Recalibration.Recalibrated`), not the 802-point grid the code builds; the as-written sweep is `Recalibration.RecalibratedAsWritten`, and the row under "## Findings" shows where the two differ.
- Window.SortByTime: rows with equal timestamps keep their merge order, which is one of the orders the non-stable pandas sort may produce.
- Engine.ThermalControlUnit.DecisionMaking: three pandas expressions do not do what the comments beside them say, and the model gives each its evident meaning. `.iloc[:, 1:]` on a single row (line 136) and `.loc[-1, ...]` (line 144) fail; the model takes the decided row's readings and actions, and the latest row. At lines 323-325, `.mode()[0]` on the one-column frame that `.loc[..., ["classifier_prediction"]]` returns looks up a column labelled 0 and raises KeyError. On the usual increasing index, `.loc[-12:]` selects by label and so covers the whole window, not the last 12 rows; on a non-monotonic index it raises. The model takes the mode of the last 12 rows.
- Engine.ThermalControlUnit.DecisionMaking: an empty window or an empty day file raises in the source; the model returns `EmptyWindow` or `NothingToPersist` instead, keeping every change made before that point.
- Engine.ThermalControlUnit.constructor: the source's `__init__` (lines 65-87) never assigns `last_feedback` or `rollback_decision`, so reading either before its first assignment raises AttributeError; the model starts both empty, and a rollback before any capture returns `NoPriorDecision`.
- `UserConfig.last_feedback` (line 14) is modelled as a field but the engine never reads it; the unit keeps its own remembered feedback, which starts empty.

## Findings

| source | as written | input that shows it | evidently intended | confidence | as-written member | corrected member |
|---|---|---|---|---|---|---|
| dash-app/dash_app/src/data_processing/ThermalControlUnit.py:83-87 | `np.arange(18.0, 26.0 + 0.01, 0.01)` has ceil((26.01 − 18.0)/0.01) = ceil(801.0000000000001) = 802 points in floating point, so the sweep also visits 26.01 | target 24.40 and feedback −2 (zone −2, band 2..3): the score reaches 2 only at 26.01 (at 26.00 the score is 3·tanh(0.8) ≈ 1.9921, truncated to 1; at 26.01 it is about 2.0005), so the target becomes 26.01 | the sweep covers 18.00..26.00 and a recalibrated target never exceeds the maximum room temperature | medium, not executed | Recalibration.ArangeOvershootsMaximum | Recalibration.Recalibrated |
