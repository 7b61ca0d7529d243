/** The per-cycle state machine of class `ThermalControlUnit`: refresh the
    window, run the high-level and (when inconclusive) the low-level pass,
    guard against reversing a recent decision, apply and persist; and roll
    back to the decision before the last one. */
module Engine {
  import opened Records
  import opened Config
  import HighLevel
  import LowLevel
  import Recalibration
  import Guard
  import Window

  function Latest(window: seq<Record>): Record
    requires |window| > 0
  {
    window[|window| - 1]
  }

  /** The classifier label the low-level pass works with: the mode over the
      last `min(12, n)` rows of the window. */
  function WindowMode(window: seq<Record>): (m: Label)
    requires |window| > 0
    ensures exists i :: |window| - LowLevel.ClassifierLagWindow <= i < |window| && 0 <= i &&
                        window[i].prediction == m
  {
    var p := LowLevel.LagPredictions(window);
    var m := LowLevel.Mode(p);
    assert m in multiset(p);
    var k :| 0 <= k < |p| && p[k] == m;
    assert window[|window| - |p| + k].prediction == m;
    m
  }

  /** The configuration after `shift_optimal_room_temperature(zone)`: it goes
      through `update_optimal_room_temp` only when some grid temperature is in
      zone. */
  function Shifted(s: ConfigState, zone: int, ashrae: Recalibration.Ashrae, month: int): (s': ConfigState)
    requires -2 <= zone <= 2
    ensures Recalibration.Recalibrated(s.target, zone, ashrae).None? ==> s' == s
    ensures Recalibration.Recalibrated(s.target, zone, ashrae).Some? ==>
              s'.target == Recalibration.Recalibrated(s.target, zone, ashrae).value &&
              s'.rollback == Some(s.target) && s'.hasUserSet
    ensures HighLevel.MinRoomTemp <= s'.target <= HighLevel.MaxRoomTemp || s'.target == s.target
    ensures Consistent(s) ==> Consistent(s')
  {
    match Recalibration.Recalibrated(s.target, zone, ashrae)
    case None => s
    case Some(t) => Updated(s, Some(t), month)
  }

  /** The configuration after the low-level pass recalibrated to `zone`, if
      it did. */
  function AfterLowLevel(s: ConfigState, zone: Option<int>, ashrae: Recalibration.Ashrae, month: int): ConfigState
    requires zone.Some? ==> -2 <= zone.value <= 2
  {
    if zone.Some? then Shifted(s, zone.value, ashrae, month) else s
  }

  /** The proposal of a cycle before the guard: the high-level actions, with
      heat and cool taken from the low-level pass when the thresholds
      proposed neither. */
  function Proposed(latest: Record, low: Actions): (a: Actions)
    ensures var high := HighLevel.HighLevelActions(latest);
            a.humidify == high.humidify && a.dry == high.dry &&
            (high.heat == 1 || high.cool == 1 ==> a == high) &&
            (high.heat == 0 && high.cool == 0 ==> a.heat == low.heat && a.cool == low.cool)
    ensures !(low.heat == 1 && low.cool == 1) ==> !(a.heat == 1 && a.cool == 1)
    ensures !(a.humidify == 1 && a.dry == 1)
  {
    var high := HighLevel.HighLevelActions(latest);
    if high.heat == 0 && high.cool == 0 then high.(cool := low.cool, heat := low.heat) else high
  }

  /** The proposal after the contradiction guard against the window's last
      decided row, if any. */
  function Guarded(proposed: Actions, window: seq<Record>, now: int): (a: Actions)
    ensures a.heat <= proposed.heat && a.cool <= proposed.cool
    ensures a.humidify <= proposed.humidify && a.dry <= proposed.dry
    ensures Guard.LastDecidedIndex(window).None? ==> a == proposed
  {
    match Guard.LastDecidedIndex(window)
    case None => proposed
    case Some(i) =>
      Guard.OverwriteContradictingActions(proposed, window[i].decision.value, window[i].timestamp, now)
  }

  /** The remembered form of a decided row. */
  function DecisionOf(row: Record): Decision
    requires row.decision.Some?
  {
    Decision(row.roomTemp, row.humidity, row.decision.value)
  }

  /** The outcome of the low-level pass on a window, given the feedback of
      the previous low-level pass. */
  function LowOutcome(window: seq<Record>, lastFeedback: Option<int>): LowLevel.Outcome
    requires |window| > 0
  {
    LowLevel.LowLevelDecision(WindowMode(window), Latest(window).feedback, lastFeedback)
  }

  /** The low-level pass runs when the thresholds propose neither heat nor
      cool for the latest row. */
  predicate LowRuns(window: seq<Record>)
    requires |window| > 0
    // exactly when both checks are neutral or they oppose each other
    ensures var room := HighLevel.CheckRoomTemperature(Latest(window));
            var skin := HighLevel.CheckSkinTemperature(Latest(window));
            LowRuns(window) <==>
              (room == HighLevel.Neutral && skin == HighLevel.Neutral) ||
              (room == HighLevel.Heat && skin == HighLevel.Cool) ||
              (room == HighLevel.Cool && skin == HighLevel.Heat)
  {
    var high := HighLevel.HighLevelActions(Latest(window));
    high.heat == 0 && high.cool == 0
  }

  /** The configuration after a cycle's passes, from `s`: recalibrated only
      when the low-level pass runs and picks a zone. */
  function ConfigAfterCycle(window: seq<Record>, lastFeedback: Option<int>, s: ConfigState,
                            ashrae: Recalibration.Ashrae, month: int): (c: ConfigState)
    requires |window| > 0
    ensures !LowRuns(window) ==> c == s
    ensures s.hasUserSet ==> c.hasUserSet
    ensures Consistent(s) ==> Consistent(c)
    // a recalibration keeps the old target for rollback and stays in range
    ensures c != s ==> c.rollback == Some(s.target) && c.hasUserSet &&
                       HighLevel.MinRoomTemp <= c.target <= HighLevel.MaxRoomTemp
  {
    if LowRuns(window) then AfterLowLevel(s, LowOutcome(window, lastFeedback).zone, ashrae, month) else s
  }

  /** The remembered feedback after a cycle: only the low-level pass records
      the latest row's feedback. */
  function FeedbackAfterCycle(window: seq<Record>, lastFeedback: Option<int>): (f: Option<int>)
    requires |window| > 0
    ensures f == lastFeedback || f == Latest(window).feedback
    ensures f != lastFeedback ==> LowRuns(window)
    // the low-level pass records the latest vote even when it is absent
    ensures LowRuns(window) ==> f == Latest(window).feedback
  {
    if LowRuns(window) then Latest(window).feedback else lastFeedback
  }

  /** The actions one cycle applies to a window. They never heat and cool,
      or humidify and dry, at once. */
  function CycleActions(window: seq<Record>, lastFeedback: Option<int>, now: int): (a: Actions)
    requires |window| > 0
    ensures !(a.heat == 1 && a.cool == 1)
    ensures !(a.humidify == 1 && a.dry == 1)
  {
    Guarded(Proposed(Latest(window), LowOutcome(window, lastFeedback).actions), window, now)
  }

  /** The decision one cycle applies: the latest row's room readings and
      the cycle's actions. */
  function CycleDecision(window: seq<Record>, lastFeedback: Option<int>, now: int): (d: Decision)
    requires |window| > 0
    ensures d.roomTemp == Latest(window).roomTemp && d.humidity == Latest(window).humidity
    ensures !(d.actions.heat == 1 && d.actions.cool == 1)
    ensures !(d.actions.humidify == 1 && d.actions.dry == 1)
  {
    Decision(Latest(window).roomTemp, Latest(window).humidity, CycleActions(window, lastFeedback, now))
  }

  /** The rollback decision after a cycle on a window. */
  function CapturedDecision(window: seq<Record>, previous: Option<Decision>): (d: Option<Decision>)
    ensures (forall i :: 0 <= i < |window| ==> window[i].decision.None?) ==> d == previous
    // otherwise the newest decided row of the window is captured
    ensures (exists i :: 0 <= i < |window| && window[i].decision.Some?) ==>
              exists i :: 0 <= i < |window| && window[i].decision.Some? &&
                          d == Some(DecisionOf(window[i])) &&
                          forall j :: i < j < |window| ==> window[j].decision.None?
  {
    match Guard.LastDecidedIndex(window)
    case None => previous
    case Some(i) => Some(DecisionOf(window[i]))
  }

  /** Against a decision on the window younger than 30 minutes, a cycle
      never takes the opposite action on either axis. */
  lemma RecentDecisionBlocksReversal(window: seq<Record>, lastFeedback: Option<int>, now: int)
    requires |window| > 0
    requires Guard.LastDecidedIndex(window).Some?
    ensures var row := window[Guard.LastDecidedIndex(window).value];
            var last := row.decision.value;
            var a := CycleActions(window, lastFeedback, now);
            row.timestamp > now - Guard.BlockContradictoryActionsSecs ==>
              (last.heat == 1 ==> a.cool == 0) && (last.cool == 1 ==> a.heat == 0) &&
              (last.humidify == 1 ==> a.dry == 0) && (last.dry == 1 ==> a.humidify == 0)
  {
    var row := window[Guard.LastDecidedIndex(window).value];
    var proposed := Proposed(Latest(window), LowOutcome(window, lastFeedback).actions);
    Guard.GuardOnExclusiveActions(proposed, row.decision.value, row.timestamp, now);
  }

  /** Without a decision on the window younger than 30 minutes, the guard
      lets the proposal through unchanged. */
  lemma OldDecisionsBlockNothing(window: seq<Record>, lastFeedback: Option<int>, now: int)
    requires |window| > 0
    requires forall i :: 0 <= i < |window| && window[i].decision.Some? ==>
               window[i].timestamp <= now - Guard.BlockContradictoryActionsSecs
    ensures CycleActions(window, lastFeedback, now) ==
            Proposed(Latest(window), LowOutcome(window, lastFeedback).actions)
  {
  }

  /** A comfortable latest row without feedback, on a window with no
      decision yet: the cycle follows the classifier's mode, recalibrates to
      the mode's zone and forgets any earlier feedback. */
  lemma ComfortableRowFollowsClassifier(window: seq<Record>, lastFeedback: Option<int>, now: int,
                                        s: ConfigState, ashrae: Recalibration.Ashrae, month: int)
    requires |window| > 0
    requires var m := Latest(window);
             HighLevel.MinRoomTemp <= m.roomTemp <= HighLevel.MaxRoomTemp &&
             HighLevel.MinSkinTemp <= m.wristTemp <= HighLevel.MaxSkinTemp &&
             HighLevel.MinHumidity <= m.humidity <= HighLevel.MaxHumidity
    requires Latest(window).feedback.None?
    requires Guard.LastDecidedIndex(window).None?
    ensures var mode := WindowMode(window);
            CycleActions(window, lastFeedback, now) ==
              Actions(if mode == -1 then 1 else 0, if mode == 1 then 1 else 0, 0, 0)
    ensures FeedbackAfterCycle(window, lastFeedback).None?
    ensures ConfigAfterCycle(window, lastFeedback, s, ashrae, month) == Shifted(s, WindowMode(window), ashrae, month)
  {
  }

  class ThermalControlUnit {
    /** The cached window of sensor rows (`sensor_df`). */
    var sensorWindow: seq<Record>
    const includeLastHours: int
    const userConfig: UserConfig
    const ashrae: Recalibration.Ashrae
    var lastFeedback: Option<int>
    var rollbackDecision: Option<Decision>
    var appliedDecision: Option<Decision>

    ghost predicate Valid()
      reads this, userConfig
    {
      userConfig.Valid()
    }

    /** Loads today's rows as the initial window. */
    constructor (todayRows: seq<Record>, config: UserConfig, hours: int, score: Recalibration.Ashrae)
      requires config.Valid()
      ensures Valid()
      ensures sensorWindow == todayRows && includeLastHours == hours
      ensures userConfig == config && ashrae == score
      ensures lastFeedback.None? && rollbackDecision.None? && appliedDecision.None?
    {
      sensorWindow := todayRows;
      includeLastHours := hours;
      userConfig := config;
      ashrae := score;
      lastFeedback := None;
      rollbackDecision := None;
      appliedDecision := None;
    }

    method ApplyUserPreference(roomTemp: real, month: int)
      requires Valid()
      modifies userConfig
      ensures Valid()
      ensures userConfig.State() == Updated(old(userConfig.State()), Some(roomTemp), month)
    {
      userConfig.UpdateOptimalRoomTemp(Some(roomTemp), month);
    }

    /** `update_sensor_data_cache`: today's (and, after a day change,
        yesterday's) file rows beyond the cached maximum are merged in, the
        last `includeLastHours` hours kept and sorted; then the seasonal
        default is refreshed. */
    method UpdateSensorDataCache(today: seq<Record>, yesterday: seq<Record>, dayChanged: bool, month: int)
      returns (r: Outcome)
      requires Valid()
      modifies this`sensorWindow, userConfig
      ensures Valid()
      ensures |old(sensorWindow)| == 0 ==>
                r == Fail(EmptyHistory) && sensorWindow == old(sensorWindow) &&
                userConfig.State() == old(userConfig.State())
      ensures |old(sensorWindow)| > 0 ==>
                r == Pass &&
                sensorWindow == Window.RefreshedWindow(old(sensorWindow), today, yesterday, dayChanged, includeLastHours) &&
                userConfig.State() == Updated(old(userConfig.State()), None, month)
    {
      if |sensorWindow| == 0 {
        return Fail(EmptyHistory);
      }
      sensorWindow := Window.RefreshedWindow(sensorWindow, today, yesterday, dayChanged, includeLastHours);
      userConfig.UpdateOptimalRoomTemp(None, month);
      r := Pass;
    }

    /** `shift_optimal_room_temperature`. */
    method ShiftOptimalRoomTemperature(zone: int, month: int)
      requires Valid()
      requires -2 <= zone <= 2
      modifies userConfig
      ensures Valid()
      ensures userConfig.State() == Shifted(old(userConfig.State()), zone, ashrae, month)
    {
      var candidates := Recalibration.Candidates(
        Recalibration.Grid(Recalibration.GridSize), userConfig.optimalRoomTemp, zone, ashrae);
      if candidates != [] {
        var newTarget := (candidates[0] + candidates[|candidates| - 1]) / 2.0;
        userConfig.UpdateOptimalRoomTemp(Some(newTarget), month);
      }
    }

    /** `low_level_decision_making`. */
    method LowLevelDecisionMaking(month: int) returns (a: Actions)
      requires Valid()
      requires |sensorWindow| > 0
      modifies this`lastFeedback, userConfig
      ensures Valid()
      ensures a == LowOutcome(sensorWindow, old(lastFeedback)).actions
      ensures userConfig.State() == AfterLowLevel(old(userConfig.State()), LowOutcome(sensorWindow, old(lastFeedback)).zone, ashrae, month)
      ensures lastFeedback == Latest(sensorWindow).feedback
    {
      var mode := WindowMode(sensorWindow);
      var feedback := Latest(sensorWindow).feedback;
      var o := LowLevel.LowLevelDecision(mode, feedback, lastFeedback);
      if o.zone.Some? {
        ShiftOptimalRoomTemperature(o.zone.value, month);
      }
      a := o.actions;
      lastFeedback := feedback;
    }

    /** The high-level pass on the latest row, then the low-level pass for
        heat and cool when the thresholds proposed neither. */
    method ProposeActions(month: int) returns (a: Actions)
      requires Valid()
      requires |sensorWindow| > 0
      modifies this`lastFeedback, userConfig
      ensures Valid()
      ensures a == Proposed(Latest(sensorWindow), LowOutcome(sensorWindow, old(lastFeedback)).actions)
      ensures userConfig.State() == ConfigAfterCycle(sensorWindow, old(lastFeedback), old(userConfig.State()), ashrae, month)
      ensures lastFeedback == FeedbackAfterCycle(sensorWindow, old(lastFeedback))
    {
      var latest := sensorWindow[|sensorWindow| - 1];
      ghost var low0 := LowOutcome(sensorWindow, lastFeedback).actions;
      a := HighLevel.HighLevelActions(latest);
      if a.heat == 0 && a.cool == 0 {
        var low := LowLevelDecisionMaking(month);
        assert low == low0;
        a := a.(cool := low.cool, heat := low.heat);
      }
      assert a == Proposed(latest, low0);
    }

    /** The contradiction guard against the window's last decided row, which
        also becomes the rollback decision. */
    method GuardAgainstLastDecision(proposed: Actions, now: int) returns (a: Actions)
      modifies this`rollbackDecision
      ensures a == Guarded(proposed, sensorWindow, now)
      ensures rollbackDecision == CapturedDecision(sensorWindow, old(rollbackDecision))
    {
      a := proposed;
      var decided := Guard.LastDecidedIndex(sensorWindow);
      if decided.Some? {
        var last := sensorWindow[decided.value];
        a := Guard.OverwriteContradictingActions(a, last.decision.value, last.timestamp, now);
        rollbackDecision := Some(DecisionOf(last));
      }
    }

    /** The actions of a cycle on a non-empty refreshed window: both passes,
        then the guard. */
    method DecideActions(now: int, month: int) returns (a: Actions)
      requires Valid()
      requires |sensorWindow| > 0
      modifies this`lastFeedback, this`rollbackDecision, userConfig
      ensures Valid()
      ensures a == CycleActions(sensorWindow, old(lastFeedback), now)
      ensures userConfig.State() == ConfigAfterCycle(sensorWindow, old(lastFeedback), old(userConfig.State()), ashrae, month)
      ensures lastFeedback == FeedbackAfterCycle(sensorWindow, old(lastFeedback))
      ensures rollbackDecision == CapturedDecision(sensorWindow, old(rollbackDecision))
    {
      var proposed := ProposeActions(month);
      a := GuardAgainstLastDecision(proposed, now);
    }

    /** `apply_actions` and `persist_actions` for the latest row of the
        window. */
    method ApplyActions(today: seq<Record>, a: Actions)
      returns (r: Result<Actions>, calls: seq<Guard.Actuator>, stored: seq<Record>)
      requires Valid()
      requires |sensorWindow| > 0
      modifies this`appliedDecision
      ensures Valid()
      ensures userConfig.State() == old(userConfig.State())
      ensures lastFeedback == old(lastFeedback) && rollbackDecision == old(rollbackDecision)
      ensures appliedDecision == Some(Decision(Latest(sensorWindow).roomTemp, Latest(sensorWindow).humidity, a))
      ensures calls == Guard.ActuatorCalls(a)
      ensures |today| > 0 ==> r == Ok(a) && Some(stored) == Guard.PersistActions(today, a)
      ensures |today| == 0 ==> r == Err(NothingToPersist) && stored == today
    {
      var latest := sensorWindow[|sensorWindow| - 1];
      calls := Guard.ActuatorCalls(a);
      appliedDecision := Some(Decision(latest.roomTemp, latest.humidity, a));
      var persisted := Guard.PersistActions(today, a);
      if persisted.None? {
        r, stored := Err(NothingToPersist), today;
      } else {
        r, stored := Ok(a), persisted.value;
      }
    }

    /** The decision part of a cycle, on a non-empty refreshed window. */
    method DecideOnWindow(today: seq<Record>, now: int, month: int)
      returns (r: Result<Actions>, calls: seq<Guard.Actuator>, stored: seq<Record>)
      requires Valid()
      requires |sensorWindow| > 0
      modifies this`lastFeedback, this`rollbackDecision, this`appliedDecision, userConfig
      ensures Valid()
      ensures userConfig.State() == ConfigAfterCycle(sensorWindow, old(lastFeedback), old(userConfig.State()), ashrae, month)
      ensures lastFeedback == FeedbackAfterCycle(sensorWindow, old(lastFeedback))
      ensures rollbackDecision == CapturedDecision(sensorWindow, old(rollbackDecision))
      ensures appliedDecision == Some(CycleDecision(sensorWindow, old(lastFeedback), now))
      ensures calls == Guard.ActuatorCalls(CycleActions(sensorWindow, old(lastFeedback), now))
      ensures |today| > 0 ==> r == Ok(CycleActions(sensorWindow, old(lastFeedback), now)) &&
                               Some(stored) == Guard.PersistActions(today, CycleActions(sensorWindow, old(lastFeedback), now))
      ensures |today| == 0 ==> r == Err(NothingToPersist) && stored == today
    {
      var actions := DecideActions(now, month);
      r, calls, stored := ApplyActions(today, actions);
    }

    /** `decision_making`: one full cycle. `today` and `yesterday` are the
        rows of the day files, `dayChanged` whether the clock's day differs
        from that of the cached latest row, `now` the clock in seconds. */
    method DecisionMaking(today: seq<Record>, yesterday: seq<Record>, dayChanged: bool, now: int, month: int)
      returns (r: Result<Actions>, calls: seq<Guard.Actuator>, stored: seq<Record>)
      requires Valid()
      modifies this`sensorWindow, this`lastFeedback, this`rollbackDecision, this`appliedDecision, userConfig
      ensures Valid()
      // no cached rows: nothing happens
      ensures |old(sensorWindow)| == 0 ==>
                r == Err(EmptyHistory) && calls == [] && stored == today &&
                sensorWindow == old(sensorWindow) && userConfig.State() == old(userConfig.State()) &&
                lastFeedback == old(lastFeedback) && rollbackDecision == old(rollbackDecision) &&
                appliedDecision == old(appliedDecision)
      // the window is refreshed and never learns the decision written to the file
      ensures |old(sensorWindow)| > 0 ==>
                sensorWindow == Window.RefreshedWindow(old(sensorWindow), today, yesterday, dayChanged, includeLastHours)
      ensures |old(sensorWindow)| > 0 && |sensorWindow| == 0 ==>
                r == Err(EmptyWindow) && calls == [] && stored == today &&
                userConfig.State() == Updated(old(userConfig.State()), None, month) &&
                lastFeedback == old(lastFeedback) && rollbackDecision == old(rollbackDecision) &&
                appliedDecision == old(appliedDecision)
      ensures |old(sensorWindow)| > 0 && |sensorWindow| > 0 ==>
              userConfig.State() == ConfigAfterCycle(sensorWindow, old(lastFeedback), Updated(old(userConfig.State()), None, month), ashrae, month) &&
              lastFeedback == FeedbackAfterCycle(sensorWindow, old(lastFeedback)) &&
              rollbackDecision == CapturedDecision(sensorWindow, old(rollbackDecision)) &&
              appliedDecision == Some(CycleDecision(sensorWindow, old(lastFeedback), now)) &&
              calls == Guard.ActuatorCalls(CycleActions(sensorWindow, old(lastFeedback), now)) &&
              (|today| > 0 ==> r == Ok(CycleActions(sensorWindow, old(lastFeedback), now)) &&
                               Some(stored) == Guard.PersistActions(today, CycleActions(sensorWindow, old(lastFeedback), now))) &&
              (|today| == 0 ==> r == Err(NothingToPersist) && stored == today)
    {
      var refreshed := UpdateSensorDataCache(today, yesterday, dayChanged, month);
      if refreshed.Fail? {
        return Err(refreshed.error), [], today;
      }
      if |sensorWindow| == 0 {
        return Err(EmptyWindow), [], today;
      }
      r, calls, stored := DecideOnWindow(today, now, month);
    }

    /** `rollback_last_decision`: re-applies the decision captured before the
        last one and swaps the target with its rollback slot. The captured
        decision is kept, so a second call repeats it. */
    method RollbackLastDecision(today: seq<Record>, month: int)
      returns (r: Result<Actions>, calls: seq<Guard.Actuator>, stored: seq<Record>)
      requires Valid()
      modifies this`appliedDecision, userConfig
      ensures Valid()
      ensures old(rollbackDecision).None? ==>
                r == Err(NoPriorDecision) && calls == [] && stored == today &&
                appliedDecision == old(appliedDecision) && userConfig.State() == old(userConfig.State())
      ensures old(rollbackDecision).Some? ==>
                var d := old(rollbackDecision).value;
                appliedDecision == Some(d) &&
                userConfig.State() == Updated(old(userConfig.State()), old(userConfig.State()).rollback, month) &&
                calls == Guard.ActuatorCalls(d.actions) &&
                (|today| > 0 ==> r == Ok(d.actions) && Some(stored) == Guard.PersistActions(today, d.actions)) &&
                (|today| == 0 ==> r == Err(NothingToPersist) && stored == today)
    {
      if rollbackDecision.None? {
        return Err(NoPriorDecision), [], today;
      }
      var actions := rollbackDecision.value.actions;
      calls := Guard.ActuatorCalls(actions);
      appliedDecision := rollbackDecision;
      userConfig.UpdateOptimalRoomTemp(userConfig.rollbackOptimalRoomTemp, month);
      var persisted := Guard.PersistActions(today, actions);
      if persisted.None? {
        r, stored := Err(NothingToPersist), today;
      } else {
        r, stored := Ok(actions), persisted.value;
      }
    }
  }
}
