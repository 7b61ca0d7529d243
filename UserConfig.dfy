/** The occupant's comfort target: a seasonal default, explicit updates and a
    one-slot rollback (class `UserConfig` of ThermalControlUnit.py). */
module Config {
  import opened Records

  datatype Season = Spring | Summer | Autumn | Winter

  /** The season of a calendar month; every month outside 3..11 is winter. */
  function SeasonOf(month: int): (s: Season)
    ensures s == Spring <==> 3 <= month <= 5
    ensures s == Summer <==> 6 <= month <= 8
    ensures s == Autumn <==> 9 <= month <= 11
    ensures s == Winter <==> !(3 <= month <= 11)
  {
    if month in {3, 4, 5} then Spring
    else if month in {6, 7, 8} then Summer
    else if month in {9, 10, 11} then Autumn
    else Winter
  }

  /** `get_season_based_room_temp`, with the month of the clock as input. */
  function SeasonalTarget(month: int): (t: real)
    ensures t == 20.0 <==> 6 <= month <= 8
    ensures t == 21.0 <==> 3 <= month <= 5 || 9 <= month <= 11
    ensures t == 22.0 <==> month < 3 || month > 11
  {
    match SeasonOf(month)
    case Spring => 21.0
    case Summer => 20.0
    case Autumn => 21.0
    case Winter => 22.0
  }

  /** The fields of a `UserConfig` that the engine reads and writes. */
  datatype ConfigState = ConfigState(target: real, rollback: Option<real>, hasUserSet: bool)

  /** Python truthiness of the optional new temperature: a missing value and
      0.0 are both false. */
  predicate Truthy(newTemp: Option<real>) {
    newTemp.Some? && newTemp.value != 0.0
  }

  /** Once a rollback value exists, the target has been set explicitly. */
  predicate Consistent(s: ConfigState) {
    s.rollback.Some? ==> s.hasUserSet
  }

  /** `update_optimal_room_temp(new_temp)`: a truthy value becomes the target
      and the old target goes to the rollback slot; otherwise the seasonal
      default is re-derived unless the user has set the target. */
  function Updated(s: ConfigState, newTemp: Option<real>, month: int): (s': ConfigState)
    ensures s'.hasUserSet == (s.hasUserSet || Truthy(newTemp))
    ensures s'.rollback == (if Truthy(newTemp) then Some(s.target) else s.rollback)
    ensures Truthy(newTemp) ==> s'.target == newTemp.value
    ensures !Truthy(newTemp) && s.hasUserSet ==> s' == s
    ensures !Truthy(newTemp) && !s.hasUserSet ==> s'.target == SeasonalTarget(month)
    ensures Consistent(s) ==> Consistent(s')
  {
    if Truthy(newTemp) then
      ConfigState(newTemp.value, Some(s.target), true)
    else if !s.hasUserSet then
      s.(target := SeasonalTarget(month))
    else
      s
  }

  /** Rolling back to a (non-zero) stored target swaps target and slot. */
  lemma RollbackSwaps(s: ConfigState, month: int)
    requires s.rollback.Some? && s.rollback.value != 0.0
    ensures Updated(s, s.rollback, month) == ConfigState(s.rollback.value, Some(s.target), true)
  {
  }

  /** Two rollbacks in a row restore the configuration. */
  lemma RollbackTwiceRestores(s: ConfigState, month: int)
    requires Consistent(s)
    requires s.rollback.Some? && s.rollback.value != 0.0 && s.target != 0.0
    ensures Updated(Updated(s, s.rollback, month), Updated(s, s.rollback, month).rollback, month) == s
  {
  }

  /** An empty rollback slot swaps nothing: the call only re-derives the
      seasonal default, and only while the user has not set a target. */
  lemma EmptyRollbackNoSwap(s: ConfigState, month: int)
    requires s.rollback.None?
    ensures Updated(s, s.rollback, month).rollback.None?
    ensures Updated(s, s.rollback, month).target ==
            (if s.hasUserSet then s.target else SeasonalTarget(month))
  {
  }

  /** An explicit preference is recoverable by one rollback. */
  lemma PreferenceThenRollback(s: ConfigState, t: real, month: int)
    requires t != 0.0 && s.target != 0.0
    ensures Updated(s, Some(t), month).hasUserSet
    ensures var s1 := Updated(s, Some(t), month);
            Updated(s1, s1.rollback, month).target == s.target
  {
  }

  class UserConfig {
    var optimalRoomTemp: real
    var rollbackOptimalRoomTemp: Option<real>
    var hasUserSetOptimalRoomTemp: bool
    /** Declared with default 0 in the source and never read by the engine,
        which keeps its own `last_feedback`. */
    var lastFeedback: Option<int>

    function State(): ConfigState
      reads this
    {
      ConfigState(optimalRoomTemp, rollbackOptimalRoomTemp, hasUserSetOptimalRoomTemp)
    }

    ghost predicate Valid()
      reads this
    {
      Consistent(State())
    }

    /** Construction always replaces the target with the seasonal default. */
    constructor (month: int)
      ensures Valid()
      ensures State() == ConfigState(SeasonalTarget(month), None, false)
      ensures lastFeedback == Some(0)
    {
      optimalRoomTemp := SeasonalTarget(month);
      rollbackOptimalRoomTemp := None;
      hasUserSetOptimalRoomTemp := false;
      lastFeedback := Some(0);
    }

    method UpdateOptimalRoomTemp(newTemp: Option<real>, month: int)
      requires Valid()
      modifies this
      ensures Valid()
      ensures State() == Updated(old(State()), newTemp, month)
      ensures lastFeedback == old(lastFeedback)
    {
      if Truthy(newTemp) {
        rollbackOptimalRoomTemp := Some(optimalRoomTemp);
        optimalRoomTemp := newTemp.value;
        hasUserSetOptimalRoomTemp := true;
        return;
      }
      if !hasUserSetOptimalRoomTemp {
        optimalRoomTemp := SeasonalTarget(month);
      }
    }
  }
}
