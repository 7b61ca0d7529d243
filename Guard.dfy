/** Logical error correction and the smart-home side of a decision: the
    contradiction guard, the choice of actuators and writing the actions
    back onto the latest stored row. */
module Guard {
  import opened Records

  /** Actions opposing a decision younger than this are blocked (seconds). */
  const BlockContradictoryActionsSecs: int := 30 * 60

  /** `overwrite_contradicting_actions`: against a decision taken at
      `lastTimestamp`, with the clock at `now`. */
  function OverwriteContradictingActions(current: Actions, last: Actions, lastTimestamp: int, now: int): (r: Actions)
    // flags are only ever cleared
    ensures r.heat <= current.heat && r.cool <= current.cool
    ensures r.humidify <= current.humidify && r.dry <= current.dry
    // a decision 30 minutes old or older blocks nothing
    ensures lastTimestamp <= now - BlockContradictoryActionsSecs ==> r == current
    // cool is dropped exactly when it would reverse a recent heat
    ensures (current.cool == 1 && r.cool == 0) <==>
              (current.cool == 1 && last.heat == 1 && lastTimestamp > now - BlockContradictoryActionsSecs)
    // heat is dropped exactly when it would reverse a recent cool, unless the
    // cool check already fired
    ensures (current.heat == 1 && r.heat == 0) <==>
              (current.heat == 1 && last.cool == 1 && lastTimestamp > now - BlockContradictoryActionsSecs &&
               !(current.cool == 1 && last.heat == 1))
    // the humidity axis follows the same rule, independently
    ensures (current.dry == 1 && r.dry == 0) <==>
              (current.dry == 1 && last.humidify == 1 && lastTimestamp > now - BlockContradictoryActionsSecs)
    ensures (current.humidify == 1 && r.humidify == 0) <==>
              (current.humidify == 1 && last.dry == 1 && lastTimestamp > now - BlockContradictoryActionsSecs &&
               !(current.dry == 1 && last.humidify == 1))
  {
    var earliestForChange := now - BlockContradictoryActionsSecs;
    var recent := lastTimestamp > earliestForChange;
    var temperature :=
      if last.heat == 1 && current.cool == 1 && recent then current.(cool := 0)
      else if last.cool == 1 && current.heat == 1 && recent then current.(heat := 0)
      else current;
    if last.humidify == 1 && temperature.dry == 1 && recent then temperature.(dry := 0)
    else if last.dry == 1 && temperature.humidify == 1 && recent then temperature.(humidify := 0)
    else temperature
  }

  /** For proposals that never hold both opposing flags, as the two passes
      produce, each flag is dropped exactly when the last decision took the
      opposite action less than 30 minutes ago. */
  lemma GuardOnExclusiveActions(current: Actions, last: Actions, lastTimestamp: int, now: int)
    requires !(current.heat == 1 && current.cool == 1)
    requires !(current.humidify == 1 && current.dry == 1)
    ensures var r := OverwriteContradictingActions(current, last, lastTimestamp, now);
            var recent := lastTimestamp > now - BlockContradictoryActionsSecs;
            r.heat == (if last.cool == 1 && recent then 0 else current.heat) &&
            r.cool == (if last.heat == 1 && recent then 0 else current.cool) &&
            r.humidify == (if last.dry == 1 && recent then 0 else current.humidify) &&
            r.dry == (if last.humidify == 1 && recent then 0 else current.dry)
  {
  }

  /** Index of the most recent row that carries a decision. */
  function LastDecidedIndex(rows: seq<Record>): (r: Option<nat>)
    ensures r.Some? ==> r.value < |rows| && rows[r.value].decision.Some?
    ensures r.Some? ==> forall j :: r.value < j < |rows| ==> rows[j].decision.None?
    ensures r.None? ==> forall j :: 0 <= j < |rows| ==> rows[j].decision.None?
  {
    if rows == [] then None
    else if rows[|rows| - 1].decision.Some? then Some(|rows| - 1)
    else LastDecidedIndex(rows[..|rows| - 1])
  }

  datatype Actuator = Heater | Cooler | Humidifier | WindowOpener

  /** The branch choice of `apply_actions`: heat before cool, humidify before
      dry; the actuator calls themselves are stubs. */
  function ActuatorCalls(a: Actions): (calls: seq<Actuator>)
    ensures Heater in calls <==> a.heat == 1
    ensures Cooler in calls <==> a.cool == 1 && a.heat == 0
    ensures Humidifier in calls <==> a.humidify == 1
    ensures WindowOpener in calls <==> a.dry == 1 && a.humidify == 0
    ensures |calls| <= 2
    ensures |calls| == 2 ==> calls[0] in {Heater, Cooler} && calls[1] in {Humidifier, WindowOpener}
  {
    var temperature :=
      if a.heat == 1 then [Heater] else if a.cool == 1 then [Cooler] else [];
    var humidity :=
      if a.humidify == 1 then [Humidifier] else if a.dry == 1 then [WindowOpener] else [];
    temperature + humidity
  }

  /** `persist_actions` on the rows of today's file: the four action columns
      of the last row are set, nothing else changes; an empty file has no
      last row. */
  function PersistActions(rows: seq<Record>, a: Actions): (r: Option<seq<Record>>)
    ensures r.Some? <==> |rows| > 0
    ensures r.Some? ==> |r.value| == |rows|
    ensures r.Some? ==> r.value[|rows| - 1].decision == Some(a)
    ensures r.Some? ==> forall i :: 0 <= i < |rows| - 1 ==> r.value[i] == rows[i]
    ensures r.Some? ==> r.value[|rows| - 1] == rows[|rows| - 1].(decision := Some(a))
  {
    if rows == [] then None
    else Some(rows[..|rows| - 1] + [rows[|rows| - 1].(decision := Some(a))])
  }
}
