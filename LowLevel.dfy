/** The low-level pass: the mode of the recent classifier labels combined
    with the occupant's feedback on the latest row. */
module LowLevel {
  import opened Records

  /** The lag the source picks the mode over (12 rows of 5 s = 1 minute). */
  const ClassifierLagWindow: nat := 12

  /** The labels of the last `min(12, |window|)` rows, in row order. */
  function LagPredictions(window: seq<Record>): (p: seq<Label>)
    ensures |p| == if |window| < ClassifierLagWindow then |window| else ClassifierLagWindow
    ensures forall i :: 0 <= i < |p| ==> p[i] == window[|window| - |p| + i].prediction
  {
    var start := if |window| < ClassifierLagWindow then 0 else |window| - ClassifierLagWindow;
    Predictions(window[start..])
  }

  /** The classifier column of a run of rows. */
  function Predictions(rows: seq<Record>): (p: seq<Label>)
    ensures |p| == |rows|
    ensures forall i :: 0 <= i < |p| ==> p[i] == rows[i].prediction
  {
    if rows == [] then [] else [rows[0].prediction] + Predictions(rows[1..])
  }

  /** The most frequent label; on a tie the smallest label wins, as pandas
      `mode()` lists tied values in ascending order and the source takes the
      first. */
  function Mode(labels: seq<Label>): (r: Label)
    requires |labels| > 0
    ensures multiset(labels)[r] > 0
    ensures forall l: Label :: multiset(labels)[l] <= multiset(labels)[r]
    ensures forall l: Label :: multiset(labels)[l] == multiset(labels)[r] ==> r <= l
  {
    var m := multiset(labels);
    assert m[-1] + m[0] + m[1] == |labels| by {
      MultisetOfLabels(labels);
    }
    if m[-1] >= m[0] && m[-1] >= m[1] then -1
    else if m[0] >= m[1] then 0
    else 1
  }

  lemma {:induction false} MultisetOfLabels(labels: seq<Label>)
    ensures multiset(labels)[-1] + multiset(labels)[0] + multiset(labels)[1] == |labels|
  {
    if labels != [] {
      MultisetOfLabels(labels[1..]);
      assert labels == [labels[0]] + labels[1..];
    }
  }

  /** "It's warm": the rule that makes the pass cool. */
  predicate WarmBranch(feedback: int, mode: Label, lastFeedback: Option<int>)
    ensures WarmBranch(feedback, mode, lastFeedback) ==> feedback == 1 || feedback == 2
    ensures feedback == 2 || (feedback == 1 && mode == 1) ==> WarmBranch(feedback, mode, lastFeedback)
    // against the classifier, a slight warm vote counts after no vote, a
    // neutral or a slight warm one, and is ignored after any other vote
    ensures feedback == 1 && mode != 1 ==>
              (WarmBranch(feedback, mode, lastFeedback) <==>
               lastFeedback.None? || lastFeedback.value == 0 || lastFeedback.value == 1)
  {
    feedback == 2
    || (feedback == 1 && mode == 1)
    || (feedback == 1 && lastFeedback in {Some(1), Some(0), None})
  }

  /** "It's cool": the rule that makes the pass heat. */
  predicate CoolBranch(feedback: int, mode: Label, lastFeedback: Option<int>)
    ensures CoolBranch(feedback, mode, lastFeedback) ==> feedback == -1 || feedback == -2
    ensures feedback == -2 || (feedback == -1 && mode == -1) ==> CoolBranch(feedback, mode, lastFeedback)
    // against the classifier, a slight cold vote counts after no vote, a
    // neutral or a slight cold one, and is ignored after any other vote
    ensures feedback == -1 && mode != -1 ==>
              (CoolBranch(feedback, mode, lastFeedback) <==>
               lastFeedback.None? || lastFeedback.value == 0 || lastFeedback.value == -1)
  {
    feedback == -2
    || (feedback == -1 && mode == -1)
    || (feedback == -1 && lastFeedback in {Some(-1), Some(0), None})
  }

  /** What one low-level pass proposes, and the zone (if any) the target
      temperature is recalibrated to. */
  datatype Outcome = Outcome(actions: Actions, zone: Option<int>)

  /** The branch logic of `low_level_decision_making`. */
  function LowLevelDecision(mode: Label, feedback: Option<int>, lastFeedback: Option<int>): (o: Outcome)
    ensures o.actions.humidify == 0 && o.actions.dry == 0
    ensures !(o.actions.heat == 1 && o.actions.cool == 1)
    ensures o.zone.Some? ==> -2 <= o.zone.value <= 2
    // without feedback the classifier alone decides, and always recalibrates
    ensures feedback.None? ==>
              (o.actions.cool == 1 <==> mode == 1) &&
              (o.actions.heat == 1 <==> mode == -1) &&
              o.zone == Some(mode)
    // with feedback: strong votes always act, and a weak vote acts when the
    // classifier agrees or it does not contradict the previous vote
    ensures feedback == Some(2) ==> o.actions.cool == 1
    ensures feedback == Some(-2) ==> o.actions.heat == 1
    ensures feedback == Some(1) ==>
              (o.actions.cool == 1 <==> mode == 1 || lastFeedback in {Some(1), Some(0), None}) &&
              o.actions.heat == 0
    ensures feedback == Some(-1) ==>
              (o.actions.heat == 1 <==> mode == -1 || lastFeedback in {Some(-1), Some(0), None}) &&
              o.actions.cool == 0
    ensures feedback.Some? && !(feedback.value in {-2, -1, 1, 2}) ==> o == Outcome(NoActions, None)
    // with feedback, recalibration happens exactly when an action is taken,
    // and with the feedback as zone
    ensures feedback.Some? ==>
              (o.zone.Some? <==> o.actions.heat == 1 || o.actions.cool == 1) &&
              (o.zone.Some? ==> o.zone == feedback)
  {
    if feedback.None? then
      Outcome(NoActions.(cool := if mode == 1 then 1 else 0, heat := if mode == -1 then 1 else 0),
              Some(mode))
    else if WarmBranch(feedback.value, mode, lastFeedback) then
      Outcome(NoActions.(cool := 1), feedback)
    else if CoolBranch(feedback.value, mode, lastFeedback) then
      Outcome(NoActions.(heat := 1), feedback)
    else
      Outcome(NoActions, None)
  }
}
