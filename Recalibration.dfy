/** Target-temperature recalibration (`shift_optimal_room_temperature`):
    sweep a grid of room temperatures, keep those whose comfort score lies in
    the sub-range of the zone, and move the target to the midpoint of the
    first and last kept temperature. */
module Recalibration {
  import opened Records
  import HighLevel

  /** The comfort score of a candidate temperature for a given current
      target (`calculate_ashrae_value`). Its sigmoid is left abstract. */
  type Ashrae = (real, real) -> int

  /** The grid runs from 18.00 in steps of 0.01. */
  function GridTemp(i: int): real {
    HighLevel.MinRoomTemp + i as real / 100.0
  }

  /** 18.00, 18.01, ..., 26.00: the sweep the source intends. */
  const GridSize: nat := 801

  /** `np.arange(18.0, 26.0 + 0.01, 0.01)` computes its length as
      ceil(8.01 / 0.01) in floating point, which is 802: the sweep as
      written also contains 26.01. */
  const ArangeGridSize: nat := 802

  function Grid(n: nat): (g: seq<real>)
    ensures |g| == n
    ensures forall i :: 0 <= i < n ==> g[i] == GridTemp(i)
  {
    seq(n, i => GridTemp(i))
  }

  lemma GridEnds()
    ensures GridTemp(0) == HighLevel.MinRoomTemp
    ensures GridTemp(GridSize - 1) == HighLevel.MaxRoomTemp
    ensures GridTemp(ArangeGridSize - 1) > HighLevel.MaxRoomTemp
  {
  }

  /** The score sub-range a zone is recalibrated into: a hot vote (2) moves
      the target so that the room scores -3..-2, a cold vote (-2) so that it
      scores 2..3. */
  function ZoneRange(zone: int): (r: (int, int))
    requires -2 <= zone <= 2
    ensures r.0 < r.1
    // a warm vote seeks temperatures scoring cold, a cold vote warm ones,
    // and zone 0 the neutral band around the target
    ensures zone > 0 ==> r.1 < 0
    ensures zone < 0 ==> r.0 > 0
    ensures zone == 0 ==> r.0 < 0 < r.1
    // a vote's band is one score point wide and one point further out for a
    // strong vote than for a slight one
    ensures zone != 0 ==> r.1 - r.0 == 1
    ensures zone == 2 || zone == -2 ==> r.0 == 2 || r.1 == -2
  {
    match zone
    case -2 => (2, 3)
    case -1 => (1, 2)
    case 0 => (-1, 1)
    case 1 => (-2, -1)
    case 2 => (-3, -2)
  }

  /** Opposite votes seek mirror-image score bands. */
  lemma ZoneRangeSymmetric(zone: int)
    requires -2 <= zone <= 2
    ensures ZoneRange(-zone) == (-ZoneRange(zone).1, -ZoneRange(zone).0)
  {
  }

  predicate InZone(t: real, target: real, zone: int, ashrae: Ashrae)
    requires -2 <= zone <= 2
  {
    ZoneRange(zone).0 <= ashrae(t, target) <= ZoneRange(zone).1
  }

  /** The list comprehension over the grid: the temperatures in zone, in
      grid order. */
  function Candidates(temps: seq<real>, target: real, zone: int, ashrae: Ashrae): (c: seq<real>)
    requires -2 <= zone <= 2
    ensures |c| <= |temps|
    ensures forall t :: t in c ==> t in temps && InZone(t, target, zone, ashrae)
    ensures forall t :: t in temps && InZone(t, target, zone, ashrae) ==> t in c
  {
    if temps == [] then []
    else
      var rest := Candidates(temps[1..], target, zone, ashrae);
      assert forall t :: t in temps[1..] ==> t in temps;
      if InZone(temps[0], target, zone, ashrae) then [temps[0]] + rest else rest
  }

  predicate Increasing(s: seq<real>) {
    forall i, j :: 0 <= i < j < |s| ==> s[i] < s[j]
  }

  lemma {:induction false} CandidatesIncreasing(temps: seq<real>, target: real, zone: int, ashrae: Ashrae)
    requires -2 <= zone <= 2
    requires Increasing(temps)
    ensures Increasing(Candidates(temps, target, zone, ashrae))
  {
    if temps != [] {
      var rest := Candidates(temps[1..], target, zone, ashrae);
      CandidatesIncreasing(temps[1..], target, zone, ashrae);
      forall t | t in rest ensures temps[0] < t {
        var k :| 0 <= k < |temps[1..]| && temps[1..][k] == t;
        assert temps[k + 1] == t;
      }
      if InZone(temps[0], target, zone, ashrae) {
        var c := [temps[0]] + rest;
        forall i, j | 0 <= i < j < |c| ensures c[i] < c[j] {
          assert c[j] == rest[j - 1] && rest[j - 1] in rest;
          if i > 0 {
            assert c[i] == rest[i - 1];
          }
        }
      }
    }
  }

  /** The new target over a grid of `n` points, or None when no grid
      temperature scores in the zone. */
  function RecalibratedOn(n: nat, target: real, zone: int, ashrae: Ashrae): (t: Option<real>)
    requires -2 <= zone <= 2
    ensures t.None? <==> forall i :: 0 <= i < n ==> !InZone(GridTemp(i), target, zone, ashrae)
    ensures t.Some? ==> GridTemp(0) <= t.value <= GridTemp(n - 1)
  {
    var c := Candidates(Grid(n), target, zone, ashrae);
    if c == [] then
      assert forall i :: 0 <= i < n ==> Grid(n)[i] in Grid(n);
      None
    else
      assert c[0] in c && c[|c| - 1] in c;
      assert forall i :: 0 <= i < n ==> GridTemp(0) <= GridTemp(i) <= GridTemp(n - 1);
      assert InZone(c[0], target, zone, ashrae);
      Some((c[0] + c[|c| - 1]) / 2.0)
  }

  /** The new target is the midpoint of the lowest and highest grid
      temperature in zone, whatever lies between them. */
  lemma MidpointOfZoneSpan(n: nat, target: real, zone: int, ashrae: Ashrae, lo: nat, hi: nat)
    requires -2 <= zone <= 2
    requires lo <= hi < n
    requires InZone(GridTemp(lo), target, zone, ashrae) && InZone(GridTemp(hi), target, zone, ashrae)
    requires forall k :: 0 <= k < n && InZone(GridTemp(k), target, zone, ashrae) ==> lo <= k <= hi
    ensures RecalibratedOn(n, target, zone, ashrae) == Some((GridTemp(lo) + GridTemp(hi)) / 2.0)
  {
    var g := Grid(n);
    var c := Candidates(g, target, zone, ashrae);
    CandidatesIncreasing(g, target, zone, ashrae);
    assert g[lo] in g && g[hi] in g;
    var first := c[0];
    var last := c[|c| - 1];
    assert first in c && last in c;
    var a :| 0 <= a < n && g[a] == first;
    var b :| 0 <= b < n && g[b] == last;
    // GridTemp(lo) is in c, and c starts with its least element
    var p :| 0 <= p < |c| && c[p] == GridTemp(lo);
    var q :| 0 <= q < |c| && c[q] == GridTemp(hi);
    assert first <= GridTemp(lo) && GridTemp(hi) <= last;
    assert lo <= a && b <= hi;
  }

  /** The sweep the source intends keeps the target inside 18..26. */
  function Recalibrated(target: real, zone: int, ashrae: Ashrae): (t: Option<real>)
    requires -2 <= zone <= 2
    ensures t.None? <==> forall i :: 0 <= i < GridSize ==> !InZone(GridTemp(i), target, zone, ashrae)
    ensures t.Some? ==> HighLevel.MinRoomTemp <= t.value <= HighLevel.MaxRoomTemp
  {
    RecalibratedOn(GridSize, target, zone, ashrae)
  }

  /** The sweep as written, over the 802-point floating-point grid. */
  function RecalibratedAsWritten(target: real, zone: int, ashrae: Ashrae): (t: Option<real>)
    requires -2 <= zone <= 2
    ensures t.None? <==> forall i :: 0 <= i < ArangeGridSize ==> !InZone(GridTemp(i), target, zone, ashrae)
    ensures t.Some? ==> HighLevel.MinRoomTemp <= t.value <= GridTemp(ArangeGridSize - 1)
  {
    RecalibratedOn(ArangeGridSize, target, zone, ashrae)
  }

  /** A score that puts only temperatures above 26.00 into zone -2's range
      (2..3), as the sigmoid does for a target of 24.40. */
  function ScoreTwoAbove26(t: real, target: real): int {
    if t > HighLevel.MaxRoomTemp then 2 else 0
  }

  /** With that score, the sweep as written moves the target to 26.01, above
      the permitted maximum; the intended sweep leaves it unchanged. */
  lemma ArangeOvershootsMaximum()
    ensures RecalibratedAsWritten(24.4, -2, ScoreTwoAbove26) == Some(26.01)
    ensures 26.01 > HighLevel.MaxRoomTemp
    ensures Recalibrated(24.4, -2, ScoreTwoAbove26).None?
  {
    var last := ArangeGridSize - 1;
    assert InZone(GridTemp(last), 24.4, -2, ScoreTwoAbove26);
    forall k | 0 <= k < ArangeGridSize && InZone(GridTemp(k), 24.4, -2, ScoreTwoAbove26)
      ensures last <= k <= last
    {
    }
    MidpointOfZoneSpan(ArangeGridSize, 24.4, -2, ScoreTwoAbove26, last, last);
  }
}
