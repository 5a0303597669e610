/**
 * How an agent picks the side of its standing cell it faces
 * (`angleToOrientation` and `updateOrientation` in src/little_guy.js).
 */
module Orientations {
  import opened Wrappers
  import opened Geometry

  /**
   * The quarter-turn sector of the angle of `v`, as `angleToOrientation`
   * computes it from `atan2` with sectors centred on the axes: 0 around +y,
   * 1 around -x, 2 around -y, 3 around +x. The origin falls in 1: the
   * offset there is (-0, -0), because `toLocalSpace` negates `center - pos`,
   * and `atan2(-0, -0)` is -pi, which normalises into sector 1. Off the
   * origin a signed zero changes no sector, and exact arithmetic stands in
   * for the floating-point angle.
   */
  function SliceIndex(v: Pos): (r: int)
    ensures 0 <= r <= 3
    ensures r == 0 <==> v.1 > 0 && -v.1 < v.0 <= v.1
    ensures r == 1 <==> v == (0, 0) || (v.0 < 0 && v.0 < v.1 <= -v.0)
    ensures r == 2 <==> v.1 < 0 && v.1 <= v.0 < -v.1
    ensures r == 3 <==> v.0 > 0 && -v.0 <= v.1 < v.0
  {
    var (x, y) := v;
    if y > 0 && -y < x <= y then 0
    else if v == (0, 0) || (x < 0 && x < y <= -x) then 1
    else if y < 0 && y <= x < -y then 2
    else 3
  }

  /** The cardinal vector of a sector; an out-of-range index falls back to (0,-1). */
  function AngleToOrientation(sliceIndex: int): (r: Pos)
    ensures IsCardinal(r)
    ensures sliceIndex == 0 ==> r == (0, 1)
    ensures sliceIndex == 1 ==> r == (-1, 0)
    ensures sliceIndex == 2 ==> r == (0, -1)
    ensures sliceIndex == 3 ==> r == (1, 0)
    ensures !(0 <= sliceIndex <= 3) ==> r == (0, -1)
  {
    match sliceIndex
    case 0 => (0, 1)
    case 1 => (-1, 0)
    case 2 => (0, -1)
    case 3 => (1, 0)
    case _ => (0, -1)
  }

  function Dot(a: Pos, b: Pos): int { a.0 * b.0 + a.1 * b.1 }

  /**
   * The orientation guessed from a position relative to the body's centre
   * points away from the centre: it is the axis direction closest to the
   * position's own direction.
   */
  lemma GuessFacesOutward(v: Pos)
    requires v != (0, 0)
    ensures Dot(v, AngleToOrientation(SliceIndex(v))) > 0
    ensures forall o :: IsCardinal(o) ==> Dot(v, o) <= Dot(v, AngleToOrientation(SliceIndex(v)))
  {
  }

  /** The order in which `updateOrientation` tries the four sides. */
  const ORIENTATIONS: seq<Pos> := [(0, 1), (-1, 0), (0, -1), (1, 0)]

  /** The first of `order` whose neighbour of `at` is empty. */
  function FirstOpen(at: Pos, occupied: set<Pos>, order: seq<Pos>): (r: Option<Pos>)
    ensures r.Some? ==> r.value in order && Add(at, r.value) !in occupied
    ensures r.None? ==> forall i :: 0 <= i < |order| ==> Add(at, order[i]) in occupied
  {
    if order == [] then None
    else if Add(at, order[0]) !in occupied then Some(order[0])
    else FirstOpen(at, occupied, order[1..])
  }

  /**
   * The orientation after repair: the current one if the cell it points to is
   * empty, else the first empty side in the fixed order, else unchanged.
   */
  function RepairedOrientation(current: Pos, at: Pos, occupied: set<Pos>): Pos
  {
    if Add(at, current) !in occupied then current
    else match FirstOpen(at, occupied, ORIENTATIONS)
      case Some(o) => o
      case None => current
  }

  /** A cardinal orientation stays cardinal through repair. */
  lemma RepairKeepsCardinal(current: Pos, at: Pos, occupied: set<Pos>)
    requires IsCardinal(current)
    ensures IsCardinal(RepairedOrientation(current, at, occupied))
  {
  }

  /**
   * Repair points at an empty cell whenever the standing cell has one, keeps
   * an orientation that already does, and otherwise takes the first empty side
   * in the fixed order; with no empty side it keeps the orientation.
   */
  lemma RepairFacesOpenSide(current: Pos, at: Pos, occupied: set<Pos>)
    ensures var r := RepairedOrientation(current, at, occupied);
      ((exists i :: 0 <= i < |ORIENTATIONS| && Add(at, ORIENTATIONS[i]) !in occupied)
         ==> Add(at, r) !in occupied) &&
      (Add(at, current) !in occupied ==> r == current) &&
      (Add(at, current) in occupied && r != current ==>
         exists k :: 0 <= k < |ORIENTATIONS| && r == ORIENTATIONS[k] &&
           forall j :: 0 <= j < k ==> Add(at, ORIENTATIONS[j]) in occupied) &&
      ((forall i :: 0 <= i < |ORIENTATIONS| ==> Add(at, ORIENTATIONS[i]) in occupied) ==> r == current)
  {
    var r := RepairedOrientation(current, at, occupied);
    var o := ORIENTATIONS;
    assert o[1..] == [o[1], o[2], o[3]];
    assert o[1..][1..] == [o[2], o[3]];
    assert o[1..][1..][1..] == [o[3]];
    if Add(at, current) in occupied && r != current {
      if Add(at, ORIENTATIONS[0]) !in occupied {
        assert r == ORIENTATIONS[0];
      } else if Add(at, ORIENTATIONS[1]) !in occupied {
        assert FirstOpen(at, occupied, o) == FirstOpen(at, occupied, o[1..]);
        assert r == ORIENTATIONS[1];
      } else if Add(at, ORIENTATIONS[2]) !in occupied {
        assert FirstOpen(at, occupied, o) == FirstOpen(at, occupied, o[1..]);
        assert FirstOpen(at, occupied, o[1..]) == FirstOpen(at, occupied, o[1..][1..]);
        assert r == ORIENTATIONS[2];
      } else {
        assert r == ORIENTATIONS[3];
      }
    }
  }
}
