/**
 * The perimeter walk of an agent (`move` and `addPreviousPosition` in
 * src/little_guy.js): which empty cells next to the surface it may step to,
 * which of them it picks, and the short history of places it has stood.
 */
module Perimeter {
  import opened Geometry
  import opened Cells
  import opened Bodies

  /** How many recent positions an agent remembers. */
  const HISTORY_LENGTH: nat := 4

  /** The history after standing at `p`: appended, the oldest dropped beyond the limit. */
  function Pushed(history: seq<Pos>, p: Pos): seq<Pos>
  {
    var h := history + [p];
    if |h| > HISTORY_LENGTH then h[1..] else h
  }

  /** The history after standing at each of `ps` in turn. */
  function PushedAll(history: seq<Pos>, ps: seq<Pos>): seq<Pos>
  {
    if ps == [] then history
    else Pushed(PushedAll(history, ps[..|ps| - 1]), ps[|ps| - 1])
  }

  /** The last `n` elements of `s` (all of it when shorter). */
  function LastN(s: seq<Pos>, n: nat): (r: seq<Pos>)
    ensures |r| == if |s| < n then |s| else n
    ensures r == s[|s| - |r|..]
  {
    if |s| <= n then s else s[|s| - n..]
  }

  /**
   * Starting from a history within the limit, the history is always exactly the
   * last four positions stood at, however many steps are taken.
   */
  lemma {:induction false} HistoryIsLastFour(history: seq<Pos>, ps: seq<Pos>)
    requires |history| <= HISTORY_LENGTH
    ensures PushedAll(history, ps) == LastN(history + ps, HISTORY_LENGTH)
  {
    if ps != [] {
      var init := ps[..|ps| - 1];
      var last := ps[|ps| - 1];
      HistoryIsLastFour(history, init);
      assert ps == init + [last];
      assert history + ps == (history + init) + [last];
      var prev := LastN(history + init, HISTORY_LENGTH);
      var all := history + ps;
      if |prev + [last]| > HISTORY_LENGTH {
        assert (prev + [last])[1..] == all[|all| - HISTORY_LENGTH..];
      } else {
        assert prev + [last] == all;
      }
    }
  }

  /** A step the agent may take: the empty cell and the side of the surface cell it faces. */
  datatype Candidate = Candidate(position: Pos, orientation: Pos)

  /** Some surface cell among `cells` sits at `p`. */
  predicate SurfaceAt(cells: seq<Pixel>, p: Pos)
    reads set i | 0 <= i < |cells| :: cells[i]
  {
    exists i :: 0 <= i < |cells| && cells[i].isSurface && cells[i].position == p
  }

  /** The positions of the surface cells among `cells`, in order. */
  function SurfacePositions(cells: seq<Pixel>): (r: seq<Pos>)
    reads set i | 0 <= i < |cells| :: cells[i]
    ensures forall j :: 0 <= j < |r| ==> SurfaceAt(cells, r[j])
    ensures forall i :: 0 <= i < |cells| && cells[i].isSurface ==> cells[i].position in r
  {
    if cells == [] then []
    else
      var init := cells[..|cells| - 1];
      var last := cells[|cells| - 1];
      var rest := SurfacePositions(init);
      assert forall j :: 0 <= j < |init| ==> init[j] == cells[j];
      forall j | 0 <= j < |rest| ensures SurfaceAt(cells, rest[j]) {
        assert SurfaceAt(init, rest[j]);
        var i :| 0 <= i < |init| && init[i].isSurface && init[i].position == rest[j];
        assert cells[i] == init[i];
      }
      rest + (if last.isSurface then [last.position] else [])
  }

  /** The sides, taken from `sides` in order, whose neighbour of `p` is empty. */
  function OpenSides(p: Pos, occupied: set<Pos>, sides: seq<Pos>): (r: seq<Pos>)
    ensures forall j :: 0 <= j < |r| ==> r[j] in sides && Add(p, r[j]) !in occupied
    ensures forall k :: 0 <= k < |sides| && Add(p, sides[k]) !in occupied ==> sides[k] in r
  {
    if sides == [] then []
    else
      var init := sides[..|sides| - 1];
      var d := sides[|sides| - 1];
      var rest := OpenSides(p, occupied, init);
      assert forall k :: 0 <= k < |init| ==> init[k] == sides[k];
      rest + (if Add(p, d) in occupied then [] else [d])
  }

  /** The steps onto the open sides `edges` of the cell at `p` that are neither `here` nor remembered. */
  function Steps(p: Pos, edges: seq<Pos>, here: Pos, history: seq<Pos>): (r: seq<Candidate>)
    ensures forall j :: 0 <= j < |r| ==>
      r[j].orientation in edges && r[j].position == Add(p, r[j].orientation) &&
      r[j].position != here && r[j].position !in history
    ensures forall k :: 0 <= k < |edges| && Add(p, edges[k]) != here && Add(p, edges[k]) !in history ==>
      Candidate(Add(p, edges[k]), edges[k]) in r
  {
    if edges == [] then []
    else
      var init := edges[..|edges| - 1];
      var d := edges[|edges| - 1];
      var rest := Steps(p, init, here, history);
      assert forall k :: 0 <= k < |init| ==> init[k] == edges[k];
      var c := Add(p, d);
      rest + (if c == here || c in history then [] else [Candidate(c, d)])
  }

  /**
   * The agent's candidate steps: for each surface position in order, the steps
   * onto its open sides (checked in the order of `SIDES`).
   */
  function CandidatesFrom(surface: seq<Pos>, occupied: set<Pos>, here: Pos, history: seq<Pos>): seq<Candidate>
  {
    if surface == [] then []
    else
      var p := surface[|surface| - 1];
      CandidatesFrom(surface[..|surface| - 1], occupied, here, history) +
      Steps(p, OpenSides(p, occupied, SIDES), here, history)
  }

  /**
   * `c` is a step onto a new, empty cell on a cardinal side of one of the
   * surface cells, carrying that side as its orientation.
   */
  predicate IsStep(c: Candidate, surface: seq<Pos>, occupied: set<Pos>, here: Pos, history: seq<Pos>)
  {
    IsCardinal(c.orientation) && c.orientation in SIDES &&
    Sub(c.position, c.orientation) in surface &&
    c.position !in occupied && c.position != here && c.position !in history
  }

  /** Every candidate faces one of the four sides. */
  lemma CandidatesCardinal(surface: seq<Pos>, occupied: set<Pos>, here: Pos, history: seq<Pos>)
    ensures forall c :: c in CandidatesFrom(surface, occupied, here, history) ==> IsCardinal(c.orientation)
  {
    CandidatesSound(surface, occupied, here, history);
  }

  /** Every candidate is such a step. */
  lemma {:induction false} CandidatesSound(surface: seq<Pos>, occupied: set<Pos>, here: Pos, history: seq<Pos>)
    ensures forall c :: c in CandidatesFrom(surface, occupied, here, history) ==>
      IsStep(c, surface, occupied, here, history)
  {
    if surface != [] {
      var init := surface[..|surface| - 1];
      var p := surface[|surface| - 1];
      CandidatesSound(init, occupied, here, history);
      var rest := CandidatesFrom(init, occupied, here, history);
      var edges := OpenSides(p, occupied, SIDES);
      var more := Steps(p, edges, here, history);
      forall c | c in rest + more
        ensures IsStep(c, surface, occupied, here, history)
      {
        if c in rest {
          assert IsStep(c, init, occupied, here, history);
          var q := Sub(c.position, c.orientation);
          var n :| 0 <= n < |init| && init[n] == q;
          assert surface[n] == q;
        } else {
          var m :| 0 <= m < |more| && more[m] == c;
          assert c.orientation in edges && c.position == Add(p, c.orientation);
          var e :| 0 <= e < |edges| && edges[e] == c.orientation;
          assert edges[e] in SIDES && Add(p, edges[e]) !in occupied;
          assert Sub(c.position, c.orientation) == p;
        }
      }
    }
  }

  /**
   * Every empty, new cell on a side of a surface cell is a candidate, facing
   * away from that cell.
   */
  lemma {:induction false} CandidatesComplete(surface: seq<Pos>, occupied: set<Pos>, here: Pos, history: seq<Pos>)
    ensures forall i, k ::
      (0 <= i < |surface| && 0 <= k < |SIDES| &&
       Add(surface[i], SIDES[k]) !in occupied && Add(surface[i], SIDES[k]) != here &&
       Add(surface[i], SIDES[k]) !in history) ==>
        Candidate(Add(surface[i], SIDES[k]), SIDES[k]) in CandidatesFrom(surface, occupied, here, history)
  {
    if surface != [] {
      var init := surface[..|surface| - 1];
      var p := surface[|surface| - 1];
      CandidatesComplete(init, occupied, here, history);
      var rest := CandidatesFrom(init, occupied, here, history);
      var edges := OpenSides(p, occupied, SIDES);
      var more := Steps(p, edges, here, history);
      forall i, k |
        0 <= i < |surface| && 0 <= k < |SIDES| &&
        Add(surface[i], SIDES[k]) !in occupied && Add(surface[i], SIDES[k]) != here &&
        Add(surface[i], SIDES[k]) !in history
        ensures Candidate(Add(surface[i], SIDES[k]), SIDES[k]) in rest + more
      {
        var c := Candidate(Add(surface[i], SIDES[k]), SIDES[k]);
        if i < |init| {
          assert init[i] == surface[i];
          assert c in rest;
        } else {
          assert surface[i] == p;
          assert SIDES[k] in edges;
          var e :| 0 <= e < |edges| && edges[e] == SIDES[k];
          assert c in more;
        }
      }
    }
  }

  /** The positions of the surface cells among the neighbours (step 2 of a move). */
  method SurfaceOf(surrounding: seq<Pixel>) returns (surface: seq<Pos>)
    ensures surface == SurfacePositions(surrounding)
  {
    surface := [];
    var i := 0;
    while i < |surrounding|
      invariant 0 <= i <= |surrounding|
      invariant surface == SurfacePositions(surrounding[..i])
    {
      assert surrounding[..i + 1][..i] == surrounding[..i];
      if surrounding[i].isSurface {
        surface := surface + [surrounding[i].position];
      }
      i := i + 1;
    }
    assert surrounding[..i] == surrounding;
  }

  /** The open sides of the surface cell at `p`, in the order of `SIDES` (step 3). */
  method EdgesOf(body: PixelBody, p: Pos) returns (pEdges: seq<Pos>)
    ensures pEdges == OpenSides(p, body.pixels.Keys, SIDES)
  {
    pEdges := [];
    var k := 0;
    while k < |SIDES|
      invariant 0 <= k <= |SIDES|
      invariant pEdges == OpenSides(p, body.pixels.Keys, SIDES[..k])
    {
      assert SIDES[..k + 1][..k] == SIDES[..k];
      if body.GetPixel(Add(p, SIDES[k])).None? {
        pEdges := pEdges + [SIDES[k]];
      }
      k := k + 1;
    }
    assert SIDES[..k] == SIDES;
  }

  /** Whether `c` is among the remembered positions; the scan stops at the first match. */
  method WasPreviousPosition(history: seq<Pos>, c: Pos) returns (was: bool)
    ensures was <==> c in history
  {
    was := false;
    var n := 0;
    while n < |history|
      invariant 0 <= n <= |history|
      invariant !was && c !in history[..n]
    {
      if history[n] == c {
        was := true;
        return;
      }
      assert history[..n + 1] == history[..n] + [history[n]];
      n := n + 1;
    }
    assert history[..n] == history;
  }

  /** The new steps onto the open sides `pEdges` of the cell at `p` (step 4, one cell). */
  method StepsOf(p: Pos, pEdges: seq<Pos>, here: Pos, history: seq<Pos>) returns (steps: seq<Candidate>)
    ensures steps == Steps(p, pEdges, here, history)
  {
    steps := [];
    var k := 0;
    while k < |pEdges|
      invariant 0 <= k <= |pEdges|
      invariant steps == Steps(p, pEdges[..k], here, history)
    {
      assert pEdges[..k + 1][..k] == pEdges[..k];
      var c := Add(p, pEdges[k]);
      if c != here {
        var wasPrevious := WasPreviousPosition(history, c);
        if !wasPrevious {
          steps := steps + [Candidate(c, pEdges[k])];
        }
      }
      k := k + 1;
    }
    assert pEdges[..k] == pEdges;
  }

  /** The open sides of every surface cell (step 3 of a move). */
  method EdgeMap(body: PixelBody, surface: seq<Pos>) returns (edges: seq<seq<Pos>>)
    ensures |edges| == |surface|
    ensures forall m :: 0 <= m < |surface| ==> edges[m] == OpenSides(surface[m], body.pixels.Keys, SIDES)
  {
    edges := [];
    var j := 0;
    while j < |surface|
      invariant 0 <= j <= |surface|
      invariant |edges| == j
      invariant forall m :: 0 <= m < j ==> edges[m] == OpenSides(surface[m], body.pixels.Keys, SIDES)
    {
      var pEdges := EdgesOf(body, surface[j]);
      edges := edges + [pEdges];
      j := j + 1;
    }
  }

  /**
   * Steps 2 to 4 of a move: the surface cells among the neighbours, the open
   * sides of each, and the resulting steps that are new.
   */
  method CollectCandidates(body: PixelBody, surrounding: seq<Pixel>, here: Pos, history: seq<Pos>)
    returns (candidates: seq<Candidate>)
    ensures candidates == CandidatesFrom(SurfacePositions(surrounding), body.pixels.Keys, here, history)
  {
    var surface := SurfaceOf(surrounding);
    candidates := StepsAround(body, surface, here, history);
  }

  /** Steps 1 to 4 of a move: the candidate steps from `here`, given the movement history. */
  method CandidatesAround(body: PixelBody, here: Pos, history: seq<Pos>) returns (candidates: seq<Candidate>)
    ensures candidates == CandidatesFrom(SurfacePositions(body.GetSurroundingPixels(here)), body.pixels.Keys, here, history)
    ensures forall c :: c in candidates ==> IsCardinal(c.orientation)
  {
    var surrounding := body.GetSurroundingPixels(here);
    candidates := [];
    if |surrounding| > 0 {
      candidates := CollectCandidates(body, surrounding, here, history);
    }
    CandidatesCardinal(SurfacePositions(surrounding), body.pixels.Keys, here, history);
  }

  /** Steps 3 and 4 of a move, from the positions of the surface cells around. */
  method StepsAround(body: PixelBody, surface: seq<Pos>, here: Pos, history: seq<Pos>)
    returns (candidates: seq<Candidate>)
    ensures candidates == CandidatesFrom(surface, body.pixels.Keys, here, history)
  {
    var edges := EdgeMap(body, surface);
    candidates := StepsOfAll(surface, edges, body.pixels.Keys, here, history);
  }

  /** Step 4 of a move: the new steps of every surface cell, given the open sides of each. */
  method StepsOfAll(surface: seq<Pos>, edges: seq<seq<Pos>>, occupied: set<Pos>, here: Pos, history: seq<Pos>)
    returns (candidates: seq<Candidate>)
    requires |edges| == |surface|
    requires forall m :: 0 <= m < |surface| ==> edges[m] == OpenSides(surface[m], occupied, SIDES)
    ensures candidates == CandidatesFrom(surface, occupied, here, history)
  {
    candidates := [];
    var j := 0;
    while j < |surface|
      invariant 0 <= j <= |surface|
      invariant candidates == CandidatesFrom(surface[..j], occupied, here, history)
    {
      var steps := StepsOf(surface[j], edges[j], here, history);
      CandidatesSnoc(surface, j, occupied, here, history);
      candidates := candidates + steps;
      j := j + 1;
    }
    assert surface[..j] == surface;
  }

  lemma CandidatesSnoc(surface: seq<Pos>, j: nat, occupied: set<Pos>, here: Pos, history: seq<Pos>)
    requires j < |surface|
    ensures CandidatesFrom(surface[..j + 1], occupied, here, history) ==
      CandidatesFrom(surface[..j], occupied, here, history) +
      Steps(surface[j], OpenSides(surface[j], occupied, SIDES), here, history)
  {
    assert surface[..j + 1][..j] == surface[..j];
  }

  /**
   * The four grid rotations the move logic borrows from the vector helpers
   * (not part of this model), each taking a position and the layer's size.
   */
  datatype Rotations = Rotations(
    rotate180: (Pos, int, int) -> Pos,
    rotate90CW: (Pos, int, int) -> Pos,
    rotate90CCW: (Pos, int, int) -> Pos)

  /**
   * The x coordinate of `p` in a frame turned so that `orientation` points up;
   * the tie-break between equally near steps compares these.
   */
  function RotatedX(p: Pos, orientation: Pos, rot: Rotations, width: int, height: int): int
  {
    if orientation == (0, -1) then p.0
    else if orientation == (0, 1) then rot.rotate180(p, width, height).0
    else if orientation == (-1, 0) then rot.rotate90CW(p, width, height).0
    else rot.rotate90CCW(p, width, height).0
  }

  function MinInt(a: int, b: int): int { if a <= b then a else b }

  /**
   * The squared distance of candidate `i` from `here` as the selection sees it:
   * the first candidate is compared against the starting bound `limit` instead,
   * so it counts as no farther than that bound.
   */
  function Effective(candidates: seq<Candidate>, here: Pos, limit: int, i: int): int
    requires 0 <= i < |candidates|
  {
    if i == 0 then MinInt(DistSq(candidates[0].position, here), limit)
    else DistSq(candidates[i].position, here)
  }

  /** `a` lies further in the walking direction than `b` (left when `direction < 0`). */
  predicate Ahead(direction: int, a: int, b: int)
  {
    if direction < 0 then a < b else a > b
  }

  /** The bound the selection starts from: the square of the layer's larger dimension. */
  function StartBound(width: int, height: int): int
  {
    Square(if width >= height then width else height)
  }

  /**
   * `s` is the choice among the candidate steps: the nearest to `here`, the
   * one furthest in the walking direction among equally near ones, the
   * earliest among those; the search starts from `StartBound`, so when every
   * step is at least that far the first one is kept.
   */
  predicate IsSelection(candidates: seq<Candidate>, s: int, here: Pos, orientation: Pos, rot: Rotations,
                        width: int, height: int, direction: int)
  {
    var limit := StartBound(width, height);
    0 <= s < |candidates| &&
    (forall i :: 0 <= i < |candidates| ==>
       Effective(candidates, here, limit, s) <= Effective(candidates, here, limit, i)) &&
    (forall i ::
       (0 <= i < |candidates| &&
        Effective(candidates, here, limit, i) == Effective(candidates, here, limit, s)) ==>
       !Ahead(direction, RotatedX(candidates[i].position, orientation, rot, width, height),
                         RotatedX(candidates[s].position, orientation, rot, width, height))) &&
    (forall i ::
       (0 <= i < s &&
        Effective(candidates, here, limit, i) == Effective(candidates, here, limit, s)) ==>
       Ahead(direction, RotatedX(candidates[s].position, orientation, rot, width, height),
                        RotatedX(candidates[i].position, orientation, rot, width, height))) &&
    ((exists i :: 0 <= i < |candidates| && DistSq(candidates[i].position, here) < limit) ==>
       forall i :: 0 <= i < |candidates| ==>
         DistSq(candidates[s].position, here) <= DistSq(candidates[i].position, here))
  }

  method SelectCandidate(candidates: seq<Candidate>, here: Pos, orientation: Pos, rot: Rotations,
                         width: int, height: int, direction: int) returns (s: nat)
    requires |candidates| > 0
    requires width >= 0 && height >= 0
    ensures IsSelection(candidates, s, here, orientation, rot, width, height, direction)
  {
    var limit := StartBound(width, height);
    s := 0;
    var current := limit;
    var i := 0;
    while i < |candidates|
      invariant 0 <= i <= |candidates|
      invariant s < |candidates|
      invariant i == 0 ==> s == 0 && current == limit
      invariant i > 0 ==> s < i && current == Effective(candidates, here, limit, s)
      invariant forall j :: 0 <= j < i ==>
        Effective(candidates, here, limit, s) <= Effective(candidates, here, limit, j)
      invariant forall j ::
        (0 <= j < i &&
         Effective(candidates, here, limit, j) == Effective(candidates, here, limit, s)) ==>
        !Ahead(direction, RotatedX(candidates[j].position, orientation, rot, width, height),
                          RotatedX(candidates[s].position, orientation, rot, width, height))
      invariant forall j ::
        (0 <= j < s &&
         Effective(candidates, here, limit, j) == Effective(candidates, here, limit, s)) ==>
        Ahead(direction, RotatedX(candidates[s].position, orientation, rot, width, height),
                         RotatedX(candidates[j].position, orientation, rot, width, height))
    {
      var newDist := DistSq(candidates[i].position, here);
      var x := RotatedX(candidates[i].position, orientation, rot, width, height);
      var selectedX := RotatedX(candidates[s].position, orientation, rot, width, height);
      var better := if direction < 0 then x < selectedX else x > selectedX;
      if newDist < current || (newDist == current && better) {
        s := i;
        current := newDist;
      }
      i := i + 1;
    }
    if exists i :: 0 <= i < |candidates| && DistSq(candidates[i].position, here) < limit {
      var w :| 0 <= w < |candidates| && DistSq(candidates[w].position, here) < limit;
      assert Effective(candidates, here, limit, s) <= Effective(candidates, here, limit, w);
    }
  }
}
