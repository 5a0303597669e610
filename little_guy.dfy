/**
 * The agent engine (src/little_guy.js): a worker that stands on the surface of
 * a pixel body, wanders along its perimeter, digs the cell under it, and dies
 * in one of several ways once its digs run out or the body kills it.
 *
 * Randomness is passed in as the rolls the source draws with `Math.random()`,
 * listener callbacks are recorded as a log of notices, and the position is
 * kept in body space only (the local position is that minus the body centre).
 */
module Agents {
  import opened Wrappers
  import opened Geometry
  import opened Cells
  import opened Bodies
  import opened Upgrading
  import opened Orientations
  import opened Perimeter

  const MIN_FRAMES_BETWEEN_MOVES: int := 10
  const MOVE_PROBABILITY_PCT: real := 2.0
  const DIG_PROBABILITY_PCT: real := 0.005
  const DIRECTION_PERSISTENCE_FACTOR: real := 0.9
  const DEATH_BY_EGG_FRAMES_BEFORE_INACTIVE: int := 40
  const ASSUMED_FPS: int := 60

  /** What the agent tells its listeners, in order. */
  datatype Notice = DigsComplete(cells: seq<Pixel>) | Death | Inactive

  /** The saved form of an agent (the cell being dug is restored separately). */
  datatype LittleGuyJson = LittleGuyJson(
    positionInPixelBodySpace: Pos, immaculate: bool, orientation: Pos,
    previousPositions: seq<Pos>, previousDirection: int, digging: bool, shielded: bool,
    alive: bool, ascentionProgressPct: int, active: bool, digsRemaining: int,
    saintly: bool, explosive: bool, deathByEgg: bool, deathBySerpent: bool,
    blockingSerpentAttack: bool)

  /** `q` is caught by an explosion of `radius` at `center`: eggs (unless handled) and magic survive. */
  predicate InBlast(q: Pixel, center: Pos, radius: int, eggHandling: bool)
  {
    DistSq(q.position, center) <= radius * radius &&
    !(q.pixelType == PixelType.Egg && !eggHandling) && q.pixelType != PixelType.Magic
  }

  /** How many `Inactive` notices `log` holds. */
  function InactiveCount(log: seq<Notice>): nat
  {
    if log == [] then 0
    else InactiveCount(log[..|log| - 1]) + (if log[|log| - 1] == Inactive then 1 else 0)
  }

  lemma InactiveCountAppend(log: seq<Notice>, more: seq<Notice>)
    ensures InactiveCount(log + more) == InactiveCount(log) + InactiveCount(more)
    decreases |more|
  {
    if more != [] {
      var init := more[..|more| - 1];
      assert (log + more)[..|log + more| - 1] == log + init;
      InactiveCountAppend(log, init);
    } else {
      assert log + more == log;
    }
  }

  /** `after` is `before` followed only by notices other than `Inactive`. */
  predicate GrewByEvents(before: seq<Notice>, after: seq<Notice>)
  {
    |before| <= |after| && after[..|before|] == before &&
    forall i :: |before| <= i < |after| ==> after[i] != Inactive
  }

  lemma GrewByEventsTransitive(a: seq<Notice>, b: seq<Notice>, c: seq<Notice>)
    requires GrewByEvents(a, b) && GrewByEvents(b, c)
    ensures GrewByEvents(a, c)
  {
    assert c[..|b|][..|a|] == c[..|a|];
  }

  /** Appending anything but `Inactive` leaves the count of `Inactive` notices alone. */
  lemma {:induction false} InactiveCountUnchanged(before: seq<Notice>, after: seq<Notice>)
    requires GrewByEvents(before, after)
    ensures InactiveCount(after) == InactiveCount(before)
    decreases |after|
  {
    if |after| > |before| {
      var init := after[..|after| - 1];
      assert init[..|before|] == before;
      InactiveCountUnchanged(before, init);
    } else {
      assert after == before;
    }
  }

  /**
   * `removed` lists, each once, exactly the cells of `pixels` caught by an
   * explosion of `radius` at `center`.
   */
  predicate Blasted(removed: seq<Pixel>, pixels: map<Pos, Pixel>, center: Pos, radius: int, eggHandling: bool)
  {
    (forall i :: 0 <= i < |removed| ==> removed[i] in pixels.Values && InBlast(removed[i], center, radius, eggHandling)) &&
    (forall k :: k in pixels && InBlast(pixels[k], center, radius, eggHandling) ==> pixels[k] in removed) &&
    (forall i, j :: 0 <= i < j < |removed| ==> removed[i] != removed[j])
  }

  /** The cells an explosion leaves standing. */
  function Survivors(pixels: map<Pos, Pixel>, center: Pos, radius: int, eggHandling: bool): map<Pos, Pixel>
  {
    map k | k in pixels && !InBlast(pixels[k], center, radius, eggHandling) :: pixels[k]
  }

  /** Cells only disappear: every cell in `after` was in `before`, at the same place. */
  predicate Shrunk(before: map<Pos, Pixel>, after: map<Pos, Pixel>)
  {
    forall k :: k in after ==> k in before && after[k] == before[k]
  }

  lemma ShrunkTransitive(a: map<Pos, Pixel>, b: map<Pos, Pixel>, c: map<Pos, Pixel>)
    requires Shrunk(a, b) && Shrunk(b, c)
    ensures Shrunk(a, c)
  {
  }

  /** A shrunk map holds no cell the original did not. */
  lemma ShrunkValues(a: map<Pos, Pixel>, b: map<Pos, Pixel>)
    requires Shrunk(a, b)
    ensures b.Values <= a.Values
  {
    forall v | v in b.Values ensures v in a.Values {
      var k :| k in b && b[k] == v;
      assert a[k] == v;
    }
  }

  /** Removing the blasted cells leaves exactly the survivors. */
  lemma SurvivorsAreUnremoved(pixels: map<Pos, Pixel>, removed: seq<Pixel>, center: Pos, radius: int, eggHandling: bool)
    requires Blasted(removed, pixels, center, radius, eggHandling)
    ensures (map k | k in pixels && pixels[k] !in removed :: pixels[k]) == Survivors(pixels, center, radius, eggHandling)
  {
    forall k | k in pixels && pixels[k] in removed
      ensures InBlast(pixels[k], center, radius, eggHandling)
    {
      var i :| 0 <= i < |removed| && removed[i] == pixels[k];
    }
  }

  /** The threshold a direction roll must exceed to walk right: the current direction is kept nine times in ten. */
  function PersistenceThreshold(previousDirection: int): real
  {
    if previousDirection < 0 then DIRECTION_PERSISTENCE_FACTOR else 1.0 - DIRECTION_PERSISTENCE_FACTOR
  }

  /** The walking direction `wander` draws from a roll in [0, 1). */
  function WalkDirection(previousDirection: int, roll: real): (r: int)
    ensures r == 1 || r == -1
    ensures previousDirection < 0 ==> (r == -1 <==> roll <= 0.9)
    ensures previousDirection >= 0 ==> (r == 1 <==> roll > 0.1)
  {
    if roll > PersistenceThreshold(previousDirection) then 1 else -1
  }

  class LittleGuy {
    const body: PixelBody
    const upgrades: Upgrades
    const immaculate: bool
    /** The starting health of dirt, which dirt-like cells measure their damage against. */
    const dirtInitialHealth: real

    var positionInPixelBodySpace: Pos
    var orientation: Pos
    var previousPositions: seq<Pos>
    var previousDirection: int
    var closestSurfacePixel: Pixel?
    var digging: bool
    var diggingFrames: int
    var pixelBeingDug: Pixel?
    var framesSinceLastMove: int
    var shielded: bool
    var alive: bool
    var ascentionProgressPct: int
    var active: bool
    var digsRemaining: int
    var saintly: bool
    var explosive: bool
    var deathByEgg: bool
    var framesSinceDeath: int
    var deathBySerpent: bool
    var blockingSerpentAttack: bool
    var notifications: seq<Notice>

    /**
     * The body is well formed, the agent faces one of the four sides, and the
     * cells it holds answer `actLikeDirt` without throwing.
     */
    ghost predicate Valid()
      reads this, body
    {
      body.Valid() && IsCardinal(orientation) &&
      (closestSurfacePixel != null ==> closestSurfacePixel.behaviour.Fixed?) &&
      (pixelBeingDug != null ==> pixelBeingDug.behaviour.Fixed?)
    }

    /**
     * A new agent at `positionInPixelBodySpace`, facing away from the body's
     * centre. `saintlyRoll` and `explosiveRoll` are the two random draws that
     * decide its nature.
     */
    constructor (body: PixelBody, positionInPixelBodySpace: Pos, upgrades: Upgrades, immaculate: bool,
                 saintlyRoll: real, explosiveRoll: real, dirtInitialHealth: real)
      requires body.Valid()
      ensures Valid()
      ensures this.body == body && this.upgrades == upgrades && this.immaculate == immaculate
      ensures this.dirtInitialHealth == dirtInitialHealth
      ensures this.positionInPixelBodySpace == positionInPixelBodySpace
      ensures orientation == AngleToOrientation(SliceIndex(Sub(positionInPixelBodySpace, body.center)))
      ensures positionInPixelBodySpace == body.center ==> orientation == (-1, 0)
      ensures previousPositions == [] && previousDirection == 0 && closestSurfacePixel == null
      ensures !digging && diggingFrames == 0 && pixelBeingDug == null && framesSinceLastMove == 0
      ensures !shielded && alive && ascentionProgressPct == 0 && active
      ensures digsRemaining == upgrades.digCount
      ensures saintly == (saintlyRoll < if immaculate then upgrades.saintlyPctImmaculate else upgrades.saintlyPctMaculate)
      ensures explosive == (explosiveRoll < upgrades.explosionChance)
      ensures !deathByEgg && framesSinceDeath == 0 && !deathBySerpent && !blockingSerpentAttack
      ensures notifications == []
    {
      this.body := body;
      this.upgrades := upgrades;
      this.immaculate := immaculate;
      this.dirtInitialHealth := dirtInitialHealth;
      this.positionInPixelBodySpace := positionInPixelBodySpace;
      orientation := AngleToOrientation(SliceIndex(Sub(positionInPixelBodySpace, body.center)));
      previousPositions := [];
      previousDirection := 0;
      closestSurfacePixel := null;
      digging := false;
      diggingFrames := 0;
      pixelBeingDug := null;
      framesSinceLastMove := 0;
      shielded := false;
      alive := true;
      ascentionProgressPct := 0;
      active := true;
      digsRemaining := upgrades.digCount;
      saintly := saintlyRoll < if immaculate then upgrades.saintlyPctImmaculate else upgrades.saintlyPctMaculate;
      explosive := explosiveRoll < upgrades.explosionChance;
      deathByEgg := false;
      framesSinceDeath := 0;
      deathBySerpent := false;
      blockingSerpentAttack := false;
      notifications := [];
    }

    /**
     * The saved form: every field that is restored on load. The saved
     * orientation of a well-formed agent is one of the four sides, as loading
     * requires.
     */
    function ToJson(): (r: LittleGuyJson)
      reads this, body
      ensures Valid() ==> IsCardinal(r.orientation)
    {
      LittleGuyJson(positionInPixelBodySpace, immaculate, orientation, previousPositions,
        previousDirection, digging, shielded, alive, ascentionProgressPct, active, digsRemaining,
        saintly, explosive, deathByEgg, deathBySerpent, blockingSerpentAttack)
    }

    /**
     * Restores an agent from its saved form: saving it again gives back the same
     * form, the cell being dug is the one supplied, and the frame counters start
     * from zero.
     */
    constructor FromJson(json: LittleGuyJson, body: PixelBody, upgrades: Upgrades, pixelBeingDug: Pixel?,
                         dirtInitialHealth: real)
      requires body.Valid() && IsCardinal(json.orientation)
      requires pixelBeingDug != null ==> pixelBeingDug.behaviour.Fixed?
      ensures Valid()
      ensures ToJson() == json
      ensures this.body == body && this.upgrades == upgrades && this.pixelBeingDug == pixelBeingDug
      ensures closestSurfacePixel == null && diggingFrames == 0 && framesSinceLastMove == 0
      ensures framesSinceDeath == 0 && notifications == []
    {
      this.body := body;
      this.upgrades := upgrades;
      this.immaculate := json.immaculate;
      this.dirtInitialHealth := dirtInitialHealth;
      this.positionInPixelBodySpace := json.positionInPixelBodySpace;
      orientation := json.orientation;
      previousPositions := json.previousPositions;
      previousDirection := json.previousDirection;
      closestSurfacePixel := null;
      digging := json.digging;
      diggingFrames := 0;
      this.pixelBeingDug := pixelBeingDug;
      framesSinceLastMove := 0;
      shielded := json.shielded;
      alive := json.alive;
      ascentionProgressPct := json.ascentionProgressPct;
      active := json.active;
      digsRemaining := json.digsRemaining;
      saintly := json.saintly;
      explosive := json.explosive;
      deathByEgg := json.deathByEgg;
      framesSinceDeath := 0;
      deathBySerpent := json.deathBySerpent;
      blockingSerpentAttack := json.blockingSerpentAttack;
      notifications := [];
    }

    /** Remembers `p`, keeping only the four most recent positions. */
    method AddPreviousPosition(p: Pos)
      modifies this`previousPositions
      ensures previousPositions == Pushed(old(previousPositions), p)
      ensures |old(previousPositions)| <= HISTORY_LENGTH ==> |previousPositions| <= HISTORY_LENGTH
      ensures previousPositions[|previousPositions| - 1] == p
    {
      previousPositions := previousPositions + [p];
      if |previousPositions| > 4 {
        previousPositions := previousPositions[1..];
      }
    }

    method SetInactive()
      modifies this`active, this`notifications
      ensures !active && notifications == old(notifications) + [Inactive]
    {
      active := false;
      notifications := notifications + [Inactive];
    }

    /**
     * Keeps facing an empty cell: unchanged with nothing to stand on, otherwise
     * the repair of `RepairedOrientation` around the standing cell.
     */
    method UpdateOrientation()
      requires Valid()
      modifies this`orientation
      ensures Valid()
      ensures closestSurfacePixel == null ==> orientation == old(orientation)
      ensures closestSurfacePixel != null ==>
        orientation == RepairedOrientation(old(orientation), closestSurfacePixel.position, body.pixels.Keys)
    {
      if closestSurfacePixel == null {
        return;
      }
      var at := closestSurfacePixel.position;
      if body.GetPixel(Add(at, orientation)).None? {
        return;
      }
      var i := 0;
      while i < |ORIENTATIONS|
        invariant 0 <= i <= |ORIENTATIONS|
        invariant orientation == old(orientation)
        invariant FirstOpen(at, body.pixels.Keys, ORIENTATIONS) == FirstOpen(at, body.pixels.Keys, ORIENTATIONS[i..])
      {
        if body.GetPixel(Add(at, ORIENTATIONS[i])).None? {
          orientation := ORIENTATIONS[i];
          return;
        }
        assert ORIENTATIONS[i..][1..] == ORIENTATIONS[i + 1..];
        i := i + 1;
      }
    }

    /** A surface cell lives at `p`. */
    predicate SurfaceCellAt(p: Pos)
      reads body, body.Cells()
    {
      p in body.pixels && body.pixels[p].isSurface
    }

    /**
     * `r` is the cell an agent at `here` facing `facing` would stand on: the
     * surface cell at its feet, else the one just behind its orientation, else
     * the body's nearest surface cell (none when the body has no surface left).
     */
    predicate StandingChoiceFrom(r: Pixel?, here: Pos, facing: Pos)
      reads body, body.Cells()
    {
      var below := Sub(here, facing);
      (SurfaceCellAt(here) ==> r == body.pixels[here]) &&
      (!SurfaceCellAt(here) && SurfaceCellAt(below) ==> r == body.pixels[below]) &&
      (!SurfaceCellAt(here) && !SurfaceCellAt(below) ==>
        (r == null <==> |body.surfacePixels| == 0) &&
        (r != null ==>
           r in body.surfacePixels &&
           forall q :: q in body.surfacePixels ==> DistSq(r.position, here) <= DistSq(q.position, here)))
    }

    predicate StandingChoice(r: Pixel?)
      reads this, body, body.Cells()
    {
      StandingChoiceFrom(r, positionInPixelBodySpace, orientation)
    }

    /** There is nothing left to stand on. */
    predicate NothingToStandOn()
      reads this`positionInPixelBodySpace, this`orientation, body, body.Cells()
    {
      !SurfaceCellAt(positionInPixelBodySpace) &&
      !SurfaceCellAt(Sub(positionInPixelBodySpace, orientation)) &&
      |body.surfacePixels| == 0
    }

    method FindPixelToStandOn() returns (r: Pixel?)
      requires Valid()
      ensures StandingChoice(r) && old(StandingChoice(r))
      ensures r == null <==> NothingToStandOn()
      ensures r == null <==> old(NothingToStandOn())
      ensures r != null ==> body.HasPixel(r) && old(allocated(r))
    {
      var underFoot := body.GetPixel(positionInPixelBodySpace);
      if underFoot.Some? && underFoot.value.isSurface {
        return underFoot.value;
      }
      underFoot := body.GetPixel(Sub(positionInPixelBodySpace, orientation));
      if underFoot.Some? && underFoot.value.isSurface {
        return underFoot.value;
      }
      r := body.GetClosestSurfacePixel(positionInPixelBodySpace);
    }

    /**
     * The effect of `die`: the agent is dead; an explosive agent killed by an
     * egg or a serpent is defused; an explosive one removes every cell in its
     * blast and reports them before its death, any other only reports its death.
     */
    twostate predicate Died()
      reads this, body, upgrades
    {
      var n := |old(notifications)|;
      var radius := upgrades.explosionRadius;
      !alive &&
      explosive == (old(explosive) && !deathByEgg && !deathBySerpent) &&
      (!explosive ==> body.pixels == old(body.pixels) && notifications == old(notifications) + [Death]) &&
      (explosive ==>
         |notifications| == n + 2 && notifications[..n] == old(notifications) &&
         notifications[n].DigsComplete? && notifications[n + 1] == Death &&
         Blasted(notifications[n].cells, old(body.pixels), positionInPixelBodySpace, radius, upgrades.eggHandling) &&
         body.pixels == Survivors(old(body.pixels), positionInPixelBodySpace, radius, upgrades.eggHandling))
    }

    /** The cells an explosion at `here` removes, as `die` filters them from the cells around. */
    method BlastList(here: Pos, radius: int, egg: bool) returns (toRemove: seq<Pixel>)
      requires Valid()
      ensures Blasted(toRemove, body.pixels, here, radius, egg)
    {
      var nearby := body.GetPixelsAround(here, radius);
      toRemove := [];
      var i := 0;
      while i < |nearby|
        invariant 0 <= i <= |nearby|
        invariant forall q :: q in toRemove <==> q in nearby[..i] && InBlast(q, here, radius, egg)
        invariant forall a, b :: 0 <= a < b < |toRemove| ==> toRemove[a] != toRemove[b]
      {
        var q := nearby[i];
        assert nearby[..i + 1] == nearby[..i] + [q];
        if !(q.pixelType == PixelType.Egg && !egg) && q.pixelType != PixelType.Magic {
          assert q !in nearby[..i];
          toRemove := toRemove + [q];
        }
        i := i + 1;
      }
      assert nearby[..i] == nearby;
      forall j | 0 <= j < |toRemove| ensures toRemove[j] in body.pixels.Values {
        assert toRemove[j] in toRemove;
      }
    }

    method Die()
      requires Valid()
      modifies this`alive, this`explosive, this`notifications, body
      ensures Valid()
      ensures Died() && Shrunk(old(body.pixels), body.pixels)
      ensures GrewByEvents(old(notifications), notifications)
    {
      alive := false;
      if deathByEgg || deathBySerpent {
        explosive := false;
      }
      if explosive {
        Explode();
      }
      notifications := notifications + [Death];
    }

    /** Removes every cell the agent's blast catches, and reports them. */
    method Explode()
      requires Valid()
      modifies this`notifications, body
      ensures Valid()
      ensures var n := |old(notifications)|;
        |notifications| == n + 1 && notifications[..n] == old(notifications) && notifications[n].DigsComplete? &&
        Blasted(notifications[n].cells, old(body.pixels), positionInPixelBodySpace, upgrades.explosionRadius,
                upgrades.eggHandling)
      ensures body.pixels == Survivors(old(body.pixels), positionInPixelBodySpace, upgrades.explosionRadius,
                                       upgrades.eggHandling)
    {
      var here := positionInPixelBodySpace;
      var toRemove := BlastList(here, upgrades.explosionRadius, upgrades.eggHandling);
      ghost var before := body.pixels;
      body.RemovePixels(toRemove);
      SurvivorsAreUnremoved(before, toRemove, here, upgrades.explosionRadius, upgrades.eggHandling);
      notifications := notifications + [DigsComplete(toRemove)];
    }

    /**
     * The effect of `goToNearestSurfacePixel` when there is something to stand
     * on: the agent stands on the cell `StandingChoice` picked before the call,
     * on top of it, facing the sector guess for that cell repaired toward an
     * empty side, with its movement history cleared.
     */
    twostate predicate Placed()
      reads this, body
    {
      var c := closestSurfacePixel;
      c != null && old(allocated(c)) && old(StandingChoice(c)) && body.HasPixel(c) &&
      orientation == RepairedOrientation(AngleToOrientation(SliceIndex(Sub(c.position, body.center))),
                                         c.position, body.pixels.Keys) &&
      positionInPixelBodySpace == Add(c.position, orientation) &&
      framesSinceLastMove == 0 && previousPositions == []
    }

    method GoToNearestSurfacePixel()
      requires Valid()
      modifies this`closestSurfacePixel, this`orientation, this`positionInPixelBodySpace,
        this`framesSinceLastMove, this`previousPositions, this`alive, this`explosive, this`notifications, body
      ensures Valid()
      ensures GrewByEvents(old(notifications), notifications) && Shrunk(old(body.pixels), body.pixels)
      ensures alive ==> old(alive)
      ensures old(NothingToStandOn()) ==> !alive
      ensures !old(NothingToStandOn()) ==>
        alive == old(alive) && unchanged(body) && notifications == old(notifications) &&
        closestSurfacePixel != null && body.HasPixel(closestSurfacePixel) &&
        positionInPixelBodySpace == Add(closestSurfacePixel.position, orientation) &&
        framesSinceLastMove == 0 && previousPositions == []
      ensures old(NothingToStandOn()) ==>
        Died() && closestSurfacePixel == old(closestSurfacePixel) && orientation == old(orientation) &&
        positionInPixelBodySpace == old(positionInPixelBodySpace) &&
        framesSinceLastMove == old(framesSinceLastMove) && previousPositions == old(previousPositions)
      ensures !old(NothingToStandOn()) ==>
        Placed() && alive == old(alive) && explosive == old(explosive) && notifications == old(notifications) &&
        unchanged(body)
    {
      var found := FindPixelToStandOn();
      if found == null {
        Die();
        return;
      }
      StandOn(found);
    }

    /**
     * Stands on top of the live cell `found`, facing the sector guess for it
     * repaired toward an empty side, with the movement history cleared.
     */
    method StandOn(found: Pixel)
      requires Valid() && body.HasPixel(found)
      modifies this`closestSurfacePixel, this`orientation, this`positionInPixelBodySpace,
        this`framesSinceLastMove, this`previousPositions
      ensures Valid() && closestSurfacePixel == found
      ensures orientation == RepairedOrientation(AngleToOrientation(SliceIndex(Sub(found.position, body.center))),
                                                 found.position, body.pixels.Keys)
      ensures positionInPixelBodySpace == Add(found.position, orientation)
      ensures framesSinceLastMove == 0 && previousPositions == []
    {
      closestSurfacePixel := found;
      orientation := AngleToOrientation(SliceIndex(Sub(found.position, body.center)));
      UpdateOrientation();
      positionInPixelBodySpace := Add(found.position, orientation);
      framesSinceLastMove := 0;
      previousPositions := [];
    }

    /** Starts digging the cell it would stand on, unless already digging or there is none. */
    method StartDigging()
      requires Valid()
      modifies this`digging, this`diggingFrames, this`pixelBeingDug
      ensures Valid()
      ensures old(digging) ==> digging && diggingFrames == old(diggingFrames) && pixelBeingDug == old(pixelBeingDug)
      ensures !old(digging) ==>
        diggingFrames == 0 && StandingChoice(pixelBeingDug) && (digging <==> pixelBeingDug != null) &&
        (pixelBeingDug != null ==> body.HasPixel(pixelBeingDug))
    {
      if digging {
        return;
      }
      digging := true;
      diggingFrames := 0;
      pixelBeingDug := FindPixelToStandOn();
      if pixelBeingDug == null {
        digging := false;
        return;
      }
    }

    /** Takes the dug cell out of the body and reports it. */
    method RemoveDugPixel()
      requires Valid()
      modifies this`notifications, body
      ensures Valid()
      ensures Shrunk(old(body.pixels), body.pixels)
      ensures pixelBeingDug == null ==> unchanged(body) && notifications == old(notifications)
      ensures pixelBeingDug != null ==>
        !body.HasPixel(pixelBeingDug) && notifications == old(notifications) + [DigsComplete([pixelBeingDug])]
    {
      if pixelBeingDug != null {
        body.RemovePixel(pixelBeingDug);
        notifications := notifications + [DigsComplete([pixelBeingDug])];
      }
    }

    /** Spends one dig, dying when none are left. */
    method SpendDig()
      requires Valid()
      modifies this`digsRemaining, this`alive, this`explosive, this`notifications, body
      ensures Valid()
      ensures digsRemaining == old(digsRemaining) - 1
      ensures alive ==> old(alive)
      ensures GrewByEvents(old(notifications), notifications) && Shrunk(old(body.pixels), body.pixels)
      ensures digsRemaining <= 0 ==> !alive
      ensures digsRemaining > 0 ==> unchanged(body) && alive == old(alive) && notifications == old(notifications)
    {
      digsRemaining := digsRemaining - 1;
      if digsRemaining <= 0 {
        Die();
      }
    }

    /**
     * Ends a dig: the dug cell leaves the body and is reported, the agent finds
     * a new place to stand (or dies trying), spends one dig, and dies when none
     * are left.
     */
    method FinishDigging()
      requires Valid()
      modifies this`digging, this`digsRemaining, this`closestSurfacePixel, this`orientation,
        this`positionInPixelBodySpace, this`framesSinceLastMove, this`previousPositions,
        this`alive, this`explosive, this`notifications, body
      ensures Valid()
      ensures framesSinceLastMove == old(framesSinceLastMove) || framesSinceLastMove == 0
      ensures !old(digging) ==> unchanged(this, body)
      ensures GrewByEvents(old(notifications), notifications) && Shrunk(old(body.pixels), body.pixels)
      ensures pixelBeingDug == old(pixelBeingDug) && active == old(active)
      ensures alive ==> old(alive)
      ensures old(digging) ==> !digging && digsRemaining == old(digsRemaining) - 1
      ensures old(digging) && old(pixelBeingDug) != null ==>
        !body.HasPixel(old(pixelBeingDug)) && |notifications| > |old(notifications)| &&
        notifications[|old(notifications)|] == DigsComplete([old(pixelBeingDug)])
      ensures old(digging) && digsRemaining <= 0 ==> !alive
      ensures old(digging) && alive ==>
        closestSurfacePixel != null && body.HasPixel(closestSurfacePixel) &&
        positionInPixelBodySpace == Add(closestSurfacePixel.position, orientation) &&
        framesSinceLastMove == 0 && previousPositions == []
    {
      if !digging {
        return;
      }
      digging := false;
      ghost var log0, cells0 := notifications, body.pixels;
      RemoveDugPixel();
      ghost var log1, cells1 := notifications, body.pixels;
      SettleAndSpend();
      GrewByEventsTransitive(log0, log1, notifications);
      ShrunkTransitive(cells0, cells1, body.pixels);
    }

    /**
     * The rest of a finished dig: the agent re-places itself (or dies trying)
     * and spends one dig, dying when none are left.
     */
    method SettleAndSpend()
      requires Valid()
      modifies this`digsRemaining, this`closestSurfacePixel, this`orientation,
        this`positionInPixelBodySpace, this`framesSinceLastMove, this`previousPositions,
        this`alive, this`explosive, this`notifications, body
      ensures Valid()
      ensures framesSinceLastMove == old(framesSinceLastMove) || framesSinceLastMove == 0
      ensures GrewByEvents(old(notifications), notifications) && Shrunk(old(body.pixels), body.pixels)
      ensures alive ==> old(alive)
      ensures digsRemaining == old(digsRemaining) - 1
      ensures digsRemaining <= 0 ==> !alive
      ensures alive ==>
        closestSurfacePixel != null && body.HasPixel(closestSurfacePixel) &&
        positionInPixelBodySpace == Add(closestSurfacePixel.position, orientation) &&
        framesSinceLastMove == 0 && previousPositions == []
    {
      ghost var log0, cells0 := notifications, body.pixels;
      GoToNearestSurfacePixel();
      ghost var log1, cells1 := notifications, body.pixels;
      SpendDig();
      GrewByEventsTransitive(log0, log1, notifications);
      ShrunkTransitive(cells0, cells1, body.pixels);
    }

    /**
     * Replaces a lost dig target: the agent re-places itself and digs the cell
     * it now stands on; if it died trying, the target is whatever it stood on
     * before.
     */
    method Retarget()
      requires Valid()
      modifies this`pixelBeingDug, this`closestSurfacePixel, this`orientation, this`positionInPixelBodySpace,
        this`framesSinceLastMove, this`previousPositions, this`alive, this`explosive, this`notifications, body
      ensures Valid()
      ensures framesSinceLastMove == old(framesSinceLastMove) || framesSinceLastMove == 0
      ensures GrewByEvents(old(notifications), notifications) && Shrunk(old(body.pixels), body.pixels)
      ensures pixelBeingDug == closestSurfacePixel
      ensures alive ==> old(alive)
      ensures old(NothingToStandOn()) ==> !alive && closestSurfacePixel == old(closestSurfacePixel)
      ensures !old(NothingToStandOn()) ==>
        alive == old(alive) && unchanged(body) && notifications == old(notifications) &&
        closestSurfacePixel != null && body.HasPixel(closestSurfacePixel)
      ensures pixelBeingDug != null ==> pixelBeingDug == old(closestSurfacePixel) || pixelBeingDug in old(body.Cells())
      ensures var p := pixelBeingDug;
        !old(NothingToStandOn()) ==> p != null && old(allocated(p)) && old(StandingChoice(p))
    {
      GoToNearestSurfacePixel();
      ghost var c := closestSurfacePixel;
      assert !old(NothingToStandOn()) ==> old(allocated(c)) && old(StandingChoice(c));
      pixelBeingDug := closestSurfacePixel;
    }

    /**
     * One frame of work on a live target: a hit of `digSpeed` per second every
     * second, and the dig finishes once the target's health is gone.
     */
    method Work()
      requires Valid() && digging && pixelBeingDug != null
      modifies this`digging, this`diggingFrames, this`digsRemaining,
        this`closestSurfacePixel, this`orientation, this`positionInPixelBodySpace,
        this`framesSinceLastMove, this`previousPositions, this`alive, this`explosive,
        this`notifications, body, pixelBeingDug
      ensures Valid()
      ensures framesSinceLastMove == old(framesSinceLastMove) || framesSinceLastMove == 0
      ensures alive ==> old(alive)
      ensures GrewByEvents(old(notifications), notifications) && Shrunk(old(body.pixels), body.pixels)
      ensures var p := pixelBeingDug;
        p == old(pixelBeingDug) && diggingFrames == old(diggingFrames) + 1 &&
        p.health == (if old(diggingFrames) % ASSUMED_FPS == 0
                     then Damaged(old(p.health), upgrades.digSpeed * (ASSUMED_FPS as real))
                     else old(p.health)) &&
        (digging <==> p.GetHealth(dirtInitialHealth).value > 0.0) &&
        (!digging ==> !body.HasPixel(p) && digsRemaining == old(digsRemaining) - 1 &&
                      |notifications| > |old(notifications)| &&
                      notifications[|old(notifications)|] == DigsComplete([p])) &&
        (digging ==> unchanged(body) && notifications == old(notifications))
    {
      var p := pixelBeingDug;
      if diggingFrames % ASSUMED_FPS == 0 {
        var _ := p.Damage(upgrades.digSpeed * (ASSUMED_FPS as real));
      }
      diggingFrames := diggingFrames + 1;
      var health := p.GetHealth(dirtInitialHealth);
      if health.value <= 0.0 {
        FinishDigging();
      }
    }

    /**
     * One frame of digging: a lost target is replaced first (the dig is
     * abandoned when there is nothing to replace it with), then the target is
     * worked on.
     */
    method Dig()
      requires Valid()
      modifies this`digging, this`diggingFrames, this`pixelBeingDug, this`digsRemaining,
        this`closestSurfacePixel, this`orientation, this`positionInPixelBodySpace,
        this`framesSinceLastMove, this`previousPositions, this`alive, this`explosive,
        this`notifications, body, body.Cells(), pixelBeingDug, closestSurfacePixel
      ensures Valid()
      ensures framesSinceLastMove == old(framesSinceLastMove) || framesSinceLastMove == 0
      ensures !old(digging) ==> unchanged(this, body)
      ensures GrewByEvents(old(notifications), notifications) && Shrunk(old(body.pixels), body.pixels)
      ensures alive ==> old(alive)
      ensures active == old(active)
      ensures digging ==> pixelBeingDug != null
      ensures var p := old(pixelBeingDug);
        old(digging) && p != null && old(body.HasPixel(p)) ==>
          pixelBeingDug == p && diggingFrames == old(diggingFrames) + 1 &&
          p.health == (if old(diggingFrames) % ASSUMED_FPS == 0
                       then Damaged(old(p.health), upgrades.digSpeed * (ASSUMED_FPS as real))
                       else old(p.health)) &&
          (digging <==> p.GetHealth(dirtInitialHealth).value > 0.0) &&
          (!digging ==> !body.HasPixel(p) && digsRemaining == old(digsRemaining) - 1 &&
                        |notifications| > |old(notifications)| &&
                        notifications[|old(notifications)|] == DigsComplete([p])) &&
          (digging ==> unchanged(body) && notifications == old(notifications))
      ensures (old(digging) && (old(pixelBeingDug) == null || !old(body.HasPixel(pixelBeingDug))) &&
               old(NothingToStandOn())) ==> !alive
      ensures var p := pixelBeingDug;
        old(digging) && (old(pixelBeingDug) == null || !old(body.HasPixel(pixelBeingDug))) &&
        !old(NothingToStandOn()) ==>
          p != null && old(allocated(p)) && old(StandingChoice(p)) && diggingFrames == old(diggingFrames) + 1 &&
          p.health == (if old(diggingFrames) % ASSUMED_FPS == 0
                       then Damaged(old(p.health), upgrades.digSpeed * (ASSUMED_FPS as real))
                       else old(p.health)) &&
          (digging <==> p.GetHealth(dirtInitialHealth).value > 0.0) &&
          (!digging ==> !body.HasPixel(p) && digsRemaining == old(digsRemaining) - 1 &&
                        |notifications| > |old(notifications)| &&
                        notifications[|old(notifications)|] == DigsComplete([p])) &&
          (digging ==> unchanged(body) && notifications == old(notifications))
      ensures forall q :: q in old(body.Cells()) && q != pixelBeingDug ==> unchanged(q)
    {
      if !digging {
        return;
      }
      if pixelBeingDug == null || !body.HasPixel(pixelBeingDug) {
        Retarget();
        if pixelBeingDug == null {
          digging := false;
          return;
        }
      }
      Work();
    }

    /** The candidate steps from `here`, given the movement history. */
    function StepsAt(here: Pos, history: seq<Pos>): seq<Candidate>
      reads body, body.Cells()
    {
      var surrounding := body.GetSurroundingPixels(here);
      assert forall i :: 0 <= i < |surrounding| ==> surrounding[i] in body.Cells() by {
        forall i | 0 <= i < |surrounding| ensures surrounding[i] in body.Cells() {
          assert body.LiveAt(here, AROUND, surrounding[i]);
        }
      }
      CandidatesFrom(SurfacePositions(surrounding), body.pixels.Keys, here, history)
    }

    /**
     * The effect of a step to candidate `c`: the agent stands at its position,
     * remembers it, stands on the cell `StandingChoiceFrom` picks there, and
     * faces `c`'s side repaired toward an empty one.
     */
    predicate SteppedTo(c: Candidate, history: seq<Pos>)
      reads this`positionInPixelBodySpace, this`previousPositions, this`closestSurfacePixel,
        this`orientation, this`framesSinceLastMove, body, body.Cells()
    {
      positionInPixelBodySpace == c.position &&
      previousPositions == Pushed(history, c.position) &&
      StandingChoiceFrom(closestSurfacePixel, c.position, c.orientation) &&
      orientation == (if closestSurfacePixel == null then c.orientation
                      else RepairedOrientation(c.orientation, closestSurfacePixel.position, body.pixels.Keys)) &&
      framesSinceLastMove == 0
    }

    method StepTo(c: Candidate)
      requires Valid() && IsCardinal(c.orientation)
      modifies this`orientation, this`positionInPixelBodySpace, this`previousPositions,
        this`closestSurfacePixel, this`framesSinceLastMove
      ensures Valid()
      ensures SteppedTo(c, old(previousPositions))
    {
      orientation := c.orientation;
      positionInPixelBodySpace := c.position;
      AddPreviousPosition(c.position);
      closestSurfacePixel := FindPixelToStandOn();
      UpdateOrientation();
      framesSinceLastMove := 0;
    }

    /** Collects the candidate steps from where the agent stands, given the movement history. */
    method CandidateSteps(history: seq<Pos>) returns (candidates: seq<Candidate>)
      requires Valid()
      ensures candidates == old(StepsAt(positionInPixelBodySpace, history))
      ensures NothingToStandOn() == old(NothingToStandOn())
      ensures forall c :: c in candidates ==> IsCardinal(c.orientation)
    {
      candidates := CandidatesAround(body, positionInPixelBodySpace, history);
    }

    /** The agent has stepped to the candidate among `steps` that the selection picks. */
    predicate SteppedToSelected(steps: seq<Candidate>, here: Pos, facing: Pos, history: seq<Pos>,
                                rot: Rotations, direction: int)
      reads this`positionInPixelBodySpace, this`previousPositions, this`closestSurfacePixel,
        this`orientation, this`framesSinceLastMove, body, body.Cells()
    {
      exists s :: 0 <= s < |steps| && IsSelection(steps, s, here, facing, rot, body.width, body.height, direction) &&
                  SteppedTo(steps[s], history)
    }

    /**
     * The outcome of `move`'s step, given what held before it: the candidate
     * `steps`, the position `here` and orientation `facing`, the movement
     * `history`, whether there was `nothing` to stand on, whether the agent was
     * alive, and the notice log and body contents. Notices other than
     * `Inactive` may be added and cells removed, and a surviving agent has just
     * moved. With candidates, the agent
     * takes the selected one and nothing else happens; without, it re-places
     * itself on a live cell with its history cleared, or dies when there is
     * nothing to stand on.
     */
    predicate Advanced(steps: seq<Candidate>, here: Pos, facing: Pos, history: seq<Pos>, nothing: bool,
                       wasAlive: bool, log: seq<Notice>, pixels: map<Pos, Pixel>, surface: seq<Pixel>,
                       rot: Rotations, direction: int)
      reads this`positionInPixelBodySpace, this`previousPositions, this`closestSurfacePixel,
        this`orientation, this`framesSinceLastMove, this`alive, this`notifications, body, body.Cells()
    {
      (alive ==> wasAlive && framesSinceLastMove == 0) &&
      GrewByEvents(log, notifications) && Shrunk(pixels, body.pixels) &&
      (|steps| > 0 ==>
         alive == wasAlive && notifications == log && body.pixels == pixels && body.surfacePixels == surface &&
         SteppedToSelected(steps, here, facing, history, rot, direction)) &&
      (|steps| == 0 && nothing ==> !alive) &&
      (|steps| == 0 && !nothing ==>
         alive == wasAlive && body.pixels == pixels && body.surfacePixels == surface &&
         closestSurfacePixel != null && body.HasPixel(closestSurfacePixel) &&
         positionInPixelBodySpace == Add(closestSurfacePixel.position, orientation) && previousPositions == [])
    }

    /** The step itself, from the movement history `history`. */
    method Advance(history: seq<Pos>, direction: int, rot: Rotations, ghost steps: seq<Candidate>, ghost nothing: bool)
      requires Valid()
      requires steps == StepsAt(positionInPixelBodySpace, history) && nothing == NothingToStandOn()
      modifies this`previousPositions, this`previousDirection, this`closestSurfacePixel, this`orientation,
        this`positionInPixelBodySpace, this`framesSinceLastMove, this`alive, this`explosive,
        this`notifications, body
      ensures Valid() && previousDirection == direction
      ensures framesSinceLastMove == old(framesSinceLastMove) || framesSinceLastMove == 0
      ensures Advanced(steps, old(positionInPixelBodySpace), old(orientation), history, nothing, old(alive),
                       old(notifications), old(body.pixels), old(body.surfacePixels), rot, direction)
    {
      var candidates := CandidateSteps(history);
      if |candidates| == 0 {
        Resettle(history, direction, rot, nothing);
        return;
      }
      TakeStep(candidates, history, direction, rot, nothing);
    }

    /** With no step to take, the agent re-places itself (or dies with nothing to stand on). */
    method Resettle(history: seq<Pos>, direction: int, rot: Rotations, ghost nothing: bool)
      requires Valid() && nothing == NothingToStandOn()
      modifies this`previousPositions, this`previousDirection, this`closestSurfacePixel, this`orientation,
        this`positionInPixelBodySpace, this`framesSinceLastMove, this`alive, this`explosive,
        this`notifications, body
      ensures Valid() && previousDirection == direction
      ensures framesSinceLastMove == old(framesSinceLastMove) || framesSinceLastMove == 0
      ensures Advanced([], old(positionInPixelBodySpace), old(orientation), history, nothing, old(alive),
                       old(notifications), old(body.pixels), old(body.surfacePixels), rot, direction)
    {
      previousDirection := direction;
      previousPositions := history;
      GoToNearestSurfacePixel();
    }

    /**
     * Steps to the candidate the selection picks, from the movement history
     * `history`: `Advanced` with these candidates, whatever `nothing` says.
     */
    method TakeStep(candidates: seq<Candidate>, history: seq<Pos>, direction: int, rot: Rotations, ghost nothing: bool)
      requires Valid() && |candidates| > 0
      requires forall c :: c in candidates ==> IsCardinal(c.orientation)
      modifies this`orientation, this`positionInPixelBodySpace, this`previousPositions, this`previousDirection,
        this`closestSurfacePixel, this`framesSinceLastMove
      ensures Valid() && previousDirection == direction
      ensures framesSinceLastMove == old(framesSinceLastMove) || framesSinceLastMove == 0
      ensures Advanced(candidates, old(positionInPixelBodySpace), old(orientation), history, nothing, alive,
                       notifications, body.pixels, body.surfacePixels, rot, direction)
    {
      var here := positionInPixelBodySpace;
      var s := SelectCandidate(candidates, here, orientation, rot, body.width, body.height, direction);
      assert candidates[s] in candidates;
      previousDirection := direction;
      previousPositions := history;
      StepTo(candidates[s]);
    }

    /**
     * One step along the perimeter in `direction` (negative is left): the
     * history is forgotten when the direction changes, then the step is taken
     * as `Advanced` describes.
     */
    method Move(direction: int, rot: Rotations)
      requires Valid()
      modifies this`previousPositions, this`previousDirection, this`closestSurfacePixel, this`orientation,
        this`positionInPixelBodySpace, this`framesSinceLastMove, this`alive, this`explosive,
        this`notifications, body
      ensures Valid()
      ensures framesSinceLastMove == old(framesSinceLastMove) || framesSinceLastMove == 0
      ensures previousDirection == direction
      ensures var history := if old(previousDirection) != direction then [] else old(previousPositions);
        Advanced(old(StepsAt(positionInPixelBodySpace, history)), old(positionInPixelBodySpace),
                 old(orientation), history, old(NothingToStandOn()), old(alive), old(notifications),
                 old(body.pixels), old(body.surfacePixels), rot, direction)
    {
      var history := if previousDirection != direction then [] else previousPositions;
      ghost var steps := StepsAt(positionInPixelBodySpace, history);
      ghost var nothing := NothingToStandOn();
      Advance(history, direction, rot, steps, nothing);
    }

    /** `wander` moves this frame: not digging, rested long enough, and the move roll came up. */
    predicate WillMove(moveRoll: real)
      reads this
    {
      !digging && framesSinceLastMove >= MIN_FRAMES_BETWEEN_MOVES && moveRoll * 100.0 <= MOVE_PROBABILITY_PCT
    }

    /**
     * Maybe takes a step: `moveRoll` decides whether to move and
     * `directionRoll` which way, with the previous direction kept nine times in
     * ten.
     */
    method Wander(moveRoll: real, directionRoll: real, rot: Rotations)
      requires Valid()
      modifies this`previousPositions, this`previousDirection, this`closestSurfacePixel, this`orientation,
        this`positionInPixelBodySpace, this`framesSinceLastMove, this`alive, this`explosive,
        this`notifications, body
      ensures Valid()
      ensures framesSinceLastMove == old(framesSinceLastMove) || framesSinceLastMove == 0
      ensures alive ==> old(alive)
      ensures GrewByEvents(old(notifications), notifications) && Shrunk(old(body.pixels), body.pixels)
      ensures !old(WillMove(moveRoll)) ==> unchanged(this, body)
      ensures old(WillMove(moveRoll)) ==>
        previousDirection == WalkDirection(old(previousDirection), directionRoll) &&
        (alive ==> framesSinceLastMove == 0)
      ensures var direction := WalkDirection(old(previousDirection), directionRoll);
        var history := if old(previousDirection) != direction then [] else old(previousPositions);
        old(WillMove(moveRoll)) ==>
          Advanced(old(StepsAt(positionInPixelBodySpace, history)), old(positionInPixelBodySpace),
                   old(orientation), history, old(NothingToStandOn()), old(alive), old(notifications),
                   old(body.pixels), old(body.surfacePixels), rot, direction)
    {
      if digging {
        return;
      }
      if framesSinceLastMove < MIN_FRAMES_BETWEEN_MOVES {
        return;
      }
      var willMove := moveRoll * 100.0 <= MOVE_PROBABILITY_PCT;
      if !willMove {
        return;
      }
      Move(WalkDirection(previousDirection, directionRoll), rot);
    }

    /** `die` as the frame update relies on it. */
    method Perish()
      requires Valid()
      modifies this`alive, this`explosive, this`notifications, body
      ensures Valid() && !alive
      ensures GrewByEvents(old(notifications), notifications) && Shrunk(old(body.pixels), body.pixels)
    {
      Die();
    }

    /** Where a buried agent's tombstone goes: the cell being dug, else the cell it faces. */
    function TombstoneSpot(): Pos
      reads this
    {
      if pixelBeingDug != null then pixelBeingDug.position else Add(positionInPixelBodySpace, orientation)
    }

    /**
     * Buries a dead agent: a tombstone fills its spot unless a cell is already
     * there, the surface is recomputed after a tombstone is added, and the
     * agent becomes inactive.
     */
    method Bury(tombstoneColor: Color)
      requires Valid()
      modifies this`active, this`notifications, body, body.Cells()
      ensures Valid()
      ensures !active && notifications == old(notifications) + [Inactive]
      ensures TombstoneSpot() in old(body.pixels) ==>
        body.pixels == old(body.pixels) && body.surfacePixels == old(body.surfacePixels)
      ensures var at := TombstoneSpot();
        at !in old(body.pixels) ==>
          at in body.pixels && fresh(body.pixels[at]) && body.pixels[at].IsTombstoneCell() &&
          body.pixels == old(body.pixels)[at := body.pixels[at]] &&
          (forall k :: k in body.pixels ==> body.pixels[k].isSurface == body.HasOpenSide(k))
      ensures forall q :: q in old(body.Cells()) ==> unchanged(q`health, q`colorOverride, q`darkness, q`bloodiedColor)
    {
      var added := body.AddPixel(TombstoneSpot(), PixelType.Tombstone, tombstoneColor);
      if added {
        body.UpdateSurface();
      }
      SetInactive();
    }

    /**
     * One frame of rising (or sinking) after death: progress grows by one
     * percent and the agent becomes inactive at a hundred. A live agent does
     * not ascend.
     */
    method Ascend()
      modifies this`ascentionProgressPct, this`active, this`notifications
      ensures alive ==> unchanged(this)
      ensures !alive ==> ascentionProgressPct == old(ascentionProgressPct) + 1
      ensures !alive && ascentionProgressPct >= 100 ==> !active && notifications == old(notifications) + [Inactive]
      ensures !alive && ascentionProgressPct < 100 ==> active == old(active) && notifications == old(notifications)
    {
      if alive {
        return;
      }
      ascentionProgressPct := ascentionProgressPct + 1;
      if ascentionProgressPct >= 100 {
        SetInactive();
      }
    }

    /**
     * The frame of an active dead agent: one killed by an egg lies still for
     * `DEATH_BY_EGG_FRAMES_BEFORE_INACTIVE` frames, with the afterlife upgrade
     * it ascends, and otherwise it is buried.
     */
    method AfterDeath(tombstoneColor: Color)
      requires Valid() && active && !alive
      modifies this`framesSinceDeath, this`ascentionProgressPct, this`active, this`notifications, body, body.Cells()
      ensures Valid()
      ensures framesSinceDeath == old(framesSinceDeath) + 1
      ensures notifications == old(notifications) + (if active then [] else [Inactive])
      ensures deathByEgg ==>
        body.pixels == old(body.pixels) && ascentionProgressPct == old(ascentionProgressPct) &&
        (active <==> framesSinceDeath < DEATH_BY_EGG_FRAMES_BEFORE_INACTIVE)
      ensures !deathByEgg && upgrades.afterlife ==>
        body.pixels == old(body.pixels) && ascentionProgressPct == old(ascentionProgressPct) + 1 &&
        (active <==> ascentionProgressPct < 100)
      ensures !deathByEgg && !upgrades.afterlife ==>
        !active && ascentionProgressPct == old(ascentionProgressPct)
      ensures !deathByEgg && !upgrades.afterlife && TombstoneSpot() in old(body.pixels) ==>
        body.pixels == old(body.pixels) && body.surfacePixels == old(body.surfacePixels)
      ensures var at := TombstoneSpot();
        !deathByEgg && !upgrades.afterlife && at !in old(body.pixels) ==>
          at in body.pixels && fresh(body.pixels[at]) && body.pixels[at].IsTombstoneCell() &&
          body.pixels == old(body.pixels)[at := body.pixels[at]] &&
          (forall k :: k in body.pixels ==> body.pixels[k].isSurface == body.HasOpenSide(k))
      ensures forall q :: q in old(body.Cells()) ==> unchanged(q`health, q`colorOverride, q`darkness, q`bloodiedColor)
    {
      framesSinceDeath := framesSinceDeath + 1;
      if deathByEgg {
        if framesSinceDeath >= DEATH_BY_EGG_FRAMES_BEFORE_INACTIVE {
          SetInactive();
        }
      } else if upgrades.afterlife {
        Ascend();
      } else {
        Bury(tombstoneColor);
      }
    }

    /**
     * Finds a new cell to stand on when the current one is gone or has no
     * health left; a digging agent digs the new one.
     */
    method Reacquire()
      requires Valid()
      modifies this`closestSurfacePixel, this`pixelBeingDug
      ensures Valid()
      ensures var c := old(closestSurfacePixel);
        c != null && c.health > 0.0 ==> unchanged(this)
      ensures var c := old(closestSurfacePixel);
        (c == null || c.health <= 0.0) ==>
          StandingChoice(closestSurfacePixel) &&
          (closestSurfacePixel == null <==> NothingToStandOn()) &&
          (closestSurfacePixel != null ==> body.HasPixel(closestSurfacePixel)) &&
          pixelBeingDug == if digging then closestSurfacePixel else old(pixelBeingDug)
    {
      if closestSurfacePixel == null || closestSurfacePixel.health <= 0.0 {
        closestSurfacePixel := FindPixelToStandOn();
        if digging {
          pixelBeingDug := closestSurfacePixel;
        }
      }
    }

    /**
     * `r` is the cell a live frame judges the agent by: the cell it stood on
     * while that is not null and its health is above 0, otherwise the cell
     * `StandingChoice` picked at the start of the frame (none exactly when
     * there was nothing to stand on).
     */
    twostate predicate StoodOn(new r: Pixel?)
      reads this
    {
      var c := old(closestSurfacePixel);
      old(allocated(r)) &&
      if c != null && old(c.health) > 0.0 then r == c
      else old(StandingChoice(r)) && (r == null <==> old(NothingToStandOn()))
    }

    /**
     * How the standing cell `c` marked the agent, given whether it was
     * `standing` (not null, with health above 0) and `attacking` (a serpent cell
     * marked by an attack) before the frame: an unhandled egg records a death
     * by egg, an attacking serpent a death by serpent unless the agent is
     * shielded, a shield blocks the attack, and standing on anything else
     * clears the block.
     */
    predicate HazardsHandled(c: Pixel?, standing: bool, attacking: bool)
      reads this`deathByEgg, this`deathBySerpent, this`shielded, this`blockingSerpentAttack, upgrades
    {
      var eggDeath := c != null && c.pixelType == PixelType.Egg && !upgrades.eggHandling;
      var attack := c != null && c.pixelType == PixelType.Serpent && attacking;
      standing ==>
        (eggDeath ==> deathByEgg) &&
        (attack && !shielded ==> deathBySerpent) &&
        (attack && shielded ==> blockingSerpentAttack) &&
        (!eggDeath && !attack ==> !blockingSerpentAttack)
    }

    /** The standing cell kills the agent: an unhandled egg, or a serpent attack with no shield. */
    predicate Deadly(c: Pixel?, standing: bool, attacking: bool)
      reads this`shielded, upgrades
    {
      standing && c != null &&
      ((c.pixelType == PixelType.Egg && !upgrades.eggHandling) ||
       (c.pixelType == PixelType.Serpent && attacking && !shielded))
    }

    /**
     * Whether the agent must dig the cell it stands on: with the gold seeker
     * upgrade, unlocked gold and diamonds and any magic cell.
     */
    predicate ForcedToDig(c: Pixel)
      reads upgrades
    {
      upgrades.goldSeeker &&
      ((upgrades.unlockGold && c.pixelType == PixelType.Gold) ||
       (upgrades.unlockDiamonds && c.pixelType == PixelType.Diamond) ||
       c.pixelType == PixelType.Magic)
    }

    /**
     * The working part of a live frame, on a standing cell that did not kill
     * the agent: it settles on top of the cell, maybe starts digging, and then
     * digs or wanders.
     */
    method Act(digRoll: real, moveRoll: real, directionRoll: real, rot: Rotations)
      requires Valid() && closestSurfacePixel != null
      modifies this`positionInPixelBodySpace, this`orientation, this`previousPositions, this`previousDirection,
        this`closestSurfacePixel, this`digging, this`diggingFrames, this`pixelBeingDug, this`framesSinceLastMove,
        this`alive, this`digsRemaining, this`explosive, this`notifications,
        body, body.Cells(), pixelBeingDug, closestSurfacePixel
      ensures Valid()
      ensures framesSinceLastMove == old(framesSinceLastMove) || framesSinceLastMove == 0
      ensures alive ==> old(alive)
      ensures GrewByEvents(old(notifications), notifications) && Shrunk(old(body.pixels), body.pixels)
      ensures !old(digging) && !ForcedToDig(old(closestSurfacePixel)) && !(digRoll < DIG_PROBABILITY_PCT) ==>
        !digging
      ensures forall q :: q in old(body.Cells()) && q != pixelBeingDug ==> unchanged(q)
    {
      var c := closestSurfacePixel;
      UpdateOrientation();
      positionInPixelBodySpace := Add(c.position, orientation);
      if ForcedToDig(c) || digRoll < DIG_PROBABILITY_PCT {
        StartDigging();
      }
      DigOrWander(moveRoll, directionRoll, rot);
    }

    /** The last step of a live frame: a digging agent digs, any other wanders. */
    method DigOrWander(moveRoll: real, directionRoll: real, rot: Rotations)
      requires Valid()
      modifies this`positionInPixelBodySpace, this`orientation, this`previousPositions, this`previousDirection,
        this`closestSurfacePixel, this`digging, this`diggingFrames, this`pixelBeingDug, this`framesSinceLastMove,
        this`alive, this`digsRemaining, this`explosive, this`notifications,
        body, body.Cells(), pixelBeingDug, closestSurfacePixel
      ensures Valid()
      ensures framesSinceLastMove == old(framesSinceLastMove) || framesSinceLastMove == 0
      ensures alive ==> old(alive)
      ensures GrewByEvents(old(notifications), notifications) && Shrunk(old(body.pixels), body.pixels)
      ensures !old(digging) ==> !digging
      ensures forall q :: q in old(body.Cells()) && q != pixelBeingDug ==> unchanged(q)
      ensures old(digging) ==> previousDirection == old(previousDirection)
      ensures var p := old(pixelBeingDug);
        old(digging) && p != null && old(body.HasPixel(p)) ==>
          pixelBeingDug == p && diggingFrames == old(diggingFrames) + 1 &&
          p.health == (if old(diggingFrames) % ASSUMED_FPS == 0
                       then Damaged(old(p.health), upgrades.digSpeed * (ASSUMED_FPS as real))
                       else old(p.health)) &&
          (digging <==> p.GetHealth(dirtInitialHealth).value > 0.0)
      ensures !old(digging) ==> diggingFrames == old(diggingFrames) && pixelBeingDug == old(pixelBeingDug)
      ensures !old(WillMove(moveRoll)) && !old(digging) ==> unchanged(this, body)
      ensures var direction := WalkDirection(old(previousDirection), directionRoll);
        var history := if old(previousDirection) != direction then [] else old(previousPositions);
        old(WillMove(moveRoll)) ==>
          Advanced(old(StepsAt(positionInPixelBodySpace, history)), old(positionInPixelBodySpace),
                   old(orientation), history, old(NothingToStandOn()), old(alive), old(notifications),
                   old(body.pixels), old(body.surfacePixels), rot, direction)
    {
      if digging {
        Dig();
      } else {
        Wander(moveRoll, directionRoll, rot);
      }
    }

    /**
     * Lets the standing cell's hazards act on a live agent: an unhandled egg
     * or an unblocked serpent attack kills it, a shield blocks the attack.
     */
    method FaceHazards() returns (dead: bool)
      requires Valid() && alive && closestSurfacePixel != null
      modifies this`deathByEgg, this`deathBySerpent, this`blockingSerpentAttack, this`alive, this`explosive,
        this`notifications, body
      ensures Valid()
      ensures GrewByEvents(old(notifications), notifications) && Shrunk(old(body.pixels), body.pixels)
      ensures dead <==> !alive
      ensures HazardsHandled(closestSurfacePixel, true, closestSurfacePixel.HasColorOverride())
      ensures dead <==> Deadly(closestSurfacePixel, true, closestSurfacePixel.HasColorOverride())
      ensures !dead ==> unchanged(body) && notifications == old(notifications)
    {
      var c := closestSurfacePixel;
      if c.pixelType == PixelType.Egg && !upgrades.eggHandling {
        deathByEgg := true;
        Perish();
        return true;
      }
      if c.pixelType == PixelType.Serpent && c.HasColorOverride() {
        if !shielded && alive {
          deathBySerpent := true;
          Perish();
          return true;
        } else if shielded && !blockingSerpentAttack {
          blockingSerpentAttack := true;
        }
      } else {
        blockingSerpentAttack := false;
      }
      return false;
    }

    /**
     * The first half of a live frame: the agent counts the frame, re-finds its
     * standing cell if that is gone, dies when there is none, and otherwise
     * lets the cell's hazards decide whether it dies.
     */
    method Confront() returns (dead: bool, ghost stood: Pixel?)
      requires Valid() && alive
      modifies this`closestSurfacePixel, this`pixelBeingDug, this`framesSinceLastMove, this`alive, this`explosive,
        this`deathByEgg, this`deathBySerpent, this`blockingSerpentAttack, this`notifications, body
      ensures Valid()
      ensures GrewByEvents(old(notifications), notifications) && Shrunk(old(body.pixels), body.pixels)
      ensures dead <==> !alive
      ensures !dead ==> closestSurfacePixel != null
      ensures body.Cells() <= old(body.Cells())
      ensures !dead ==> closestSurfacePixel == old(closestSurfacePixel) || closestSurfacePixel in old(body.Cells())
      ensures pixelBeingDug == old(pixelBeingDug) || pixelBeingDug == closestSurfacePixel
      ensures framesSinceLastMove == old(framesSinceLastMove) + 1
      ensures StoodOn(stood) && closestSurfacePixel == stood
      ensures HazardsHandled(stood, stood != null, stood != null && stood.HasColorOverride())
      ensures dead <==> stood == null || Deadly(stood, true, stood.HasColorOverride())
      ensures !dead ==> unchanged(body) && notifications == old(notifications)
    {
      framesSinceLastMove := framesSinceLastMove + 1;
      Reacquire();
      stood := closestSurfacePixel;
      if closestSurfacePixel == null {
        Perish();
        ShrunkValues(old(body.pixels), body.pixels);
        dead := true;
        return;
      }
      dead := FaceHazards();
      ShrunkValues(old(body.pixels), body.pixels);
    }

    /**
     * A live frame: the agent re-finds its standing cell if that is gone, dies
     * when there is none, and otherwise lets the cell's hazards decide its fate
     * before it works.
     */
    method Live(digRoll: real, moveRoll: real, directionRoll: real, rot: Rotations) returns (ghost stood: Pixel?)
      requires Valid() && alive
      modifies this`positionInPixelBodySpace, this`orientation, this`previousPositions, this`previousDirection,
        this`closestSurfacePixel, this`digging, this`diggingFrames, this`pixelBeingDug, this`framesSinceLastMove,
        this`alive, this`digsRemaining, this`explosive, this`deathByEgg, this`deathBySerpent,
        this`blockingSerpentAttack, this`notifications, body, body.Cells(), pixelBeingDug, closestSurfacePixel
      ensures Valid()
      ensures GrewByEvents(old(notifications), notifications) && Shrunk(old(body.pixels), body.pixels)
      ensures StoodOn(stood)
      ensures HazardsHandled(stood, stood != null, old(stood != null && stood.HasColorOverride()))
      ensures old(stood == null || Deadly(stood, true, stood.HasColorOverride())) ==> !alive
      ensures framesSinceLastMove == old(framesSinceLastMove) + 1 || framesSinceLastMove == 0
      ensures forall q :: q in old(body.Cells()) && q != pixelBeingDug ==> unchanged(q)
    {
      var dead;
      dead, stood := Confront();
      if dead {
        return;
      }
      ghost var log := notifications;
      ghost var pixels := body.pixels;
      Act(digRoll, moveRoll, directionRoll, rot);
      GrewByEventsTransitive(old(notifications), log, notifications);
      ShrunkTransitive(old(body.pixels), pixels, body.pixels);
    }

    /**
     * One frame of the agent. An inactive agent does nothing; a dead one
     * lies still, ascends or is buried; a live one lives. The rolls are the
     * frame's random draws and `tombstoneColor` the colour of a tombstone.
     * Exactly one `Inactive` notice is added when the agent becomes inactive.
     */
    method Update(digRoll: real, moveRoll: real, directionRoll: real, rot: Rotations, tombstoneColor: Color)
      returns (ghost stood: Pixel?)
      requires Valid()
      modifies this, body, body.Cells(), pixelBeingDug, closestSurfacePixel
      ensures Valid()
      ensures !old(active) ==> unchanged(this, body)
      ensures !old(alive) ==> !alive
      ensures old(active) && !old(alive) ==>
        framesSinceDeath == old(framesSinceDeath) + 1 &&
        (deathByEgg ==> (active <==> framesSinceDeath < DEATH_BY_EGG_FRAMES_BEFORE_INACTIVE)) &&
        (!deathByEgg && upgrades.afterlife ==>
           ascentionProgressPct == old(ascentionProgressPct) + 1 && (active <==> ascentionProgressPct < 100)) &&
        (!deathByEgg && !upgrades.afterlife ==> !active)
      ensures old(active) && !old(alive) && (deathByEgg || upgrades.afterlife) ==> body.pixels == old(body.pixels)
      ensures old(active) && !old(alive) && !deathByEgg && !upgrades.afterlife && TombstoneSpot() in old(body.pixels) ==>
        body.pixels == old(body.pixels) && body.surfacePixels == old(body.surfacePixels)
      ensures var at := TombstoneSpot();
        old(active) && !old(alive) && !deathByEgg && !upgrades.afterlife && at !in old(body.pixels) ==>
          at in body.pixels && fresh(body.pixels[at]) && body.pixels[at].IsTombstoneCell() &&
          body.pixels == old(body.pixels)[at := body.pixels[at]] &&
          (forall k :: k in body.pixels ==> body.pixels[k].isSurface == body.HasOpenSide(k))
      ensures old(active) && old(alive) ==>
        active && StoodOn(stood) &&
        HazardsHandled(stood, stood != null, old(stood != null && stood.HasColorOverride())) &&
        (old(stood == null || Deadly(stood, true, stood.HasColorOverride())) ==> !alive) &&
        (framesSinceLastMove == old(framesSinceLastMove) + 1 || framesSinceLastMove == 0)
      ensures !old(active) ==> forall q :: q in old(body.Cells()) ==> unchanged(q)
      ensures old(active) && old(alive) ==> forall q :: q in old(body.Cells()) && q != pixelBeingDug ==> unchanged(q)
      ensures !old(alive) ==> forall q :: q in old(body.Cells()) ==> unchanged(q`health, q`colorOverride, q`darkness, q`bloodiedColor)
      ensures |old(notifications)| <= |notifications| && notifications[..|old(notifications)|] == old(notifications)
      ensures InactiveCount(notifications) == InactiveCount(old(notifications)) + (if old(active) && !active then 1 else 0)
    {
      stood := null;
      if !active {
        return;
      }
      if !alive {
        ghost var log := notifications;
        AfterDeath(tombstoneColor);
        InactiveCountAppend(log, if active then [] else [Inactive]);
        return;
      }
      stood := Live(digRoll, moveRoll, directionRoll, rot);
      InactiveCountUnchanged(old(notifications), notifications);
    }

    /** Places a new agent: remembers its spawn position, then re-places it on the surface. */
    method Init()
      requires Valid()
      modifies this`previousPositions, this`closestSurfacePixel, this`orientation, this`positionInPixelBodySpace,
        this`framesSinceLastMove, this`alive, this`explosive, this`notifications, body
      ensures Valid()
      ensures old(NothingToStandOn()) ==>
        !alive && previousPositions == Pushed(old(previousPositions), old(positionInPixelBodySpace))
      ensures !old(NothingToStandOn()) ==>
        alive == old(alive) && unchanged(body) && closestSurfacePixel != null &&
        body.HasPixel(closestSurfacePixel) &&
        positionInPixelBodySpace == Add(closestSurfacePixel.position, orientation) &&
        previousPositions == [] && framesSinceLastMove == 0
    {
      ghost var nothing := NothingToStandOn();
      AddPreviousPosition(positionInPixelBodySpace);
      assert nothing == NothingToStandOn();
      GoToNearestSurfacePixel();
    }

    method SetShielded(value: bool)
      modifies this`shielded
      ensures shielded == value
    {
      shielded := value;
    }
  }
}
