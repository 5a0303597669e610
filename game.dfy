/**
 * The economy and the game-state guards of src/game.js: aspis earned from
 * digs and spent on shields, upgrades and workers; the queue of pixel bodies
 * played in turn; and the transitions of the game state.
 *
 * The worker collection (src/little_guys.js) is not part of this model: it is
 * a sequence of `Worker` records giving the counts the economy reads.
 */
module Games {
  import opened Wrappers
  import opened Geometry
  import opened Cells
  import opened Bodies
  import opened Upgrading
  import opened Skies

  const MAX_LITTLE_GUYS: int := 200
  const SHIELD_COST_PER_LITTLE_GUY: int := 302

  datatype GameState = Uninitialized | Paused | Running | Ending | Won | Lost

  /** The game is over once won or lost (src/game_state.js is not part of this model). */
  predicate IsOver(s: GameState) { s.Won? || s.Lost? }

  predicate IsPaused(s: GameState) { s.Paused? }

  /** `endGame`: a game neither ending nor over starts ending; otherwise nothing changes. */
  function AfterEndGame(s: GameState): (r: GameState)
    ensures s.Ending? || IsOver(s) ==> r == s
    ensures !(s.Ending? || IsOver(s)) ==> r.Ending?
    ensures r.Ending? || IsOver(r)
  {
    if s.Ending? || IsOver(s) then s else Ending
  }

  /**
   * `setPaused`: an uninitialised or finished game keeps its state; otherwise
   * the game ends up paused exactly when asked to, as `Paused` or `Running`.
   */
  function AfterSetPaused(s: GameState, paused: bool): (r: GameState)
    ensures s.Uninitialized? || IsOver(s) ==> r == s
    ensures !(s.Uninitialized? || IsOver(s)) ==> IsPaused(r) == paused
    ensures !(s.Uninitialized? || IsOver(s)) && IsPaused(s) != paused ==> r == (if paused then Paused else Running)
    ensures IsPaused(s) == paused ==> r == s
  {
    if s.Uninitialized? || IsOver(s) then s
    else if IsPaused(s) == paused then s
    else if paused then Paused
    else Running
  }

  /** Asking twice for the same pause state is the same as asking once. */
  lemma SetPausedIdempotent(s: GameState, paused: bool)
    ensures AfterSetPaused(AfterSetPaused(s, paused), paused) == AfterSetPaused(s, paused)
  {
    var r := AfterSetPaused(s, paused);
    if !(s.Uninitialized? || IsOver(s)) {
      assert IsPaused(r) == paused;
    }
  }

  /** One worker, as the economy sees it. */
  datatype Worker = Worker(position: Pos, immaculate: bool, alive: bool, shielded: bool)

  /** Paid-for workers: the ones not conceived immaculately (src/little_guys.js is not shown). */
  function MaculateCount(ws: seq<Worker>): (r: nat)
    ensures r <= |ws|
  {
    if ws == [] then 0
    else MaculateCount(ws[..|ws| - 1]) + (if ws[|ws| - 1].immaculate then 0 else 1)
  }

  function AliveCount(ws: seq<Worker>): (r: nat)
    ensures r <= |ws|
  {
    if ws == [] then 0
    else AliveCount(ws[..|ws| - 1]) + (if ws[|ws| - 1].alive then 1 else 0)
  }

  /**
   * How many workers the next spawn is charged for: free workers cost
   * nothing, and the count is never negative.
   */
  function PaidForCount(maculateCount: int, freeWorkerCount: int): (r: nat)
    ensures r == 0 <==> maculateCount + 1 <= freeWorkerCount
    ensures r > 0 ==> r == maculateCount + 1 - freeWorkerCount
  {
    var n := maculateCount + 1 - freeWorkerCount;
    if n >= 0 then n else 0
  }

  /** The pricing the upgrades set for dug cells. */
  datatype Prices = Prices(aspisPer: PixelType -> int, unlockGold: bool, unlockDiamonds: bool, eggHandling: bool)

  /** A locked gold or diamond cell pays as dirt; every other cell pays as itself. */
  function CountedType(t: PixelType, p: Prices): (r: PixelType)
    ensures r == t || r == Dirt
    ensures r == Dirt && t != Dirt <==> (t == Gold && !p.unlockGold) || (t == Diamond && !p.unlockDiamonds)
  {
    if (t == Gold && !p.unlockGold) || (t == Diamond && !p.unlockDiamonds) then Dirt else t
  }

  function DigValue(t: PixelType, p: Prices): int
  {
    p.aspisPer(CountedType(t, p))
  }

  /** The aspis a list of dug cells pays, summed from the front. */
  function DigsValue(ts: seq<PixelType>, p: Prices): int
  {
    if ts == [] then 0 else DigsValue(ts[..|ts| - 1], p) + DigValue(ts[|ts| - 1], p)
  }

  /** Paying for two batches of digs pays as much as paying for them together. */
  lemma {:induction false} DigsValueAppend(a: seq<PixelType>, b: seq<PixelType>, p: Prices)
    ensures DigsValue(a + b, p) == DigsValue(a, p) + DigsValue(b, p)
    decreases |b|
  {
    if b == [] {
      assert a + b == a;
    } else {
      assert (a + b)[..|a + b| - 1] == a + b[..|b| - 1];
      DigsValueAppend(a, b[..|b| - 1], p);
    }
  }

  /** With no negative price, digging never loses aspis. */
  lemma {:induction false} DigsValueNonNegative(ts: seq<PixelType>, p: Prices)
    requires forall t :: p.aspisPer(t) >= 0
    ensures DigsValue(ts, p) >= 0
  {
    if ts != [] {
      DigsValueNonNegative(ts[..|ts| - 1], p);
    }
  }

  /** The types of the given cells, in order. */
  function TypesOf(pixels: seq<Pixel>): (r: seq<PixelType>)
    ensures |r| == |pixels|
    ensures forall i :: 0 <= i < |r| ==> r[i] == pixels[i].pixelType
  {
    seq(|pixels|, i requires 0 <= i < |pixels| => pixels[i].pixelType)
  }

  /**
   * What a surface cell is expected to pay: as `DigValue`, except that an egg
   * nobody can handle yet pays nothing.
   */
  function SurfaceValue(t: PixelType, p: Prices): (r: int)
    ensures t == Egg && !p.eggHandling ==> r == 0
    ensures !(t == Egg && !p.eggHandling) ==> r == DigValue(t, p)
  {
    if t == Gold && !p.unlockGold then p.aspisPer(Dirt)
    else if t == Diamond && !p.unlockDiamonds then p.aspisPer(Dirt)
    else if t == Egg && !p.eggHandling then 0
    else p.aspisPer(t)
  }

  function SurfaceSum(ts: seq<PixelType>, p: Prices): int
  {
    if ts == [] then 0 else SurfaceSum(ts[..|ts| - 1], p) + SurfaceValue(ts[|ts| - 1], p)
  }

  /** The expected value of a new worker: the mean surface value times its digs. */
  function ExpectedValue(ts: seq<PixelType>, p: Prices, digCount: int): real
  {
    if ts == [] then 0.0
    else SurfaceSum(ts, p) as real / |ts| as real * digCount as real
  }

  lemma {:induction false} SurfaceSumBounds(ts: seq<PixelType>, p: Prices, lo: int, hi: int)
    requires forall i :: 0 <= i < |ts| ==> lo <= SurfaceValue(ts[i], p) <= hi
    ensures |ts| * lo <= SurfaceSum(ts, p) <= |ts| * hi
  {
    if ts != [] {
      var init := ts[..|ts| - 1];
      assert forall i :: 0 <= i < |init| ==> init[i] == ts[i];
      SurfaceSumBounds(init, p, lo, hi);
      assert |ts| * lo == |init| * lo + lo && |ts| * hi == |init| * hi + hi;
    }
  }

  /**
   * The expected value is an average: it lies between the smallest and the
   * largest surface value, each times the dig count.
   */
  lemma ExpectedValueBetween(ts: seq<PixelType>, p: Prices, digCount: int, lo: int, hi: int)
    requires ts != [] && digCount >= 0
    requires forall i :: 0 <= i < |ts| ==> lo <= SurfaceValue(ts[i], p) <= hi
    ensures (lo * digCount) as real <= ExpectedValue(ts, p, digCount) <= (hi * digCount) as real
  {
    SurfaceSumBounds(ts, p, lo, hi);
    AverageBetween(SurfaceSum(ts, p), |ts|, digCount, lo, hi);
  }

  /** A sum of `n` terms in `[lo, hi]`, averaged and scaled by `d`, stays in range. */
  lemma AverageBetween(sum: int, n: int, d: int, lo: int, hi: int)
    requires n > 0 && d >= 0 && n * lo <= sum <= n * hi
    ensures (lo * d) as real <= sum as real / n as real * d as real <= (hi * d) as real
  {
    CastMul(n, lo);
    CastMul(n, hi);
    CastMul(lo, d);
    CastMul(hi, d);
    MeanBetween(sum as real, n as real, lo as real, hi as real);
    ScaleBetween(sum as real / n as real, lo as real, hi as real, d as real);
  }

  lemma CastMul(a: int, b: int)
    ensures (a * b) as real == a as real * b as real
  {
  }

  lemma MeanBetween(s: real, n: real, lo: real, hi: real)
    requires n > 0.0 && n * lo <= s <= n * hi
    ensures lo <= s / n <= hi
  {
    assert s / n * n == s;
  }

  lemma ScaleBetween(x: real, lo: real, hi: real, d: real)
    requires lo <= x <= hi && d >= 0.0
    ensures lo * d <= x * d <= hi * d
  {
    assert (x - lo) * d >= 0.0;
    assert (hi - x) * d >= 0.0;
  }

  /** One entry of the queue of bodies: the body and the sky shown with it. */
  datatype Level = Level(body: PixelBody, skyColors: SkyColors)

  class Game {
    const upgrades: Upgrades
    const sky: Sky
    var aspis: int
    var aspisNeedsUpdate: bool
    var knowsDirt: bool
    var spawnCost: int
    var shieldActive: bool
    var shieldCost: int
    var spawningAllowed: bool
    var gameState: GameState
    /** The bodies still to play; the head is the one being dug. */
    var pixelBodies: seq<Level>
    var workers: seq<Worker>

    /** Aspis never goes negative, given that no cell has a negative price. */
    ghost predicate Valid()
      reads this, upgrades, sky
    {
      aspis >= 0 && sky.Valid() && forall t :: upgrades.aspisPer(t) >= 0
    }

    function PricesNow(): Prices
      reads upgrades
    {
      Prices(upgrades.aspisPer, upgrades.unlockGold, upgrades.unlockDiamonds, upgrades.eggHandling)
    }

    constructor (pixelBodies: seq<Level>, upgrades: Upgrades)
      requires forall t :: upgrades.aspisPer(t) >= 0
      ensures Valid()
      ensures this.pixelBodies == pixelBodies && this.upgrades == upgrades && fresh(sky)
      ensures aspis == 0 && spawnCost == 0 && shieldCost == 0 && !shieldActive
      ensures spawningAllowed && gameState == Uninitialized && workers == []
    {
      this.upgrades := upgrades;
      this.pixelBodies := pixelBodies;
      sky := new Sky();
      aspis := 0;
      aspisNeedsUpdate := true;
      knowsDirt := false;
      spawnCost := 0;
      shieldActive := false;
      shieldCost := 0;
      spawningAllowed := true;
      gameState := Uninitialized;
      workers := [];
    }

    /** The body being dug: the head of the queue, if any. */
    function ActivePixelBody(): (r: Option<Level>)
      reads this
      ensures r.None? <==> pixelBodies == []
      ensures r.Some? ==> r.value == pixelBodies[0]
    {
      if |pixelBodies| > 0 then Some(pixelBodies[0]) else None
    }

    /**
     * Pays for a batch of dug cells: each pays its price, a locked gold or
     * diamond cell the price of dirt. An empty batch changes nothing.
     */
    method HandleDigsComplete(pixels: seq<Pixel>)
      requires Valid()
      modifies this`aspis, this`aspisNeedsUpdate, this`knowsDirt
      ensures Valid()
      ensures pixels == [] ==> unchanged(this)
      ensures pixels != [] ==>
        aspis == old(aspis) + DigsValue(TypesOf(pixels), PricesNow()) && knowsDirt &&
        aspisNeedsUpdate == (old(aspisNeedsUpdate) || DigsValue(TypesOf(pixels), PricesNow()) > 0)
    {
      if |pixels| == 0 {
        return;
      }
      knowsDirt := true;
      ghost var ts := TypesOf(pixels);
      var totalValue := 0;
      var i := 0;
      while i < |pixels|
        invariant 0 <= i <= |pixels|
        invariant totalValue == DigsValue(ts[..i], PricesNow())
      {
        var value := upgrades.aspisPer(pixels[i].pixelType);
        if (pixels[i].pixelType == Gold && !upgrades.unlockGold) ||
           (pixels[i].pixelType == Diamond && !upgrades.unlockDiamonds) {
          value := upgrades.aspisPer(Dirt);
        }
        assert ts[..i + 1][..i] == ts[..i];
        totalValue := totalValue + value;
        i := i + 1;
      }
      assert ts[..i] == ts;
      DigsValueNonNegative(ts, PricesNow());
      aspis := aspis + totalValue;
      if totalValue > 0 {
        aspisNeedsUpdate := true;
      }
    }

    /** What the next paid spawn costs with the given workers. */
    function SpawnCostFor(ws: seq<Worker>): int
      reads upgrades
    {
      upgrades.spawnCostCurve(PaidForCount(MaculateCount(ws), upgrades.freeWorkerCount))
    }

    /**
     * The shield's price once shields are unlocked: 302 per living worker;
     * before that the price `previous` is kept.
     */
    function ShieldCostFor(ws: seq<Worker>, previous: int): (r: int)
      reads upgrades
      ensures upgrades.shieldsUnlocked ==> r == AliveCount(ws) * SHIELD_COST_PER_LITTLE_GUY && 0 <= r <= |ws| * SHIELD_COST_PER_LITTLE_GUY
      ensures !upgrades.shieldsUnlocked ==> r == previous
    {
      if upgrades.shieldsUnlocked then AliveCount(ws) * SHIELD_COST_PER_LITTLE_GUY else previous
    }

    /**
     * Prices the next worker from the paid-for count, and (once shields are
     * unlocked) the shield from the living workers.
     */
    method UpdateSpawnCost()
      modifies this`spawnCost, this`shieldCost
      ensures spawnCost == SpawnCostFor(workers)
      ensures shieldCost == ShieldCostFor(workers, old(shieldCost))
    {
      var paidForCount := PaidForCount(MaculateCount(workers), upgrades.freeWorkerCount);
      spawnCost := upgrades.spawnCostCurve(paidForCount);
      if upgrades.shieldsUnlocked {
        shieldCost := AliveCount(workers) * SHIELD_COST_PER_LITTLE_GUY;
      }
    }

    /**
     * Buys a shield for every worker: refused while one is active, when it
     * costs more than the aspis held, or with no workers.
     */
    method ActivateShield()
      requires Valid()
      modifies this`aspis, this`aspisNeedsUpdate, this`shieldActive
      ensures Valid()
      ensures old(shieldActive || shieldCost > aspis || workers == []) ==> unchanged(this)
      ensures !old(shieldActive || shieldCost > aspis || workers == []) ==>
        aspis == old(aspis) - shieldCost && shieldActive && aspisNeedsUpdate
    {
      if shieldActive {
        return;
      }
      if shieldCost > aspis {
        return;
      }
      if |workers| == 0 {
        return;
      }
      aspis := aspis - shieldCost;
      aspisNeedsUpdate := true;
      shieldActive := true;
    }

    /** Drops the shield; a no-op when none is active. */
    method DeactivateShield()
      modifies this`shieldActive
      ensures !shieldActive
      ensures !old(shieldActive) ==> unchanged(this)
    {
      if !shieldActive {
        return;
      }
      shieldActive := false;
    }

    /**
     * Buys `upgrade` if the aspis held covers its cost: it is marked purchased
     * and its cost is paid, then the prices are refreshed. Otherwise nothing
     * changes.
     */
    method OnUpgradePurchased(upgrade: Upgrade)
      requires Valid()
      modifies this`aspis, this`aspisNeedsUpdate, this`spawnCost, this`shieldCost, upgrades`upgradeTree
      ensures Valid()
      ensures upgrade.cost > old(aspis) ==> unchanged(this) && unchanged(upgrades)
      ensures upgrade.cost <= old(aspis) ==>
        aspis == old(aspis) - upgrade.cost &&
        |upgrades.upgradeTree| == |old(upgrades.upgradeTree)| &&
        (forall i :: 0 <= i < |upgrades.upgradeTree| ==>
           upgrades.upgradeTree[i] == if old(upgrades.upgradeTree)[i].id == upgrade.id
                                      then old(upgrades.upgradeTree)[i].(purchased := true)
                                      else old(upgrades.upgradeTree)[i]) &&
        aspisNeedsUpdate == (old(aspisNeedsUpdate) || upgrade.cost > 0) &&
        spawnCost == SpawnCostFor(workers) &&
        shieldCost == ShieldCostFor(workers, old(shieldCost))
    {
      if upgrade.cost > aspis {
        return;
      }
      upgrades.Purchase(upgrade.id);
      aspis := aspis - upgrade.cost;
      if upgrade.cost > 0 {
        aspisNeedsUpdate := true;
      }
      UpdateSpawnCost();
    }

    /** Whether `spawn` gets past its guards. */
    predicate SpawnAllowed(immaculate: bool)
      reads this
    {
      spawningAllowed &&
      (immaculate || spawnCost <= aspis) &&
      (immaculate || |workers| < MAX_LITTLE_GUYS) &&
      pixelBodies != []
    }

    /**
     * Spawns a worker at `position`. A paid spawn is refused when it costs
     * more than the aspis held or at the population cap; an immaculate one
     * is free and ignores the cap. A paid spawn pays the spawn cost and, when
     * `extraRoll` falls under the extra-worker chance, brings a free worker
     * at `extraSpot` too; with no such spot the spawn cost is left as it was.
     */
    method Spawn(position: Pos, immaculate: bool, extraRoll: real, extraSpot: Option<Pos>)
      requires Valid()
      modifies this`aspis, this`aspisNeedsUpdate, this`workers, this`spawnCost, this`shieldCost
      ensures Valid()
      ensures !old(SpawnAllowed(immaculate)) ==> unchanged(this)
      ensures old(SpawnAllowed(immaculate)) ==>
        var born := Worker(position, immaculate, true, shieldActive);
        var extra := !immaculate && extraRoll < upgrades.extraLittleGuyChance;
        aspis == old(aspis) - (if immaculate then 0 else old(spawnCost)) &&
        workers == old(workers) + [born] +
          (if extra && extraSpot.Some? then [Worker(extraSpot.value, true, true, shieldActive)] else []) &&
        (if extra && extraSpot.None? then spawnCost == old(spawnCost) && shieldCost == old(shieldCost)
         else spawnCost == SpawnCostFor(workers) && shieldCost == ShieldCostFor(workers, old(shieldCost)))
      decreases if immaculate then 0 else 1
    {
      if !spawningAllowed {
        return;
      }
      if !immaculate && spawnCost > aspis {
        return;
      }
      if |workers| >= MAX_LITTLE_GUYS && !immaculate {
        return;
      }
      if |pixelBodies| == 0 {
        return;
      }
      workers := workers + [Worker(position, immaculate, true, shieldActive)];
      if !immaculate {
        aspis := aspis - spawnCost;
        if spawnCost > 0 {
          aspisNeedsUpdate := true;
        }
        if extraRoll < upgrades.extraLittleGuyChance {
          if extraSpot.None? {
            return;
          }
          Spawn(extraSpot.value, true, extraRoll, extraSpot);
        }
      }
      UpdateSpawnCost();
    }

    /**
     * Moves on to the next body: the head of the queue is dropped with every
     * worker; the answer is whether a body remains, whose sky then shows.
     */
    method GoToNextPixelBody() returns (more: bool)
      requires Valid()
      modifies this`pixelBodies, this`workers, sky`transitionFrameCount, sky`transitionDurationFrames,
        sky`prevColors, sky`colors
      ensures Valid()
      ensures pixelBodies == if old(pixelBodies) == [] then [] else old(pixelBodies)[1..]
      ensures workers == []
      ensures more <==> pixelBodies != []
      ensures ActivePixelBody() == if |old(pixelBodies)| >= 2 then Some(old(pixelBodies)[1]) else None
      ensures more ==> sky.colors == Some(pixelBodies[0].skyColors)
      ensures !more ==> unchanged(sky)
    {
      if |pixelBodies| > 0 {
        pixelBodies := pixelBodies[1..];
      }
      workers := [];
      if |pixelBodies| == 0 {
        return false;
      }
      sky.SetColors(pixelBodies[0].skyColors, DEFAULT_TRANSITION_DURATION_FRAMES);
      return true;
    }

    /** Expected aspis from one more worker, from the surface of the active body. */
    method CalculateExpectedValue() returns (r: real)
      ensures pixelBodies == [] ==> r == 0.0
      ensures pixelBodies != [] ==>
        r == ExpectedValue(TypesOf(pixelBodies[0].body.surfacePixels), PricesNow(), upgrades.digCount)
    {
      if |pixelBodies| == 0 {
        return 0.0;
      }
      var surface := pixelBodies[0].body.surfacePixels;
      if |surface| == 0 {
        return 0.0;
      }
      ghost var ts := TypesOf(surface);
      var totalValue := 0;
      var i := 0;
      while i < |surface|
        invariant 0 <= i <= |surface|
        invariant totalValue == SurfaceSum(ts[..i], PricesNow())
      {
        var pixelType := surface[i].pixelType;
        assert ts[..i + 1][..i] == ts[..i];
        if pixelType == Gold && !upgrades.unlockGold {
          pixelType := Dirt;
        } else if pixelType == Diamond && !upgrades.unlockDiamonds {
          pixelType := Dirt;
        } else if pixelType == Egg && !upgrades.eggHandling {
          i := i + 1;
          continue;
        }
        totalValue := totalValue + upgrades.aspisPer(pixelType);
        i := i + 1;
      }
      assert ts[..i] == ts;
      var avgValue := totalValue as real / |surface| as real;
      r := avgValue * upgrades.digCount as real;
    }

    /** Starts the ending of the game unless it is already ending or over. */
    method EndGame(won: bool)
      modifies this`gameState, this`spawningAllowed
      ensures gameState == AfterEndGame(old(gameState))
      ensures old(gameState.Ending? || IsOver(gameState)) ==> unchanged(this)
      ensures !old(gameState.Ending? || IsOver(gameState)) ==> !spawningAllowed
    {
      if gameState == Ending || IsOver(gameState) {
        return;
      }
      gameState := Ending;
      spawningAllowed := false;
    }

    /** The final state once the ending has played out. */
    method EndGameForRealForReal(won: bool)
      modifies this`gameState
      ensures IsOver(gameState) && (gameState.Won? <==> won)
    {
      gameState := if won then Won else Lost;
    }

    method SetPaused(paused: bool)
      modifies this`gameState
      ensures gameState == AfterSetPaused(old(gameState), paused)
    {
      if gameState == Uninitialized || IsOver(gameState) {
        return;
      }
      if IsPaused(gameState) == paused {
        return;
      }
      gameState := if paused then Paused else Running;
    }
  }
}
