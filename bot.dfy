/**
 * The playtesting bot (testing/bot.js): its decisions (which upgrade to buy,
 * whether to spawn a worker) and the table of recorded events it writes out
 * as CSV.
 */
module Bots {
  import opened Wrappers
  import opened Cells
  import opened Upgrading
  import opened Games
  import opened Csv

  /** A JavaScript number: division by a zero cost can leave the reals. */
  datatype JsNumber = Finite(value: real) | NaN | Infinity | NegInfinity

  /** One cell of a recorded row, before `String` turns it into text. */
  datatype Field = Text(s: string) | Number(n: JsNumber) | Fixed2(x: real)

  /** How numbers print: `String(x)` for a finite number, `x.toFixed(2)`. */
  datatype Formats = Formats(numberText: real -> string, fixed2Text: real -> string)

  function FieldText(f: Field, fmt: Formats): string
  {
    match f
    case Text(s) => s
    case Fixed2(x) => fmt.fixed2Text(x)
    case Number(Finite(x)) => fmt.numberText(x)
    case Number(NaN) => "NaN"
    case Number(Infinity) => "Infinity"
    case Number(NegInfinity) => "-Infinity"
  }

  /** An upgrade the bot may buy: unlocked, not yet bought, and on sale. */
  predicate Eligible(u: Upgrade)
  {
    u.unlocked && !u.purchased && u.purchasable
  }

  /**
   * `tree[k]` is the upgrade `findCheapestUpgrade` settles on: eligible, no
   * dearer than any eligible one, and strictly cheaper than every eligible
   * one before it.
   */
  predicate IsCheapest(tree: seq<Upgrade>, k: int)
  {
    0 <= k < |tree| && Eligible(tree[k]) &&
    (forall j :: 0 <= j < |tree| && Eligible(tree[j]) ==> tree[k].cost <= tree[j].cost) &&
    (forall j :: 0 <= j < k && Eligible(tree[j]) ==> tree[k].cost < tree[j].cost)
  }

  /** At most one entry is the cheapest: ties go to the first. */
  lemma CheapestIsUnique(tree: seq<Upgrade>, k1: int, k2: int)
    requires IsCheapest(tree, k1) && IsCheapest(tree, k2)
    ensures k1 == k2
  {
  }

  /**
   * The progress towards the cheapest upgrade, as a percentage capped at 100:
   * 100 with nothing to buy. A free upgrade divides by zero: with positive
   * aspis the cap still gives 100, with none the answer is NaN.
   */
  function ProgressToNextUpgrade(aspis: int, cheapest: Option<Upgrade>): (r: JsNumber)
    ensures cheapest.None? ==> r == Finite(100.0)
    ensures r.Finite? ==> r.value <= 100.0
    ensures r.Infinity? == false
    ensures cheapest.Some? && cheapest.value.cost > 0 ==>
      r.Finite? && (aspis >= 0 ==> r.value >= 0.0) &&
      (r.value == 100.0 <==> aspis >= cheapest.value.cost)
    ensures cheapest.Some? && cheapest.value.cost == 0 ==>
      (aspis > 0 ==> r == Finite(100.0)) && (aspis == 0 ==> r == NaN) && (aspis < 0 ==> r == NegInfinity)
  {
    match cheapest
    case None => Finite(100.0)
    case Some(u) =>
      if u.cost == 0 then
        if aspis > 0 then Finite(100.0)
        else if aspis == 0 then NaN
        else NegInfinity
      else
        var ratio := 100.0 * aspis as real / u.cost as real;
        assert u.cost > 0 ==> (ratio >= 100.0 <==> aspis >= u.cost) by {
          if u.cost > 0 {
            RatioAtLeastHundred(aspis, u.cost);
          }
        }
        assert u.cost > 0 && aspis >= 0 ==> ratio >= 0.0;
        Finite(if 100.0 <= ratio then 100.0 else ratio)
  }

  lemma RatioAtLeastHundred(aspis: int, cost: int)
    requires cost > 0
    ensures 100.0 * aspis as real / cost as real >= 100.0 <==> aspis >= cost
  {
    var c := cost as real;
    var q := 100.0 * aspis as real / c;
    assert q * c == 100.0 * aspis as real;
    if aspis >= cost {
      assert q * c >= 100.0 * c;
    } else {
      assert q * c < 100.0 * c;
    }
  }

  /** How many upgrades of the tree are bought. */
  function PurchasedCount(tree: seq<Upgrade>): (r: nat)
    ensures r <= |tree|
  {
    if tree == [] then 0
    else PurchasedCount(tree[..|tree| - 1]) + (if tree[|tree| - 1].purchased then 1 else 0)
  }

  /** One sample of the game's economy, as the bot records it every frame. */
  datatype Event = Event(
    timestampMinutes: real,
    aspis: int,
    peakAspis: int,
    manualLittleGuyCount: int,
    autoLittleGuyCount: int,
    littleGuyEv: real,
    activePixelBodyHealth: real,
    upgradeCount: int,
    cheapestUpgradeCost: int,
    progressToNextUpgrade: JsNumber,
    mostRecentUpgrade: string,
    timeSinceLastUpgradeMinutes: real,
    aspisPerDirt: int,
    aspisPerTombstone: int,
    aspisPerGold: int,
    aspisPerDiamond: int,
    populationPowerScale: real,
    conceptionIntervalMs: real,
    digSpeed: real,
    digCount: int,
    freeWorkerCount: int,
    karma: real)

  /**
   * Builds an event: counts the bought upgrades, reads the prices (gold and
   * diamond at 0 while locked), and derives the cost of and the progress
   * towards the cheapest upgrade.
   */
  method NewEvent(timestampMinutes: real, aspis: int, peakAspis: int, manualLittleGuyCount: int,
                  autoLittleGuyCount: int, littleGuyEv: real, activePixelBodyHealth: real,
                  upgrades: Upgrades, cheapest: Option<Upgrade>, mostRecentUpgrade: string,
                  timeSinceLastUpgradeMinutes: real) returns (e: Event)
    ensures e.upgradeCount == PurchasedCount(upgrades.upgradeTree)
    ensures e.cheapestUpgradeCost == (if cheapest.Some? then cheapest.value.cost else 0)
    ensures e.progressToNextUpgrade == ProgressToNextUpgrade(aspis, cheapest)
    ensures e.aspisPerGold == (if upgrades.unlockGold then upgrades.aspisPer(Gold) else 0)
    ensures e.aspisPerDiamond == (if upgrades.unlockDiamonds then upgrades.aspisPer(Diamond) else 0)
    ensures e == Event(timestampMinutes, aspis, peakAspis, manualLittleGuyCount, autoLittleGuyCount,
      littleGuyEv, activePixelBodyHealth, e.upgradeCount, e.cheapestUpgradeCost, e.progressToNextUpgrade,
      mostRecentUpgrade, timeSinceLastUpgradeMinutes, upgrades.aspisPer(Dirt), upgrades.aspisPer(Tombstone),
      e.aspisPerGold, e.aspisPerDiamond, upgrades.populationPowerScale, upgrades.conceptionIntervalMs,
      upgrades.digSpeed, upgrades.digCount, upgrades.freeWorkerCount, upgrades.karma)
  {
    var tree := upgrades.upgradeTree;
    var upgradeCount := 0;
    var i := 0;
    while i < |tree|
      invariant 0 <= i <= |tree|
      invariant upgradeCount == PurchasedCount(tree[..i])
    {
      assert tree[..i + 1][..i] == tree[..i];
      if tree[i].purchased {
        upgradeCount := upgradeCount + 1;
      }
      i := i + 1;
    }
    assert tree[..i] == tree;
    e := Event(timestampMinutes, aspis, peakAspis, manualLittleGuyCount, autoLittleGuyCount,
      littleGuyEv, activePixelBodyHealth, upgradeCount,
      if cheapest.Some? then cheapest.value.cost else 0,
      ProgressToNextUpgrade(aspis, cheapest),
      mostRecentUpgrade, timeSinceLastUpgradeMinutes,
      upgrades.aspisPer(Dirt), upgrades.aspisPer(Tombstone),
      if upgrades.unlockGold then upgrades.aspisPer(Gold) else 0,
      if upgrades.unlockDiamonds then upgrades.aspisPer(Diamond) else 0,
      upgrades.populationPowerScale, upgrades.conceptionIntervalMs, upgrades.digSpeed,
      upgrades.digCount, upgrades.freeWorkerCount, upgrades.karma);
  }

  /** The CSV header row. */
  function Headers(): (r: seq<string>)
    ensures |r| == 22
    ensures forall i, j :: 0 <= i < j < |r| ==> r[i] != r[j]
  {
    ["timestampMinutes", "aspis", "peakAspis", "manualLittleGuyCount", "autoLittleGuyCount",
     "littleGuyEv", "activePixelBodyHealth", "upgradeCount", "cheapestUpgradeCost",
     "progressToNextUpgrade", "mostRecentUpgrade", "timeSinceLastUpgradeMinutes", "aspisPerDirt",
     "aspisPerTombstone", "aspisPerGold", "aspisPerDiamond", "populationPowerScale",
     "conceptionIntervalMs", "digSpeed", "digCount", "freeWorkerCount", "karma"]
  }

  function Int(n: int): Field { Number(Finite(n as real)) }

  function Num(x: real): Field { Number(Finite(x)) }

  /** An event's values in column order; the timestamp prints with two decimals. */
  function AsRow(e: Event): (r: seq<Field>)
    ensures |r| == |Headers()|
  {
    [Fixed2(e.timestampMinutes), Int(e.aspis), Int(e.peakAspis), Int(e.manualLittleGuyCount),
     Int(e.autoLittleGuyCount), Num(e.littleGuyEv), Num(e.activePixelBodyHealth), Int(e.upgradeCount),
     Int(e.cheapestUpgradeCost), Number(e.progressToNextUpgrade), Text(e.mostRecentUpgrade),
     Num(e.timeSinceLastUpgradeMinutes), Int(e.aspisPerDirt), Int(e.aspisPerTombstone),
     Int(e.aspisPerGold), Int(e.aspisPerDiamond), Num(e.populationPowerScale),
     Num(e.conceptionIntervalMs), Num(e.digSpeed), Int(e.digCount), Int(e.freeWorkerCount),
     Num(e.karma)]
  }

  /** The value of the event's field with the given name, looked up by name. */
  function Column(e: Event, name: string): Option<Field>
  {
    match name
    case "timestampMinutes" => Some(Fixed2(e.timestampMinutes))
    case "aspis" => Some(Int(e.aspis))
    case "peakAspis" => Some(Int(e.peakAspis))
    case "manualLittleGuyCount" => Some(Int(e.manualLittleGuyCount))
    case "autoLittleGuyCount" => Some(Int(e.autoLittleGuyCount))
    case "littleGuyEv" => Some(Num(e.littleGuyEv))
    case "activePixelBodyHealth" => Some(Num(e.activePixelBodyHealth))
    case "upgradeCount" => Some(Int(e.upgradeCount))
    case "cheapestUpgradeCost" => Some(Int(e.cheapestUpgradeCost))
    case "progressToNextUpgrade" => Some(Number(e.progressToNextUpgrade))
    case "mostRecentUpgrade" => Some(Text(e.mostRecentUpgrade))
    case "timeSinceLastUpgradeMinutes" => Some(Num(e.timeSinceLastUpgradeMinutes))
    case "aspisPerDirt" => Some(Int(e.aspisPerDirt))
    case "aspisPerTombstone" => Some(Int(e.aspisPerTombstone))
    case "aspisPerGold" => Some(Int(e.aspisPerGold))
    case "aspisPerDiamond" => Some(Int(e.aspisPerDiamond))
    case "populationPowerScale" => Some(Num(e.populationPowerScale))
    case "conceptionIntervalMs" => Some(Num(e.conceptionIntervalMs))
    case "digSpeed" => Some(Num(e.digSpeed))
    case "digCount" => Some(Int(e.digCount))
    case "freeWorkerCount" => Some(Int(e.freeWorkerCount))
    case "karma" => Some(Num(e.karma))
    case _ => None
  }

  /** Every column of a row holds the field its header names. */
  lemma RowMatchesHeaders(e: Event)
    ensures |AsRow(e)| == |Headers()| == 22
    ensures forall i :: 0 <= i < 22 ==> Column(e, Headers()[i]) == Some(AsRow(e)[i])
  {
  }

  /** The texts of a row's fields. */
  function RowStrings(fields: seq<Field>, fmt: Formats): (r: seq<string>)
    ensures |r| == |fields|
    ensures forall i :: 0 <= i < |r| ==> r[i] == FieldText(fields[i], fmt)
  {
    seq(|fields|, i requires 0 <= i < |fields| => FieldText(fields[i], fmt))
  }

  /** The header row, then one row per event in recording order. */
  function Table(events: seq<Event>, fmt: Formats): (r: seq<seq<string>>)
    ensures |r| == |events| + 1 && r[0] == Headers()
    ensures forall i :: 0 <= i < |events| ==> r[i + 1] == RowStrings(AsRow(events[i]), fmt)
  {
    [Headers()] + seq(|events|, i requires 0 <= i < |events| => RowStrings(AsRow(events[i]), fmt))
  }

  class Bot {
    const game: Game
    var events: seq<Event>
    var running: bool
    var peakAspis: int
    var mostRecentUpgrade: string
    var lastUpgradeTimestamp: real

    constructor (game: Game)
      ensures this.game == game && events == [] && !running
      ensures peakAspis == 0 && mostRecentUpgrade == "" && lastUpgradeTimestamp == 0.0
    {
      this.game := game;
      events := [];
      running := false;
      peakAspis := 0;
      mostRecentUpgrade := "";
      lastUpgradeTimestamp := 0.0;
    }

    /**
     * The recorded events as CSV text: reading it back gives the header row
     * followed by one row per event, in recording order.
     */
    function GenerateCsv(fmt: Formats): (r: string)
      reads this
      ensures ParseCsv(r) == Some(Table(events, fmt))
    {
      var rows := Table(events, fmt);
      CsvRoundTrip(rows);
      CsvText(rows)
    }

    /**
     * The first eligible upgrade of least cost in the tree's order, or
     * nothing when no upgrade is eligible.
     */
    method FindCheapestUpgrade() returns (r: Option<Upgrade>)
      ensures var tree := game.upgrades.upgradeTree;
        (r.None? <==> forall j :: 0 <= j < |tree| ==> !Eligible(tree[j])) &&
        (r.Some? ==> exists k :: IsCheapest(tree, k) && r.value == tree[k])
    {
      var tree := game.upgrades.upgradeTree;
      r := None;
      ghost var k := -1;
      var i := 0;
      while i < |tree|
        invariant 0 <= i <= |tree|
        invariant r.None? <==> forall j :: 0 <= j < i ==> !Eligible(tree[j])
        invariant r.Some? ==> 0 <= k < i && r.value == tree[k] && Eligible(tree[k])
        invariant r.Some? ==> forall j :: 0 <= j < i && Eligible(tree[j]) ==> tree[k].cost <= tree[j].cost
        invariant r.Some? ==> forall j :: 0 <= j < k && Eligible(tree[j]) ==> tree[k].cost < tree[j].cost
      {
        var u := tree[i];
        if Eligible(u) {
          if r.None? {
            r := Some(u);
            k := i;
          } else if u.cost < r.value.cost {
            r := Some(u);
            k := i;
          }
        }
        i := i + 1;
      }
      assert r.Some? ==> IsCheapest(tree, k);
    }

    /**
     * Clicks the cheapest upgrade's buy button when it costs strictly less
     * than the aspis held and the button is on the page (`buttonPresent`);
     * `now` is the clock reading stored as the time of the purchase. Answers
     * the upgrade clicked.
     */
    method MaybeBuyUpgrade(buttonPresent: bool, now: real) returns (clicked: Option<Upgrade>)
      modifies this`mostRecentUpgrade, this`lastUpgradeTimestamp
      ensures var tree := game.upgrades.upgradeTree;
        (clicked.Some? ==> (exists k :: IsCheapest(tree, k) && clicked.value == tree[k] &&
                                         tree[k].cost < game.aspis) && buttonPresent) &&
        (clicked.None? ==> !buttonPresent || forall k :: IsCheapest(tree, k) ==> tree[k].cost >= game.aspis)
      ensures clicked.Some? ==> mostRecentUpgrade == clicked.value.id && lastUpgradeTimestamp == now
      ensures clicked.None? ==> unchanged(this)
    {
      var cheapest := FindCheapestUpgrade();
      clicked := None;
      if cheapest.Some? && cheapest.value.cost < game.aspis && buttonPresent {
        clicked := cheapest;
        mostRecentUpgrade := cheapest.value.id;
        lastUpgradeTimestamp := now;
      }
      if clicked.None? && buttonPresent {
        forall k | IsCheapest(game.upgrades.upgradeTree, k)
          ensures game.upgrades.upgradeTree[k].cost >= game.aspis
        {
          if cheapest.Some? {
            var k' :| IsCheapest(game.upgrades.upgradeTree, k') && cheapest.value == game.upgrades.upgradeTree[k'];
            CheapestIsUnique(game.upgrades.upgradeTree, k, k');
          }
        }
      }
    }

    /**
     * Whether to buy another worker with the given expected value: never when
     * spawning is off or at the cap, always when it is free, never when it is
     * unaffordable, else when three quarters of its value beats its price.
     */
    function ShouldSpawn(expectedValue: real): (r: bool)
      reads game
      ensures r ==> |game.workers| < MAX_LITTLE_GUYS && (game.spawnCost == 0 || game.spawnCost <= game.aspis)
    {
      if !game.spawningAllowed then false
      else if |game.workers| >= MAX_LITTLE_GUYS then false
      else if game.spawnCost == 0 then true
      else if game.aspis < game.spawnCost then false
      else 0.75 * expectedValue > game.spawnCost as real
    }

    /**
     * A spawn the bot decides on is one the game accepts as a paid spawn
     * whenever there is a body to spawn on.
     */
    lemma ShouldSpawnIsAccepted(expectedValue: real)
      requires game.Valid() && game.pixelBodies != []
      ensures ShouldSpawn(expectedValue) ==> game.SpawnAllowed(false)
    {
    }

    /** The bot never spawns beyond the cap, nor a worker it cannot pay for. */
    lemma ShouldSpawnBounds(expectedValue: real)
      ensures ShouldSpawn(expectedValue) ==>
        game.spawningAllowed && |game.workers| < MAX_LITTLE_GUYS &&
        (game.spawnCost == 0 || game.spawnCost <= game.aspis)
      ensures game.spawningAllowed && |game.workers| < MAX_LITTLE_GUYS && game.spawnCost == 0 ==>
        ShouldSpawn(expectedValue)
      ensures game.spawnCost != 0 && game.spawnCost <= game.aspis ==>
        (ShouldSpawn(expectedValue) <==>
           game.spawningAllowed && |game.workers| < MAX_LITTLE_GUYS &&
           0.75 * expectedValue > game.spawnCost as real)
    {
    }
  }
}
