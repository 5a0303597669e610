/**
 * A stand-in for the shared upgrade state (src/upgrades.js is not part of this
 * model). It holds only the fields the agents, the game and the bot read; every
 * holder shares the one object, so a purchase is seen by all of them.
 */
module Upgrading {
  import opened Cells

  /** One node of the upgrade tree, as the bot and the purchase handler see it. */
  datatype Upgrade = Upgrade(id: string, cost: int, unlocked: bool, purchased: bool, purchasable: bool)

  class Upgrades {
    var digCount: int
    var digSpeed: real
    var explosionRadius: int
    var explosionChance: real
    var saintlyPctImmaculate: real
    var saintlyPctMaculate: real
    var eggHandling: bool
    var afterlife: bool
    var goldSeeker: bool
    var unlockGold: bool
    var unlockDiamonds: bool
    var shieldsUnlocked: bool
    var extraLittleGuyChance: real
    var freeWorkerCount: int
    /** Aspis earned per dug cell of each kind. */
    var aspisPer: PixelType -> int
    /** `floor(n ** populationPowerScale)`: the price of the n-th paid worker. */
    var spawnCostCurve: nat -> int
    var populationPowerScale: real
    var conceptionIntervalMs: real
    var karma: real
    /** The upgrade tree, in its iteration order. */
    var upgradeTree: seq<Upgrade>

    constructor (upgradeTree: seq<Upgrade>, aspisPer: PixelType -> int, spawnCostCurve: nat -> int)
      ensures this.upgradeTree == upgradeTree && this.aspisPer == aspisPer
      ensures this.spawnCostCurve == spawnCostCurve
    {
      this.upgradeTree := upgradeTree;
      this.aspisPer := aspisPer;
      this.spawnCostCurve := spawnCostCurve;
    }

    /** Marks every tree entry with this id as purchased. */
    method Purchase(id: string)
      modifies this`upgradeTree
      ensures |upgradeTree| == |old(upgradeTree)|
      ensures forall i :: 0 <= i < |upgradeTree| ==>
        upgradeTree[i] == if old(upgradeTree)[i].id == id then old(upgradeTree)[i].(purchased := true)
                          else old(upgradeTree)[i]
    {
      upgradeTree := seq(|upgradeTree|, i requires 0 <= i < |upgradeTree| reads this =>
        if upgradeTree[i].id == id then upgradeTree[i].(purchased := true) else upgradeTree[i]);
    }
  }
}
