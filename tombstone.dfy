/** Facts about tombstone cells (src/diggables/tombstone.js). */
module Tombstones {
  import opened Wrappers
  import opened Cells

  /** A tombstone never acts like dirt, so its effective health is its raw health. */
  lemma TombstoneHealthIsRaw(p: Pixel, dirtInitialHealth: real)
    requires p.IsTombstoneCell()
    ensures p.ActLikeDirt() == Returned(false)
    ensures p.GetHealth(dirtInitialHealth) == Returned(p.health)
  {
  }

  /**
   * The surface colour is a copy of the colour, so whether or not the tombstone
   * is on the surface, an unbloodied tombstone paints its own colour.
   */
  lemma TombstoneColorIgnoresSurface(p: Pixel, dirt: DirtPalette)
    requires p.IsTombstoneCell() && !p.IsBloodied()
    ensures p.GetRenderColor(dirt) == Returned(p.color)
    ensures p.color.Some?
  {
  }
}
