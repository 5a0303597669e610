/** Facts about serpent cells (src/diggables/serpent.js). */
module Serpents {
  import opened Wrappers
  import opened Cells

  /** A serpent cell never acts like dirt, so its effective health is its raw health. */
  lemma SerpentHealthIsRaw(p: Pixel, dirtInitialHealth: real)
    requires p.IsSerpentCell()
    ensures p.ActLikeDirt() == Returned(false)
    ensures p.GetHealth(dirtInitialHealth) == Returned(p.health)
  {
  }

  /** Both colours are set at construction, so a serpent cell always has a colour to paint. */
  lemma SerpentRenderColorPresent(p: Pixel, dirt: DirtPalette)
    requires p.IsSerpentCell()
    ensures p.GetRenderColor(dirt).Returned?
    ensures p.GetRenderColor(dirt).value.Some?
  {
  }
}
