/**
 * The diggable cell of a pixel body (src/diggables/pixel.js) and its two shown
 * subclasses, the tombstone and the serpent cell.
 *
 * JavaScript subclassing is replaced by a `behaviour` tag: `Throws` is the bare
 * base class, whose `actLikeDirt` throws, and `Fixed(b)` is a subclass whose
 * `actLikeDirt` answers `b`.
 */
module Cells {
  import opened Wrappers
  import opened Geometry

  /** The cell types the agents and the economy distinguish. */
  datatype PixelType = Dirt | Tombstone | Gold | Diamond | Egg | Magic | Serpent

  datatype Color = Color(r: int, g: int, b: int, a: int)

  /** The colours of the active dirt type, read by dirt-like cells. */
  datatype DirtPalette = DirtPalette(color: Color, surfaceColor: Color)

  datatype DirtBehaviour = Throws | Fixed(likeDirt: bool)

  const TOMBSTONE_HEALTH: real := 125.0
  const SERPENT_HEALTH: real := 350.0

  function Max(a: real, b: real): real { if a >= b then a else b }

  /** Clamping of `darkness` into [lo, hi]. */
  function Clamp(v: real, lo: real, hi: real): real
    requires lo <= hi
  {
    if v < lo then lo else if v > hi then hi else v
  }

  /** Health after a hit of `amount`, floored at zero. */
  function Damaged(health: real, amount: real): (r: real)
    ensures r >= 0.0
    ensures r == health - amount || (r == 0.0 && health - amount < 0.0)
    ensures amount >= 0.0 && health >= 0.0 ==> r <= health
  {
    Max(0.0, health - amount)
  }

  /** JavaScript's `Math.round`: halves round up. */
  function JsRound(x: real): int { (x + 0.5).Floor }

  /** A store into a `Uint8ClampedArray` of an integral value. */
  function ClampByte(n: int): (r: int)
    ensures 0 <= r <= 255
    ensures 0 <= n <= 255 ==> r == n
  {
    if n < 0 then 0 else if n > 255 then 255 else n
  }

  class Pixel {
    const position: Pos
    const pixelType: PixelType
    const initialHealth: real
    const healthModifier: real
    const initialAlpha: int
    const behaviour: DirtBehaviour
    const color: Option<Color>
    const surfaceColor: Option<Color>
    var health: real
    var colorOverride: Option<Color>
    var isSurface: bool
    var darkness: real
    var bloodiedColor: Option<Color>

    /** The bare base class: no colours, and `actLikeDirt` throws. */
    constructor (position: Pos, pixelType: PixelType, baseHealth: real,
                 healthModifier: real := 1.0, initialAlpha: int := 255)
      ensures this.position == position && this.pixelType == pixelType
      ensures initialHealth == baseHealth * healthModifier && health == initialHealth
      ensures this.healthModifier == healthModifier && this.initialAlpha == initialAlpha
      ensures behaviour == Throws
      ensures color == None && surfaceColor == None && colorOverride == None
      ensures !isSurface && darkness == 0.0 && bloodiedColor == None
    {
      this.position := position;
      this.pixelType := pixelType;
      this.initialHealth := baseHealth * healthModifier;
      this.healthModifier := healthModifier;
      this.initialAlpha := initialAlpha;
      this.behaviour := Throws;
      this.color := None;
      this.surfaceColor := None;
      this.health := baseHealth * healthModifier;
      this.colorOverride := None;
      this.isSurface := false;
      this.darkness := 0.0;
      this.bloodiedColor := None;
    }

    /**
     * A tombstone (src/diggables/tombstone.js). `wiggledColor` is the random
     * variation of the tombstone colour; the surface colour is a copy of it.
     */
    constructor Tombstone(position: Pos, wiggledColor: Color, healthModifier: real := 1.0)
      ensures IsTombstoneCell()
      ensures this.position == position && this.healthModifier == healthModifier
      ensures initialHealth == TOMBSTONE_HEALTH * healthModifier && health == initialHealth
      ensures color == Some(wiggledColor)
      ensures colorOverride == None && !isSurface && darkness == 0.0 && bloodiedColor == None
    {
      this.position := position;
      this.pixelType := PixelType.Tombstone;
      this.initialHealth := TOMBSTONE_HEALTH * healthModifier;
      this.healthModifier := healthModifier;
      this.initialAlpha := 255;
      this.behaviour := Fixed(false);
      this.color := Some(wiggledColor);
      this.surfaceColor := Some(wiggledColor);
      this.health := TOMBSTONE_HEALTH * healthModifier;
      this.colorOverride := None;
      this.isSurface := false;
      this.darkness := 0.0;
      this.bloodiedColor := None;
    }

    /**
     * A serpent cell (src/diggables/serpent.js); no health modifier is passed,
     * so the base modifier 1 applies. Both colours are random variations.
     */
    constructor Serpent(position: Pos, wiggledColor: Color, wiggledSurfaceColor: Color)
      ensures IsSerpentCell()
      ensures this.position == position
      ensures initialHealth == SERPENT_HEALTH && health == SERPENT_HEALTH
      ensures color == Some(wiggledColor) && surfaceColor == Some(wiggledSurfaceColor)
      ensures colorOverride == None && !isSurface && darkness == 0.0 && bloodiedColor == None
    {
      this.position := position;
      this.pixelType := PixelType.Serpent;
      this.initialHealth := SERPENT_HEALTH * 1.0;
      this.healthModifier := 1.0;
      this.initialAlpha := 255;
      this.behaviour := Fixed(false);
      this.color := Some(wiggledColor);
      this.surfaceColor := Some(wiggledSurfaceColor);
      this.health := SERPENT_HEALTH * 1.0;
      this.colorOverride := None;
      this.isSurface := false;
      this.darkness := 0.0;
      this.bloodiedColor := None;
    }

    /** What the tombstone constructor establishes and nothing later changes. */
    predicate IsTombstoneCell() {
      pixelType == PixelType.Tombstone && behaviour == Fixed(false) &&
      initialHealth == TOMBSTONE_HEALTH * healthModifier &&
      color.Some? && surfaceColor == color && initialAlpha == 255
    }

    /** What the serpent constructor establishes and nothing later changes. */
    predicate IsSerpentCell() {
      pixelType == PixelType.Serpent && behaviour == Fixed(false) &&
      initialHealth == SERPENT_HEALTH && healthModifier == 1.0 &&
      color.Some? && surfaceColor.Some? && initialAlpha == 255
    }

    function ActLikeDirt(): (r: Outcome<bool>)
      ensures r.Thrown? <==> behaviour == Throws
      ensures behaviour.Fixed? ==> r == Returned(behaviour.likeDirt)
    {
      match behaviour
      case Throws => Thrown
      case Fixed(b) => Returned(b)
    }

    /**
     * A hit of `amount`. The source reads the render alpha first, which asks
     * `actLikeDirt`: the bare base class throws there, before health changes.
     */
    method Damage(amount: real) returns (r: Outcome<()>)
      modifies this`health
      ensures r.Thrown? <==> behaviour == Throws
      ensures r.Thrown? ==> health == old(health)
      ensures r.Returned? ==> health == Damaged(old(health), amount)
    {
      if ActLikeDirt().Thrown? {
        return Thrown;
      }
      health := Max(0.0, health - amount);
      return Returned(());
    }

    method SetColorOverride(c: Color)
      modifies this`colorOverride
      ensures colorOverride == Some(c) && HasColorOverride()
    {
      colorOverride := Some(c);
    }

    method UnsetColorOverride()
      modifies this`colorOverride
      ensures colorOverride == None && !HasColorOverride()
    {
      colorOverride := None;
    }

    predicate HasColorOverride()
      reads this
    {
      colorOverride != None
    }

    /**
     * The health the digging agents see. A dirt-like cell reports the health it
     * would have left had it started with dirt's health: dirt's starting health
     * minus the damage taken so far, floored at zero.
     */
    function GetHealth(dirtInitialHealth: real): (r: Outcome<real>)
      reads this
      ensures r.Thrown? <==> behaviour == Throws
      ensures behaviour == Fixed(false) ==> r == Returned(health)
      ensures behaviour == Fixed(true) ==>
        r == Returned(Max(0.0, dirtInitialHealth * healthModifier - (initialHealth - health)))
      ensures r.Returned? && health >= 0.0 ==> r.value >= 0.0
    {
      match ActLikeDirt()
      case Thrown => Thrown
      case Returned(likeDirt) =>
        if !likeDirt then Returned(health)
        else
          var actLikeDirtDiff := initialHealth - dirtInitialHealth * healthModifier;
          Returned(Max(0.0, health - actLikeDirtDiff))
    }

    method SetSurface(b: bool)
      modifies this`isSurface
      ensures isSurface == b && Surface() == b
    {
      isSurface := b;
    }

    /** The `surface` getter. */
    predicate Surface()
      reads this
    {
      isSurface
    }

    method SetDarkness(d: real)
      modifies this`darkness
      ensures 0.0 <= darkness <= 1.0
      ensures 0.0 <= d <= 1.0 ==> darkness == d
      ensures d < 0.0 ==> darkness == 0.0
      ensures d > 1.0 ==> darkness == 1.0
    {
      darkness := Clamp(d, 0.0, 1.0);
    }

    /** `wiggledBlood` is the random variation of the blood colour. */
    method Bloody(wiggledBlood: Color)
      modifies this`bloodiedColor
      ensures IsBloodied()
      ensures old(bloodiedColor).Some? ==> bloodiedColor == old(bloodiedColor)
      ensures old(bloodiedColor).None? ==> bloodiedColor == Some(wiggledBlood)
    {
      if bloodiedColor.Some? {
        return;
      }
      bloodiedColor := Some(wiggledBlood);
    }

    predicate IsBloodied()
      reads this
    {
      bloodiedColor.Some?
    }

    /**
     * The colour to paint, by precedence: blood, then the active dirt colours
     * for a dirt-like cell, then the cell's own colours; the surface flag picks
     * the surface variant. `None` inside `Returned` is JavaScript's null.
     */
    function GetRenderColor(dirt: DirtPalette): (r: Outcome<Option<Color>>)
      reads this
      ensures bloodiedColor.Some? ==> r == Returned(bloodiedColor)
      ensures bloodiedColor.None? && behaviour == Throws ==> r.Thrown?
      ensures bloodiedColor.None? && behaviour == Fixed(true) ==>
        r == Returned(Some(if isSurface then dirt.surfaceColor else dirt.color))
      ensures bloodiedColor.None? && behaviour == Fixed(false) ==>
        r == Returned(if isSurface then surfaceColor else color)
    {
      if bloodiedColor.Some? then Returned(bloodiedColor)
      else
        match ActLikeDirt()
        case Thrown => Thrown
        case Returned(likeDirt) =>
          if likeDirt then Returned(Some(if isSurface then dirt.surfaceColor else dirt.color))
          else Returned(if isSurface then surfaceColor else color)
    }

    /** The colour `render` paints with, if it gets one without throwing. */
    function PaintColor(dirt: DirtPalette): Option<Color>
      reads this
    {
      if HasColorOverride() then colorOverride
      else if GetRenderColor(dirt).Returned? then GetRenderColor(dirt).value
      else None
    }

    /**
     * Writes this cell's RGBA into a flat image buffer of `width` x `height`
     * pixels, four entries per pixel. `alpha` is the cell's render alpha.
     * With no colour to paint, reading `color.r` throws before anything is
     * written; the bare base class writes red, green and blue and then throws
     * in `getRenderAlpha` before the alpha entry.
     */
    method Render(data: array<int>, width: nat, height: nat, dirt: DirtPalette,
                  debugMode: bool, alpha: real) returns (r: Outcome<()>)
      requires data.Length == width * height * 4
      modifies data
      ensures r.Thrown? <==> InImage(width, height) && (PaintColor(dirt).None? || behaviour == Throws)
      ensures !InImage(width, height) || PaintColor(dirt).None? ==> data[..] == old(data[..])
      ensures InImage(width, height) && PaintColor(dirt).Some? ==>
        var i := PixelIndex(position.0, position.1, width);
        var c := PaintColor(dirt).value;
        var k := if debugMode then 0.0 else darkness;
        0 <= i && i + 3 < data.Length &&
        data[i] == Shade(c.r, k) && data[i + 1] == Shade(c.g, k) && data[i + 2] == Shade(c.b, k) &&
        data[i + 3] == (if behaviour == Throws then old(data[i + 3]) else ClampByte(JsRound(alpha))) &&
        forall j :: 0 <= j < data.Length && !(i <= j < i + 4) ==> data[j] == old(data[j])
    {
      if position.0 < 0 || position.0 >= width {
        return Returned(());
      }
      if position.1 < 0 || position.1 >= height {
        return Returned(());
      }
      var pixelIndex := PixelIndex(position.0, position.1, width);
      RowMajorIndexInBounds(position.0, position.1, width, height);
      var paint := PaintColor(dirt);
      if paint.None? {
        return Thrown;
      }
      var c := paint.value;
      var k := if debugMode then 0.0 else darkness;
      data[pixelIndex] := Shade(c.r, k);
      data[pixelIndex + 1] := Shade(c.g, k);
      data[pixelIndex + 2] := Shade(c.b, k);
      if ActLikeDirt().Thrown? {
        return Thrown;
      }
      data[pixelIndex + 3] := ClampByte(JsRound(alpha));
      return Returned(());
    }

    predicate InImage(width: int, height: int) {
      0 <= position.0 < width && 0 <= position.1 < height
    }
  }

  /** Where the RGBA entries of pixel (x, y) start in a row-major buffer. */
  function PixelIndex(x: int, y: int, width: int): int
  {
    (x + y * width) * 4
  }

  /** A colour channel darkened by `darkness`, as the clamped byte buffer stores it. */
  function Shade(channel: int, darkness: real): int
  {
    ClampByte(JsRound(channel as real * (1.0 - darkness)))
  }

  /** The four entries of pixel (x, y) lie inside a buffer of width * height pixels. */
  lemma RowMajorIndexInBounds(x: int, y: int, width: int, height: int)
    requires 0 <= x < width && 0 <= y < height
    ensures 0 <= PixelIndex(x, y, width)
    ensures PixelIndex(x, y, width) + 3 < width * height * 4
  {
    assert 0 <= y * width by { NonNegativeProduct(y, width); }
    assert y * width + width <= height * width by { ProductMonotone(y + 1, height, width); }
  }

  lemma NonNegativeProduct(a: int, b: int)
    requires a >= 0 && b >= 0
    ensures a * b >= 0
  {
  }

  lemma ProductMonotone(a: int, b: int, c: int)
    requires a <= b && c >= 0
    ensures a * c <= b * c
  {
    assert b * c - a * c == (b - a) * c;
    NonNegativeProduct(b - a, c);
  }
}
