/**
 * The sky behind the planets (src/sky.js): a stack of horizontal colour
 * bands sized from the window, and a frame counter that fades from the
 * previous pair of colours to the current one.
 */
module Skies {
  import opened Wrappers
  import opened Geometry
  import opened Cells

  const DEFAULT_TRANSITION_DURATION_FRAMES: int := 120
  const DEFAULT_BAND_HEIGHT_PX: int := 10

  /** The colours at the top and at the bottom of the sky. */
  datatype SkyColors = SkyColors(top: Color, bottom: Color)

  /** What the sky saves: only its colour index (absent on a fresh sky). */
  datatype SkyJson = SkyJson(colorIndex: Option<int>)

  /** `Math.ceil(a / b)` for a positive divisor, in exact integers. */
  function CeilDiv(a: int, b: int): (r: int)
    requires b > 0
    ensures b * r >= a
    ensures b * (r - 1) < a
  {
    -((-a) / b)
  }

  /** The number of bands `onResize` chooses for a sky `height` pixels tall. */
  function BandCount(height: int): int
  {
    var c := CeilDiv(height, DEFAULT_BAND_HEIGHT_PX);
    if c >= 2 then c else 2
  }

  /** The height of one band, so that `BandCount` bands reach the bottom. */
  function BandHeight(height: int): int
  {
    CeilDiv(height, BandCount(height))
  }

  /** The height `updateRenderData` draws band `i` with: the last one is clipped. */
  function DrawnHeight(bandHeight: int, height: int, i: int): int
  {
    var rest := height - i * bandHeight;
    if bandHeight <= rest then bandHeight else rest
  }

  /**
   * The bands always number at least two, are never taller than the default
   * band height, and together reach at least the bottom of the sky.
   */
  lemma BandsCover(height: int)
    ensures BandCount(height) >= 2
    ensures BandCount(height) * BandHeight(height) >= height
    ensures height > 0 ==> 0 < BandHeight(height) <= DEFAULT_BAND_HEIGHT_PX
  {
    var c := BandCount(height);
    var h := BandHeight(height);
    if height > 0 {
      var q := CeilDiv(height, DEFAULT_BAND_HEIGHT_PX);
      // c bands of the default height already reach the bottom, so the
      // rounded-up share of each band is no taller than the default.
      assert DEFAULT_BAND_HEIGHT_PX * c >= height;
      MulCancel(h - 1, DEFAULT_BAND_HEIGHT_PX, c);
    }
  }

  /**
   * No drawn band passes the bottom of the sky, and none is taller than the
   * band height.
   */
  lemma BandsStayInside(bandHeight: int, height: int, i: int)
    ensures DrawnHeight(bandHeight, height, i) <= bandHeight
    ensures i * bandHeight + DrawnHeight(bandHeight, height, i) <= height
  {
  }

  /**
   * For a window at least zero pixels tall (a sky at least two tall) every
   * band is drawn with a positive height, and every row of the sky lies in
   * exactly one band's drawn rectangle.
   */
  lemma {:induction false} BandsTile(height: int)
    requires height >= 2
    ensures forall i :: 0 <= i < BandCount(height) ==>
      DrawnHeight(BandHeight(height), height, i) > 0
    ensures forall row :: 0 <= row < height ==>
      var i := row / BandHeight(height);
      0 <= i < BandCount(height) &&
      i * BandHeight(height) <= row < i * BandHeight(height) + DrawnHeight(BandHeight(height), height, i)
  {
    var c := BandCount(height);
    var h := BandHeight(height);
    BandsCover(height);
    LastBandStartsInside(height);
    forall i | 0 <= i < c
      ensures DrawnHeight(h, height, i) > 0
    {
      assert i * h <= (c - 1) * h;
    }
    forall row | 0 <= row < height
      ensures 0 <= row / h < c
      ensures row / h * h <= row < row / h * h + DrawnHeight(h, height, row / h)
    {
      RowInBand(c, h, height, row);
    }
  }

  /** With `c` bands of height `h` covering the sky, row `row` lies in band `row / h`. */
  lemma RowInBand(c: int, h: int, height: int, row: int)
    requires h > 0 && c * h >= height && 0 <= row < height
    ensures 0 <= row / h < c
    ensures row / h * h <= row < row / h * h + DrawnHeight(h, height, row / h)
  {
    DivBounds(row, h);
    MulCancel(row / h, c, h);
  }

  /** Euclidean division of a non-negative number brackets it between multiples. */
  lemma DivBounds(a: int, b: int)
    requires a >= 0 && b > 0
    ensures a / b * b <= a < a / b * b + b
  {
  }

  /** A positive factor can be cancelled from a strict inequality. */
  lemma MulCancel(a: int, b: int, c: int)
    requires c > 0 && c * a < c * b
    ensures a < b
  {
    assert c * (b - a) == c * b - c * a;
  }

  /** The last band starts above the bottom of the sky. */
  lemma LastBandStartsInside(height: int)
    requires height >= 2
    ensures (BandCount(height) - 1) * BandHeight(height) < height
  {
    var c := BandCount(height);
    var h := BandHeight(height);
    var q := CeilDiv(height, DEFAULT_BAND_HEIGHT_PX);
    BandsCover(height);
    if q >= 2 {
      // c - 1 bands of the default height stop short of the bottom.
      assert DEFAULT_BAND_HEIGHT_PX * (c - 1) < height;
      assert (c - 1) * h <= (c - 1) * DEFAULT_BAND_HEIGHT_PX;
    } else {
      assert c == 2;
      assert 2 * (h - 1) < height;
    }
  }

  /** The transition counter's effect of one `update`. */
  datatype Transition = Transition(frame: int, duration: int)

  function Step(t: Transition): (r: Transition)
  {
    if t.frame < 0 then t
    else if t.frame > t.duration then Transition(-1, -1)
    else t.(frame := t.frame + 1)
  }

  function Steps(t: Transition, n: nat): Transition
    decreases n
  {
    if n == 0 then t else Steps(Step(t), n - 1)
  }

  /** An idle counter stays idle. */
  lemma {:induction false} IdleStaysIdle(t: Transition, n: nat)
    requires t.frame < 0
    ensures Steps(t, n) == t
  {
    if n > 0 {
      IdleStaysIdle(Step(t), n - 1);
    }
  }

  /**
   * Started at 0 with a non-negative duration `d`, the counter reads `n` after
   * `n <= d + 1` updates, never exceeds `d + 1`, and the transition ends
   * (both fields -1) on update `d + 2`, after which it stays idle.
   */
  lemma {:induction false} TransitionRuns(d: int, n: nat)
    requires d >= 0
    ensures n <= d + 1 ==> Steps(Transition(0, d), n) == Transition(n, d)
    ensures n >= d + 2 ==> Steps(Transition(0, d), n) == Transition(-1, -1)
  {
    if n > 0 {
      StepsLast(Transition(0, d), n - 1);
      TransitionRuns(d, n - 1);
      if n > d + 2 {
        IdleStaysIdle(Transition(-1, -1), 1);
      }
    }
  }

  lemma {:induction false} StepsLast(t: Transition, n: nat)
    ensures Steps(t, n + 1) == Step(Steps(t, n))
    decreases n
  {
    if n > 0 {
      StepsLast(Step(t), n - 1);
    }
  }

  class Sky {
    var size: Pos
    var colors: Option<SkyColors>
    var prevColors: Option<SkyColors>
    var bandCount: int
    var bandHeight: int
    var transitionFrameCount: int
    var transitionDurationFrames: int
    var colorIndex: Option<int>

    /** Colours, when set, always come with previous colours to fade from. */
    ghost predicate Valid()
      reads this
    {
      colors.Some? ==> prevColors.Some?
    }

    function Counter(): Transition
      reads this
    {
      Transition(transitionFrameCount, transitionDurationFrames)
    }

    constructor ()
      ensures Valid()
      ensures size == (0, 0) && colors.None? && prevColors.None?
      ensures bandCount == 0 && bandHeight == 0
      ensures transitionFrameCount == -1 && transitionDurationFrames == -1
      ensures colorIndex.None?
    {
      size := (0, 0);
      colors := None;
      prevColors := None;
      bandCount := 0;
      bandHeight := 0;
      transitionFrameCount := -1;
      transitionDurationFrames := -1;
      colorIndex := None;
    }

    function ToJson(): (r: SkyJson)
      reads this
      ensures r.colorIndex == colorIndex
    {
      SkyJson(colorIndex)
    }

    /** A fresh sky carrying the saved colour index: the round trip keeps it. */
    constructor FromJson(json: SkyJson)
      ensures Valid()
      ensures ToJson() == json
      ensures colors.None? && prevColors.None? && Counter() == Transition(-1, -1)
    {
      size := (0, 0);
      colors := None;
      prevColors := None;
      bandCount := 0;
      bandHeight := 0;
      transitionFrameCount := -1;
      transitionDurationFrames := -1;
      colorIndex := json.colorIndex;
    }

    /** Fits the bands to a window of `newSize`, with a margin round the edges. */
    method OnResize(newSize: Pos)
      modifies this`size, this`bandCount, this`bandHeight
      ensures size == (2 * newSize.0, newSize.1 + 2)
      ensures bandCount == BandCount(size.1) && bandHeight == BandHeight(size.1)
      ensures bandCount >= 2 && bandCount * bandHeight >= size.1
      ensures newSize.1 >= 0 ==> forall i :: 0 <= i < bandCount ==> DrawnHeight(bandHeight, size.1, i) > 0
    {
      size := (newSize.0 * 2, newSize.1 + 2);
      var c := CeilDiv(size.1, DEFAULT_BAND_HEIGHT_PX);
      bandCount := if c >= 2 then c else 2;
      bandHeight := CeilDiv(size.1, bandCount);
      BandsCover(size.1);
      if newSize.1 >= 0 {
        BandsTile(size.1);
      }
    }

    /**
     * Starts a fade to `newColors` over `duration` frames, unless the sky
     * already shows the same top and bottom.
     */
    method SetColors(newColors: SkyColors, duration: int)
      requires Valid()
      modifies this`transitionFrameCount, this`transitionDurationFrames, this`prevColors, this`colors
      ensures Valid()
      ensures old(colors) == Some(newColors) ==> unchanged(this)
      ensures old(colors) != Some(newColors) ==>
        Counter() == Transition(0, duration) && colors == Some(newColors) &&
        prevColors == (if old(colors).Some? then old(colors) else Some(newColors))
    {
      if colors.Some? && colors.value.top == newColors.top && colors.value.bottom == newColors.bottom {
        return;
      }
      transitionFrameCount := 0;
      transitionDurationFrames := duration;
      prevColors := colors;
      colors := Some(newColors);
      if prevColors.None? {
        prevColors := Some(newColors);
      }
    }

    /** Advances the fade by one frame, ending it once past its duration. */
    method Update()
      modifies this`transitionFrameCount, this`transitionDurationFrames
      ensures Counter() == Step(old(Counter()))
      ensures old(transitionFrameCount) < 0 ==> unchanged(this)
    {
      if transitionFrameCount < 0 {
        return;
      }
      if transitionFrameCount > transitionDurationFrames {
        transitionFrameCount := -1;
        transitionDurationFrames := -1;
        return;
      }
      transitionFrameCount := transitionFrameCount + 1;
    }
  }
}
