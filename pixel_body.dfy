/**
 * A stand-in for the pixel body (the grid of live cells an agent walks on).
 *
 * The body's own source is not part of this model. This class gives the queries
 * and updates the agent and the game call a simple implementation over a map
 * from positions to cells, with contracts stating what the agent relies on.
 * Nothing here is derived from the body's real code.
 */
module Bodies {
  import opened Wrappers
  import opened Geometry
  import opened Cells

  /** The eight neighbour offsets, in row-major order. */
  const AROUND: seq<Pos> := [(-1, -1), (0, -1), (1, -1), (-1, 0), (1, 0), (-1, 1), (0, 1), (1, 1)]

  /** The four orthogonal offsets. */
  const SIDES: seq<Pos> := [(0, -1), (0, 1), (-1, 0), (1, 0)]

  class PixelBody {
    /** The body's centre, in body space. */
    const center: Pos
    /** The size of the body's layer. */
    const width: int
    const height: int
    var pixels: map<Pos, Pixel>
    /** The body's list of surface cells, in its own order. */
    var surfacePixels: seq<Pixel>

    /**
     * Every cell sits under its own position and is of a concrete kind, and
     * every listed surface cell is live.
     */
    ghost predicate Valid()
      reads this
    {
      0 <= width && 0 <= height &&
      (forall k :: k in pixels ==> pixels[k].position == k && pixels[k].behaviour.Fixed?) &&
      (forall i :: 0 <= i < |surfacePixels| ==> HasPixel(surfacePixels[i]))
    }

    constructor (center: Pos, width: int, height: int, pixels: map<Pos, Pixel>, surfacePixels: seq<Pixel>)
      requires 0 <= width && 0 <= height
      requires forall k :: k in pixels ==> pixels[k].position == k && pixels[k].behaviour.Fixed?
      requires forall i :: 0 <= i < |surfacePixels| ==>
        surfacePixels[i].position in pixels && pixels[surfacePixels[i].position] == surfacePixels[i]
      ensures Valid()
      ensures this.center == center && this.width == width && this.height == height
      ensures this.pixels == pixels && this.surfacePixels == surfacePixels
    {
      this.center := center;
      this.width := width;
      this.height := height;
      this.pixels := pixels;
      this.surfacePixels := surfacePixels;
    }

    /** The live cells, as a set of objects. */
    function Cells(): set<Pixel>
      reads this
    {
      pixels.Values
    }

    function GetPixel(p: Pos): (r: Option<Pixel>)
      reads this
      ensures r.Some? <==> p in pixels
      ensures r.Some? ==> r.value == pixels[p]
    {
      if p in pixels then Some(pixels[p]) else None
    }

    /** Whether `px` itself (not merely a cell at its position) is still live. */
    predicate HasPixel(px: Pixel)
      reads this
    {
      px.position in pixels && pixels[px.position] == px
    }

    /** The side `d` of the cell at `p` is open: nothing lives there. */
    predicate IsOpen(p: Pos, d: Pos)
      reads this
    {
      Add(p, d) !in pixels
    }

    /** Some orthogonal neighbour of `p` is missing. */
    predicate HasOpenSide(p: Pos)
      reads this
    {
      exists i :: 0 <= i < |SIDES| && IsOpen(p, SIDES[i])
    }

    /** Removing an absent (or replaced) cell is a no-op. */
    method RemovePixel(px: Pixel)
      requires Valid()
      modifies this
      ensures Valid()
      ensures old(HasPixel(px)) ==> pixels == old(pixels) - {px.position}
      ensures !old(HasPixel(px)) ==> pixels == old(pixels)
      ensures !HasPixel(px)
      ensures forall q :: q in surfacePixels ==> q in old(surfacePixels)
    {
      if HasPixel(px) {
        pixels := pixels - {px.position};
        surfacePixels := Without(surfacePixels, px);
      }
    }

    method RemovePixels(pxs: seq<Pixel>)
      requires Valid()
      modifies this
      ensures Valid()
      ensures pixels == map k | k in old(pixels) && old(pixels)[k] !in pxs :: old(pixels)[k]
      ensures forall q :: q in surfacePixels ==> q in old(surfacePixels)
    {
      var i := 0;
      while i < |pxs|
        invariant 0 <= i <= |pxs|
        invariant Valid()
        invariant pixels == map k | k in old(pixels) && old(pixels)[k] !in pxs[..i] :: old(pixels)[k]
        invariant forall q :: q in surfacePixels ==> q in old(surfacePixels)
      {
        RemovePixel(pxs[i]);
        assert pxs[..i + 1] == pxs[..i] + [pxs[i]];
        i := i + 1;
      }
      assert pxs[..i] == pxs;
    }

    /**
     * Only the tombstone an agent leaves at its death is added in this model.
     * `wiggledColor` is the tombstone's random colour.
     */
    method AddPixel(p: Pos, pixelType: PixelType, wiggledColor: Color) returns (added: bool)
      requires Valid()
      requires pixelType == PixelType.Tombstone
      modifies this
      ensures Valid()
      ensures added <==> p !in old(pixels)
      ensures !added ==> pixels == old(pixels) && surfacePixels == old(surfacePixels)
      ensures added ==> p in pixels && fresh(pixels[p]) && pixels[p].IsTombstoneCell() &&
                        pixels[p].position == p && pixels == old(pixels)[p := pixels[p]]
      ensures surfacePixels == old(surfacePixels)
    {
      if p in pixels {
        return false;
      }
      var t := new Pixel.Tombstone(p, wiggledColor);
      pixels := pixels[p := t];
      added := true;
    }

    /** Recomputes every surface flag and the surface list from the cells present. */
    method UpdateSurface()
      requires Valid()
      modifies this, Cells()
      ensures Valid()
      ensures pixels == old(pixels)
      ensures forall k :: k in pixels ==> pixels[k].isSurface == HasOpenSide(k)
      ensures forall q :: q in surfacePixels <==> q in Cells() && HasOpenSide(q.position)
      ensures forall q :: q in old(Cells()) ==> unchanged(q`health, q`colorOverride, q`darkness, q`bloodiedColor)
    {
      var todo := pixels.Keys;
      var list: seq<Pixel> := [];
      while todo != {}
        invariant todo <= pixels.Keys
        invariant pixels == old(pixels) && Valid()
        invariant forall q :: q in old(Cells()) ==> unchanged(q`health, q`colorOverride, q`darkness, q`bloodiedColor)
        invariant forall k :: k in pixels && k !in todo ==> pixels[k].isSurface == HasOpenSide(k)
        invariant forall q :: q in list <==> q in Cells() && q.position !in todo && HasOpenSide(q.position)
        decreases todo
      {
        var k :| k in todo;
        var open := HasOpenSide(k);
        pixels[k].SetSurface(open);
        if open {
          list := list + [pixels[k]];
        }
        todo := todo - {k};
      }
      surfacePixels := list;
    }

    /** The live surface cell nearest to `p`, the first one listed on ties. */
    method GetClosestSurfacePixel(p: Pos) returns (r: Pixel?)
      ensures r == null <==> |surfacePixels| == 0
      ensures r != null ==> r in surfacePixels
      ensures r != null ==> forall q :: q in surfacePixels ==> DistSq(r.position, p) <= DistSq(q.position, p)
    {
      if |surfacePixels| == 0 {
        return null;
      }
      r := surfacePixels[0];
      var i := 1;
      while i < |surfacePixels|
        invariant 1 <= i <= |surfacePixels|
        invariant r in surfacePixels[..i]
        invariant forall j :: 0 <= j < i ==> DistSq(r.position, p) <= DistSq(surfacePixels[j].position, p)
      {
        if DistSq(surfacePixels[i].position, p) < DistSq(r.position, p) {
          r := surfacePixels[i];
        }
        i := i + 1;
      }
    }

    /** The live cells among the eight neighbours of `p`, in row-major order. */
    function GetSurroundingPixels(p: Pos): (r: seq<Pixel>)
      reads this
      ensures forall i :: 0 <= i < |r| ==> LiveAt(p, AROUND, r[i])
      ensures forall j :: 0 <= j < |AROUND| && Add(p, AROUND[j]) in pixels ==> pixels[Add(p, AROUND[j])] in r
    {
      Present(p, AROUND)
    }

    /** `q` is the live cell at `p` plus one of `offsets`. */
    predicate LiveAt(p: Pos, offsets: seq<Pos>, q: Pixel)
      reads this
    {
      exists j :: 0 <= j < |offsets| && Add(p, offsets[j]) in pixels && pixels[Add(p, offsets[j])] == q
    }

    function Present(p: Pos, offsets: seq<Pos>): (r: seq<Pixel>)
      reads this
      ensures forall i :: 0 <= i < |r| ==> LiveAt(p, offsets, r[i])
      ensures forall j :: 0 <= j < |offsets| && Add(p, offsets[j]) in pixels ==> pixels[Add(p, offsets[j])] in r
    {
      if offsets == [] then []
      else
        var rest := Present(p, offsets[1..]);
        assert forall i :: 0 <= i < |rest| ==> LiveAt(p, offsets, rest[i]) by {
          forall i | 0 <= i < |rest| ensures LiveAt(p, offsets, rest[i]) {
            var j :| 0 <= j < |offsets[1..]| && Add(p, offsets[1..][j]) in pixels && pixels[Add(p, offsets[1..][j])] == rest[i];
            assert offsets[1..][j] == offsets[j + 1];
          }
        }
        assert forall j :: 1 <= j < |offsets| ==> offsets[j] == offsets[1..][j - 1];
        if Add(p, offsets[0]) in pixels then [pixels[Add(p, offsets[0])]] + rest else rest
    }

    /** All live cells within `radius` of `p`, each once. */
    method GetPixelsAround(p: Pos, radius: int) returns (r: seq<Pixel>)
      requires Valid()
      ensures forall q :: q in r <==> q in Cells() && DistSq(q.position, p) <= radius * radius
      ensures forall i, j :: 0 <= i < j < |r| ==> r[i] != r[j]
    {
      var todo := pixels.Keys;
      r := [];
      while todo != {}
        invariant todo <= pixels.Keys
        invariant forall q :: q in r <==> q in Cells() && q.position !in todo && DistSq(q.position, p) <= radius * radius
        invariant forall i, j :: 0 <= i < j < |r| ==> r[i] != r[j]
        decreases todo
      {
        var k :| k in todo;
        if DistSq(k, p) <= radius * radius {
          r := r + [pixels[k]];
        }
        todo := todo - {k};
      }
    }
  }

  /** `s` with every occurrence of `x` dropped. */
  function Without(s: seq<Pixel>, x: Pixel): (r: seq<Pixel>)
    ensures forall i :: 0 <= i < |r| ==> r[i] in s && r[i] != x
    ensures forall i :: 0 <= i < |s| && s[i] != x ==> s[i] in r
  {
    if s == [] then []
    else if s[0] == x then Without(s[1..], x)
    else [s[0]] + Without(s[1..], x)
  }
}
