/** A window's canvas and what the compositor shows of it, pixel by pixel. */
module Canvases {
  import opened Geometry
  import opened Optional
  import opened Painter
  import opened Damage
  import opened Frames
  import opened WindowDamages
  import opened Elevations

  const WHITE: Color := 0xffffffff

  /** A canvas's pixels, row by row. */
  datatype Canvas = Canvas(width: nat, height: nat, rows: seq<seq<Color>>) {
    predicate Sized() { |rows| == height && forall y :: 0 <= y < height ==> |rows[y]| == width }

    predicate Has(x: int, y: int) { 0 <= x < width && 0 <= y < height }
  }

  const EMPTY := Canvas(0, 0, [])

  function Filled(width: nat, height: nat, colour: (int, int) -> Color): (canvas: Canvas)
    ensures canvas.Sized() && canvas.width == width && canvas.height == height
    ensures forall x, y :: 0 <= x < width && 0 <= y < height ==> canvas.rows[y][x] == colour(x, y)
  {
    Canvas(width, height, seq(height, y => seq(width, x => colour(x, y))))
  }

  lemma FilledAlike(canvas: Canvas, other: Canvas)
    requires canvas.Sized() && other.Sized() && canvas.width == other.width && canvas.height == other.height
    requires forall x, y :: 0 <= x < canvas.width && 0 <= y < canvas.height ==> canvas.rows[y][x] == other.rows[y][x]
    ensures canvas == other
  {
    forall y | 0 <= y < canvas.height ensures canvas.rows[y] == other.rows[y] {
    }
  }

  // What a pixel was drawn with besides its tree.

  /** The window's background, and how wide its canvas was. */
  datatype Shade = Shade(background: Color, width: nat)

  type Shades = (int, int) -> Shade

  function Current(d: Display): Shade { Shade(d.background, Pixels(d.width, d.scale120)) }

  function PixelOn(p: Painter, s: Scene, d: Display, shade: Shade, x: int, y: int): Color {
    DrawScene(On(p, shade.width), s, Cell(d, x, y), shade.background)
  }

  function Pixel(p: Painter, s: Scene, d: Display, x: int, y: int): Color { PixelOn(p, s, d, Current(d), x, y) }

  /** A frame each pixel of which was drawn with a shade of its own. */
  function Mosaic(p: Painter, s: Scene, d: Display, shades: Shades): (canvas: Canvas)
    ensures canvas.Sized() && canvas.width == Pixels(d.width, d.scale120) &&
      canvas.height == Pixels(d.height, d.scale120)
    ensures forall x, y :: OnCanvas(d, x, y) ==> canvas.rows[y][x] == PixelOn(p, s, d, shades(x, y), x, y)
  {
    Filled(Pixels(d.width, d.scale120), Pixels(d.height, d.scale120),
           (x, y) => PixelOn(p, s, d, shades(x, y), x, y))
  }

  function Evenly(shade: Shade): Shades { (_, _) => shade }

  /** A frame drawn whole. */
  function FullDraw(p: Painter, s: Scene, d: Display): (canvas: Canvas)
    ensures canvas.Sized() && canvas.width == Pixels(d.width, d.scale120) &&
      canvas.height == Pixels(d.height, d.scale120)
    ensures forall x, y :: OnCanvas(d, x, y) ==> canvas.rows[y][x] == Pixel(p, s, d, x, y)
  {
    Mosaic(p, s, d, Evenly(Current(d)))
  }

  /** Whether every pixel of a mosaic looks the same with the current shade. */
  ghost predicate LooksWhole(p: Painter, s: Scene, d: Display, shades: Shades) {
    forall x, y :: OnCanvas(d, x, y) ==> PixelOn(p, s, d, shades(x, y), x, y) == Pixel(p, s, d, x, y)
  }

  lemma MosaicIsWhole(p: Painter, s: Scene, d: Display, shades: Shades)
    ensures Mosaic(p, s, d, shades) == FullDraw(p, s, d) <==> LooksWhole(p, s, d, shades)
  {
    var a, b := Mosaic(p, s, d, shades), FullDraw(p, s, d);
    if a == b {
      forall x, y | OnCanvas(d, x, y) ensures PixelOn(p, s, d, shades(x, y), x, y) == Pixel(p, s, d, x, y) {
        assert a.rows[y][x] == b.rows[y][x];
      }
    } else if LooksWhole(p, s, d, shades) {
      FilledAlike(a, b);
    }
  }

  // Damage in the canvas.

  predicate InRegions(d: Display, damage: seq<Rect>, x: int, y: int) {
    exists i :: 0 <= i < |damage| && RegionOf(d, damage[i]).Contains(x, y)
  }

  /** A canvas grown or cut to a size: what it had there it keeps, and what it had not is white. */
  function Resized(canvas: Canvas, width: nat, height: nat): Canvas
    requires canvas.Sized()
  {
    Filled(width, height, (x, y) => if canvas.Has(x, y) then canvas.rows[y][x] else WHITE)
  }

  /** What a canvas is after only its damage was drawn again. */
  function DamagedDraw(p: Painter, s: Scene, d: Display, canvas: Canvas, damage: seq<Rect>): Canvas
    requires canvas.Sized()
  {
    Filled(Pixels(d.width, d.scale120), Pixels(d.height, d.scale120),
           (x, y) => if InRegions(d, damage, x, y) then Pixel(p, s, d, x, y)
                     else if canvas.Has(x, y) then canvas.rows[y][x] else WHITE)
  }

  /** What a frame differs in from the one before, before it is clipped and reduced. */
  ghost function Changed(p: Painter, was: Scene, before: Display, now: Scene, d: Display): set<Rect> {
    FrameDamage(p, PlacesIn(p, was), PlacesIn(p, now)) + Gained(before, d)
  }

  /** What is shown once only a frame's damage is handed over; all of it with no damage, or at another size. */
  predicate PresentsWhole(shown: Canvas, canvas: Canvas, damage: Option<seq<Rect>>) {
    damage.None? || damage.value == [] || shown.width != canvas.width || shown.height != canvas.height
  }

  function Presented(d: Display, shown: Canvas, canvas: Canvas, damage: Option<seq<Rect>>): Canvas
    requires shown.Sized() && canvas.Sized()
  {
    if PresentsWhole(shown, canvas, damage) then canvas
    else Uploaded(d, shown, canvas, damage.value)
  }

  /** A canvas's pixels taken where the damage is. */
  function Uploaded(d: Display, shown: Canvas, canvas: Canvas, damage: seq<Rect>): (now: Canvas)
    requires shown.Sized() && canvas.Sized() && shown.width == canvas.width && shown.height == canvas.height
    ensures now.Sized() && now.width == canvas.width && now.height == canvas.height
  {
    Filled(canvas.width, canvas.height,
           (x, y) => if !canvas.Has(x, y) then WHITE
                     else if InRegions(d, damage, x, y) then canvas.rows[y][x] else shown.rows[y][x])
  }

  /** What each pixel is drawn with after its damage was drawn again. */
  function Renewed(d: Display, damage: seq<Rect>, kept: Shades): Shades {
    (x, y) => if InRegions(d, damage, x, y) then Current(d) else kept(x, y)
  }

  /** What each pixel shown was drawn with, after the canvas's damage was handed over. */
  function Taken(d: Display, damage: seq<Rect>, told: Shades, kept: Shades): Shades {
    (x, y) => if InRegions(d, damage, x, y) then kept(x, y) else told(x, y)
  }

  /** A pixel left as it was: there before, and drawn the same from both trees, with any shade. */
  lemma UntouchedPixel(
    p: Painter, was: Scene, before: Display, now: Scene, d: Display, damage: seq<Rect>, x: int, y: int)
    requires Continues(p, was, now) && Compared(p, was, now) && before.scale120 == d.scale120
    requires d.width > 0 && d.height > 0 && WholePixels(d) && OnCanvas(d, x, y)
    requires Reduces(damage, Changed(p, was, before, now, d), Window(d)) && !InRegions(d, damage, x, y)
    ensures OnCanvas(before, x, y) && !Cell(d, x, y).Empty()
    ensures Clear(FrameDamage(p, PlacesIn(p, was), PlacesIn(p, now)), Cell(d, x, y))
    ensures forall q, shade :: ReadsAlike(p, q) ==>
      PixelOn(q, was, before, shade, x, y) == PixelOn(q, now, d, shade, x, y)
  {
    hide Continues, Compared, FrameDamage, Reduces, Gained, WholePixels, PlacesIn, DrawScene, ReadsAlike;
    CellsInWindow(d);
    UntouchedIsClear(d, Changed(p, was, before, now, d), damage, x, y);
    if !OnCanvas(before, x, y) {
      GainedDamaged(before, d, x, y);
    }
    forall q, shade | ReadsAlike(p, q)
      ensures PixelOn(q, was, before, shade, x, y) == PixelOn(q, now, d, shade, x, y)
    {
      UndamagedAt(p, q, shade.width, was, now, Cell(d, x, y), shade.background);
    }
  }

  /** Drawing the damage again over any mosaic of the frame before gives the mosaic with those pixels current. */
  lemma RenewedMosaic(
    p: Painter, was: Scene, before: Display, now: Scene, d: Display, kept: Shades, damage: seq<Rect>)
    requires Continues(p, was, now) && Compared(p, was, now) && before.scale120 == d.scale120
    requires d.width > 0 && d.height > 0 && WholePixels(d)
    requires Reduces(damage, Changed(p, was, before, now, d), Window(d))
    ensures DamagedDraw(p, now, d, Mosaic(p, was, before, kept), damage) == Mosaic(p, now, d, Renewed(d, damage, kept))
  {
    hide Continues, Compared, Reduces, Changed, WholePixels, PixelOn, InRegions;
    var canvas := Mosaic(p, was, before, kept);
    var drawn, mosaic := DamagedDraw(p, now, d, canvas, damage), Mosaic(p, now, d, Renewed(d, damage, kept));
    forall x, y | OnCanvas(d, x, y) ensures drawn.rows[y][x] == mosaic.rows[y][x] {
      if !InRegions(d, damage, x, y) {
        UntouchedPixel(p, was, before, now, d, damage, x, y);
        assert canvas.Has(x, y);
      }
    }
    FilledAlike(drawn, mosaic);
  }

  /** Handing over the damage of a mosaic, over any mosaic of the frame before. */
  lemma TakenMosaic(
    p: Painter, was: Scene, before: Display, now: Scene, d: Display, told: Shades, kept: Shades, damage: seq<Rect>)
    requires Continues(p, was, now) && Compared(p, was, now) && before.scale120 == d.scale120
    requires d.width > 0 && d.height > 0 && WholePixels(d)
    requires Reduces(damage, Changed(p, was, before, now, d), Window(d))
    ensures var shown, canvas := Mosaic(p, was, before, told), Mosaic(p, now, d, kept);
            !PresentsWhole(shown, canvas, Some(damage)) ==>
              Presented(d, shown, canvas, Some(damage)) == Mosaic(p, now, d, Taken(d, damage, told, kept))
  {
    hide Continues, Compared, Reduces, Changed, WholePixels, PixelOn, InRegions;
    var shown, canvas := Mosaic(p, was, before, told), Mosaic(p, now, d, kept);
    if !PresentsWhole(shown, canvas, Some(damage)) {
      var taken, mosaic := Uploaded(d, shown, canvas, damage), Mosaic(p, now, d, Taken(d, damage, told, kept));
      forall x, y | OnCanvas(d, x, y) ensures taken.rows[y][x] == mosaic.rows[y][x] {
        assert canvas.Has(x, y);
        if !InRegions(d, damage, x, y) {
          UntouchedPixel(p, was, before, now, d, damage, x, y);
        }
      }
      FilledAlike(taken, mosaic);
    }
  }

  /** Nothing kept and the size as it was: a mosaic of the frame before is one of this frame. */
  lemma UndrawnMosaic(p: Painter, was: Scene, before: Display, now: Scene, d: Display, shades: Shades)
    requires Continues(p, was, now) && Compared(p, was, now)
    requires before.scale120 == d.scale120 && before.width == d.width && before.height == d.height
    requires d.width > 0 && d.height > 0 && WholePixels(d)
    requires Reduces([], Changed(p, was, before, now, d), Window(d))
    ensures Mosaic(p, was, before, shades) == Mosaic(p, now, d, shades)
  {
    hide Continues, Compared, Reduces, Changed, WholePixels, PixelOn;
    var a, b := Mosaic(p, was, before, shades), Mosaic(p, now, d, shades);
    forall x, y | OnCanvas(d, x, y) ensures a.rows[y][x] == b.rows[y][x] {
      UntouchedPixel(p, was, before, now, d, [], x, y);
    }
    FilledAlike(a, b);
  }

  /** A pixel no region holds is one nothing damaged reaches. */
  lemma UntouchedIsClear(d: Display, all: set<Rect>, damage: seq<Rect>, x: int, y: int)
    requires OnCanvas(d, x, y) && Inside(Cell(d, x, y), Window(d))
    requires Reduces(damage, all, Window(d)) && !InRegions(d, damage, x, y)
    ensures Clear(all, Cell(d, x, y))
  {
    ReducedInWindow(damage, all, Window(d));
    forall r | r in Elements(damage) ensures !Overlap(r, Cell(d, x, y)) {
      var i :| 0 <= i < |damage| && damage[i] == r;
      RegionIsOverlap(d, r, x, y);
    }
    if !Clear(all, Cell(d, x, y)) {
      ReducedCovers(damage, all, Window(d), Cell(d, x, y));
    }
  }

  /** A pixel the frame before had none of is in what the window gained. */
  lemma GainedDamaged(before: Display, d: Display, x: int, y: int)
    requires before.scale120 == d.scale120 && OnCanvas(d, x, y) && !OnCanvas(before, x, y)
    requires Inside(Cell(d, x, y), Window(d))
    ensures !Clear(Gained(before, d), Cell(d, x, y))
  {
    var cell := Cell(d, x, y);
    PastCanvas(before, d, x, y);
    BandsReach(Window(d), Window(before), cell);
    var r :| r in Bands(Window(d), Window(before)) && Overlap(r, cell);
    assert r in Gained(before, d);
  }

  lemma PastCanvas(before: Display, d: Display, x: int, y: int)
    requires before.scale120 == d.scale120 && OnCanvas(d, x, y) && !OnCanvas(before, x, y)
    ensures !Overlap(Cell(d, x, y), Window(before))
    ensures before.width != d.width || before.height != d.height
  {
    PixelsReach(before.width, d.scale120);
    PixelsReach(before.height, d.scale120);
    EdgeOrder(x, before.width, d.scale120);
    EdgeOrder(y, before.height, d.scale120);
  }
}
