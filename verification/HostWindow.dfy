/** The host's frame step: a canvas redrawn from its damage, and the window it is handed to. */
module HostWindows {
  import opened Geometry
  import opened Optional
  import opened Painter
  import opened Damage
  import opened Frames
  import opened WindowDamages
  import opened Elevations
  import opened Canvases
  import Limits = DamageLimits

  /** Whether no shadow is left as a canvas of another width cast it: none falls where nothing is drawn again. */
  ghost predicate ShadowsKept(p: Painter, now: Scene, before: Display, d: Display, damage: seq<Rect>) {
    Current(before).width == Current(d).width ||
    forall x, y :: OnCanvas(d, x, y) && !InRegions(d, damage, x, y) ==> !CastsIn(p, now, Cell(d, x, y))
  }

  lemma ChangedAlike(p: Painter, q: Painter, was: Scene, before: Display, now: Scene, d: Display)
    requires ReadsAlike(p, q)
    ensures Continues(p, was, now) == Continues(q, was, now) && Compared(p, was, now) == Compared(q, was, now)
    ensures Changed(p, was, before, now, d) == Changed(q, was, before, now, d)
  {
    hide ReadsAlike, Continues, Compared, FrameDamage, PlacesIn, Gained;
    DamagedAlike(p, q, was, now);
  }

  /** A frame drawn from its damage, over the frame before, is that frame drawn whole. */
  lemma DamagedIsWhole(p: Painter, was: Scene, before: Display, now: Scene, d: Display, damage: seq<Rect>)
    requires Continues(p, was, now) && Compared(p, was, now)
    requires before.scale120 == d.scale120 && before.background == d.background
    requires d.width > 0 && d.height > 0 && WholePixels(d)
    requires Reduces(damage, Changed(p, was, before, now, d), Window(d)) && ShadowsKept(p, now, before, d, damage)
    ensures forall q :: ReadsAlike(p, q) ==>
      DamagedDraw(q, now, d, FullDraw(q, was, before), damage) == FullDraw(q, now, d)
  {
    hide Continues, Compared, Reduces, Changed, WholePixels, InRegions, DrawScene, ReadsAlike, CastsIn, ShadowsKept;
    forall q | ReadsAlike(p, q)
      ensures DamagedDraw(q, now, d, FullDraw(q, was, before), damage) == FullDraw(q, now, d)
    {
      ChangedAlike(p, q, was, before, now, d);
      RenewedMosaic(q, was, before, now, d, Evenly(Current(before)), damage);
      MosaicIsWhole(q, now, d, Renewed(d, damage, Evenly(Current(before))));
      forall x, y | OnCanvas(d, x, y) && !InRegions(d, damage, x, y)
        ensures PixelOn(q, now, d, Current(before), x, y) == Pixel(q, now, d, x, y)
      {
        KeptPixel(p, q, was, before, now, d, damage, x, y);
      }
    }
  }

  lemma KeptPixel(
    p: Painter, q: Painter, was: Scene, before: Display, now: Scene, d: Display, damage: seq<Rect>, x: int, y: int)
    requires Continues(p, was, now) && Compared(p, was, now) && ReadsAlike(p, q)
    requires before.scale120 == d.scale120 && before.background == d.background
    requires d.width > 0 && d.height > 0 && WholePixels(d) && OnCanvas(d, x, y) && !InRegions(d, damage, x, y)
    requires Reduces(damage, Changed(p, was, before, now, d), Window(d)) && ShadowsKept(p, now, before, d, damage)
    ensures PixelOn(q, now, d, Current(before), x, y) == Pixel(q, now, d, x, y)
  {
    hide Continues, Compared, Reduces, FrameDamage, PlacesIn, WholePixels, InRegions, DrawScene, CastsIn;
    var v, w := Current(before).width, Current(d).width;
    UntouchedPixel(p, was, before, now, d, damage, x, y);
    WidthKept(p, q, v, w, was, now, Cell(d, x, y), d.background);
    assert PixelOn(q, was, before, Current(before), x, y) == PixelOn(q, now, d, Current(before), x, y);
  }

  /** Damage suffices for a resize, for everyone who reads props alike, exactly when no shadow is left behind. */
  lemma ResizedIsWholeExactly(p: Painter, was: Scene, before: Display, now: Scene, d: Display, damage: seq<Rect>)
    requires Continues(p, was, now) && Compared(p, was, now)
    requires before.scale120 == d.scale120 && before.background == d.background
    requires d.width > 0 && d.height > 0 && WholePixels(d)
    requires Reduces(damage, Changed(p, was, before, now, d), Window(d))
    ensures ShadowsKept(p, now, before, d, damage) <==>
            forall q :: ReadsAlike(p, q) ==>
              DamagedDraw(q, now, d, FullDraw(q, was, before), damage) == FullDraw(q, now, d)
  {
    hide Continues, Compared, Reduces, FrameDamage, PlacesIn, WholePixels, InRegions, DrawScene, CastsIn;
    if ShadowsKept(p, now, before, d, damage) {
      DamagedIsWhole(p, was, before, now, d, damage);
    } else {
      var x, y :| OnCanvas(d, x, y) && !InRegions(d, damage, x, y) && CastsIn(p, now, Cell(d, x, y));
      var q := Tracing(p, true);
      var canvas := FullDraw(q, was, before);
      UntouchedPixel(p, was, before, now, d, damage, x, y);
      WidthTold(p, Current(before).width, Current(d).width, was, now, Cell(d, x, y), d.background);
      assert canvas.Has(x, y) && canvas.rows[y][x] == Pixel(q, was, before, x, y);
      assert DamagedDraw(q, now, d, canvas, damage).rows[y][x] == canvas.rows[y][x] != Pixel(q, now, d, x, y);
      assert ReadsAlike(p, q);
    }
  }
  /** A raised view that stays while its window is resized: nothing there is damaged, and its shadow is the old one. */
  lemma ShadowLeft(p: Painter, n: Node, before: Display, d: Display, x: int, y: int)
    requires !OwnSurface(n.component) && Raised(p, n) && Faded(1.0, LookOf(p, n)) > 0.001
    requires before.scale120 == d.scale120 && Current(before).width != Current(d).width
    requires Overlap(InkAt(p, n, 0.0, 0.0), Cell(d, x, y)) && Inside(Cell(d, x, y), Window(before))
    ensures var s, q := Limits.Leaf(n, 0.0, 0.0), Tracing(p, true);
            Continues(q, s, s) && Compared(q, s, s) && Clear(Changed(q, s, before, s, d), Cell(d, x, y)) &&
            Pixel(q, s, before, x, y) != Pixel(q, s, d, x, y)
  {
    hide Window, Cell, Bands, Overlap, Intersect, Pixels;
    var s, q, cell := Limits.Leaf(n, 0.0, 0.0), Tracing(p, true), Cell(d, x, y);
    Limits.LeafAt(q, n, 0.0, 0.0);
    UnchangedIsUndamaged(q, PlacesIn(q, s));
    BandsApart(Window(d), Window(before), cell);
    assert [Tree(n, [])][1..] == [] && Casts(p, Tree(n, []), 0.0, 0.0, 1.0, cell);
    TracingDrawsAll(p, true, Current(before).width, s.roots, 0.0, 0.0, 1.0, 1.0, cell, before.background);
    TracingDrawsAll(p, true, Current(d).width, s.roots, 0.0, 0.0, 1.0, 1.0, cell, d.background);
    assert Cell(before, x, y) == cell by { SameCells(before, d, x, y); }
  }

  lemma SameCells(before: Display, d: Display, x: int, y: int)
    requires before.scale120 == d.scale120
    ensures Cell(before, x, y) == Cell(d, x, y)
  {
  }

  /** A cell within one rectangle is apart from what the bands hold of another outside it. */
  lemma BandsApart(a: Rect, b: Rect, cell: Rect)
    requires Inside(cell, b)
    ensures forall r :: r in Bands(a, b) ==> !Overlap(r, cell)
  {
    hide Bands;
    BandsAreDifference(a, b);
    forall r | r in Bands(a, b) ensures !Overlap(r, cell) {
      var px, py := Max(r.x, cell.x), Max(r.y, cell.y);
      assert !(r.Contains(px, py) && b.Contains(px, py));
    }
  }

  // Runs of frames.

  /** A frame: what it is of, the canvas kept of it, and what is shown. */
  datatype Shot = Shot(scene: Scene, display: Display, canvas: Canvas, shown: Canvas)

  /** A frame drawn and handed over whole. */
  ghost predicate Anew(p: Painter, after: Shot) {
    after.canvas == after.shown == FullDraw(p, after.scene, after.display)
  }

  /** A frame drawn from its damage over the one before, and handed over there alone. */
  ghost predicate Reuses(p: Painter, before: Shot, after: Shot, damage: seq<Rect>) {
    var d := after.display;
    before.canvas.Sized() && before.shown.Sized() && after.canvas.Sized() && before.display.scale120 == d.scale120 &&
    Reduces(damage, Changed(p, before.scene, before.display, after.scene, d), Window(d)) &&
    ShadowsKept(p, after.scene, before.display, d, damage) &&
    after.canvas == DamagedDraw(p, after.scene, d, before.canvas, damage) &&
    after.shown == Presented(d, before.shown, after.canvas, Some(damage))
  }

  /** No frame at all: nothing in the window changed. */
  ghost predicate Idles(p: Painter, before: Shot, after: Shot) {
    var d := after.display;
    before.display == d && Reduces([], Changed(p, before.scene, before.display, after.scene, d), Window(d)) &&
    after.canvas == before.canvas && after.shown == before.shown
  }

  /** One step of a run. */
  ghost predicate Follows(p: Painter, before: Shot, after: Shot) {
    var d := after.display;
    Continues(p, before.scene, after.scene) && Compared(p, before.scene, after.scene) &&
    d.width > 0 && d.height > 0 && WholePixels(d) && d.background == before.display.background &&
    (Anew(p, after) || Idles(p, before, after) || exists damage :: Reuses(p, before, after, damage))
  }

  /** Every frame of every run is shown as drawn whole, though each reuses the one before. */
  lemma {:induction false} EveryFrameIsWhole(p: Painter, run: seq<Shot>, i: nat)
    requires i < |run| && Anew(p, run[0])
    requires forall k :: 0 < k < |run| ==> Follows(p, run[k - 1], run[k])
    ensures run[i].canvas == run[i].shown == FullDraw(p, run[i].scene, run[i].display)
  {
    if i > 0 {
      EveryFrameIsWhole(p, run, i - 1);
      assert Follows(p, run[i - 1], run[i]);
      NextIsWhole(p, run[i - 1], run[i]);
    }
  }

  lemma NextIsWhole(p: Painter, before: Shot, after: Shot)
    requires Follows(p, before, after) && Anew(p, before)
    ensures Anew(p, after)
  {
    hide Continues, Compared, Reduces, Changed, ShadowsKept, WholePixels, PixelOn;
    var d := after.display;
    var shade := Evenly(Current(before.display));
    if Idles(p, before, after) {
      UndrawnMosaic(p, before.scene, before.display, after.scene, d, shade);
    } else if damage :| Reuses(p, before, after, damage) {
      DamagedIsWhole(p, before.scene, before.display, after.scene, d, damage);
      assert ReadsAlike(p, p);
      TakenMosaic(p, before.scene, before.display, after.scene, d, shade, Evenly(Current(d)), damage);
      MosaicIsWhole(p, after.scene, d, Taken(d, damage, shade, Evenly(Current(d))));
    }
  }

  method DrawDamaged(p: Painter, s: Scene, d: Display, canvas: Canvas, damage: seq<Rect>) returns (drawn: Canvas)
    requires canvas.Sized()
    ensures drawn ==
      if Blank(canvas) then FullDraw(p, s, d) else DamagedDraw(p, s, d, canvas, damage)
  {
    hide FullDraw, Pixel, RegionOf, InRegions;
    var width, height := Pixels(d.width, d.scale120), Pixels(d.height, d.scale120);
    if canvas.width <= 0 || canvas.height <= 0 { return FullDraw(p, s, d); }
    drawn := Resized(canvas, width, height);
    NoRegions(d);
    FilledAlike(drawn, DamagedDraw(p, s, d, canvas, []));
    for i := 0 to |damage|
      invariant drawn == DamagedDraw(p, s, d, canvas, damage[..i])
    {
      ghost var after := DamagedDraw(p, s, d, canvas, damage[..i + 1]);
      drawn := DrawRegion(p, s, d, drawn, RegionOf(d, damage[i]));
      forall x, y | 0 <= x < width && 0 <= y < height ensures drawn.rows[y][x] == after.rows[y][x] {
        OneMoreRegion(d, damage, i, x, y);
      }
      FilledAlike(drawn, after);
    }
    assert damage[..|damage|] == damage;
  }

  /** One region of the canvas, reset to the window's colour and drawn again. */
  function DrawRegion(p: Painter, s: Scene, d: Display, canvas: Canvas, region: Region): Canvas
    requires canvas.Sized()
  {
    Filled(canvas.width, canvas.height,
           (x, y) => if region.Contains(x, y) then Pixel(p, s, d, x, y)
                     else if canvas.Has(x, y) then canvas.rows[y][x] else WHITE)
  }

  lemma NoRegions(d: Display)
    ensures forall x, y :: !InRegions(d, [], x, y)
  {
  }

  lemma OneMoreRegion(d: Display, damage: seq<Rect>, i: nat, x: int, y: int)
    requires i < |damage|
    ensures InRegions(d, damage[..i + 1], x, y) <==>
      InRegions(d, damage[..i], x, y) || RegionOf(d, damage[i]).Contains(x, y)
  {
    if RegionOf(d, damage[i]).Contains(x, y) { assert damage[..i + 1][i] == damage[i]; }
    if InRegions(d, damage[..i], x, y) {
      var k :| 0 <= k < i && RegionOf(d, damage[..i][k]).Contains(x, y);
      assert damage[..i + 1][k] == damage[..i][k];
    }
    if InRegions(d, damage[..i + 1], x, y) {
      var k :| 0 <= k < i + 1 && RegionOf(d, damage[..i + 1][k]).Contains(x, y);
      assert k < i ==> damage[..i][k] == damage[..i + 1][k];
    }
  }

  /** A frame handed over: the compositor takes the damaged regions of the canvas, one by one, or all of it. */
  method Present(d: Display, shown: Canvas, canvas: Canvas, damage: Option<seq<Rect>>) returns (now: Canvas)
    requires shown.Sized() && canvas.Sized()
    ensures now == Presented(d, shown, canvas, damage)
  {
    hide RegionOf, InRegions;
    if PresentsWhole(shown, canvas, damage) { return canvas; }
    now := shown;
    NoRegions(d);
    FilledAlike(now, Uploaded(d, shown, canvas, []));
    for i := 0 to |damage.value|
      invariant now == Uploaded(d, shown, canvas, damage.value[..i])
    {
      ghost var after := Uploaded(d, shown, canvas, damage.value[..i + 1]);
      now := Copied(now, canvas, RegionOf(d, damage.value[i]));
      forall x, y | canvas.Has(x, y) ensures now.rows[y][x] == after.rows[y][x] {
        OneMoreRegion(d, damage.value, i, x, y);
      }
      FilledAlike(now, after);
    }
    assert damage.value[..|damage.value|] == damage.value;
  }

  /** One region of what is shown, as the canvas has it. */
  function Copied(shown: Canvas, canvas: Canvas, region: Region): Canvas
    requires shown.Sized() && canvas.Sized() && shown.width == canvas.width && shown.height == canvas.height
  {
    Filled(canvas.width, canvas.height,
           (x, y) => if !canvas.Has(x, y) then WHITE
                     else if region.Contains(x, y) then canvas.rows[y][x] else shown.rows[y][x])
  }

  predicate Blank(canvas: Canvas) { canvas.width == 0 || canvas.height == 0 }

  lemma WholeLooks(p: Painter, s: Scene, d: Display, shades: Shades)
    requires d.width > 0 && d.height > 0
    ensures Mosaic(p, s, d, shades) == FullDraw(p, s, d) <==> LooksWhole(p, s, d, shades)
    ensures FullDraw(p, s, d) == Mosaic(p, s, d, Evenly(Current(d))) && !Blank(FullDraw(p, s, d))
  {
    hide PixelOn, Mosaic;
    SomePixels(d.width, d.scale120);
    SomePixels(d.height, d.scale120);
    MosaicIsWhole(p, s, d, shades);
  }

  /** Whether every pixel was drawn over one background. */
  ghost predicate OnBackground(d: Display, background: Color, shades: Shades) {
    forall x, y :: OnCanvas(d, x, y) ==> shades(x, y).background == background
  }

  lemma EvenBackground(d: Display)
    ensures OnBackground(d, d.background, Evenly(Current(d)))
  {
  }

  lemma SameBackground(before: Display, d: Display, background: Color, shades: Shades)
    requires before.width == d.width && before.height == d.height && before.scale120 == d.scale120
    ensures OnBackground(before, background, shades) == OnBackground(d, background, shades)
  {
  }

  lemma RenewedAt(d: Display, damage: seq<Rect>, kept: Shades, x: int, y: int)
    ensures Renewed(d, damage, kept)(x, y) == if InRegions(d, damage, x, y) then Current(d) else kept(x, y)
  {
  }

  lemma RenewedBackground(p: Painter, was: Scene, before: Display, now: Scene, d: Display, kept: Shades,
      damage: seq<Rect>)
    requires Continues(p, was, now) && Compared(p, was, now) && before.scale120 == d.scale120
    requires d.width > 0 && d.height > 0 && WholePixels(d)
    requires Reduces(damage, Changed(p, was, before, now, d), Window(d)) && OnBackground(before, d.background, kept)
    ensures OnBackground(d, d.background, Renewed(d, damage, kept))
  {
    hide Continues, Compared, Reduces, Changed, WholePixels, InRegions, Renewed;
    forall x, y | OnCanvas(d, x, y) ensures Renewed(d, damage, kept)(x, y).background == d.background {
      RenewedAt(d, damage, kept, x, y);
      if !InRegions(d, damage, x, y) {
        UntouchedPixel(p, was, before, now, d, damage, x, y);
      }
    }
  }

  // A frame's canvas and what is shown of it, as mosaics.

  /** The canvas after a frame: drawn whole without damage or when empty, else where it is damaged. */
  function CanvasAfter(p: Painter, s: Scene, d: Display, canvas: Canvas, damage: Option<seq<Rect>>): (after: Canvas)
    requires canvas.Sized()
    ensures after.Sized()
  {
    if damage.None? || Blank(canvas) then FullDraw(p, s, d) else DamagedDraw(p, s, d, canvas, damage.value)
  }

  /** What each pixel of it was drawn with. */
  function KeptAfter(d: Display, canvas: Canvas, kept: Shades, damage: Option<seq<Rect>>): Shades {
    if damage.None? || Blank(canvas) then Evenly(Current(d)) else Renewed(d, damage.value, kept)
  }

  /** What each pixel shown was drawn with once it was handed over. */
  function ToldAfter(d: Display, shown: Canvas, told: Shades, canvas: Canvas, kept: Shades, damage: Option<seq<Rect>>)
    : Shades
  {
    if PresentsWhole(shown, canvas, damage) then kept else Taken(d, damage.value, told, kept)
  }

  lemma DrawnMosaics(
    p: Painter, was: Scene, before: Display, now: Scene, d: Display, canvas: Canvas, kept: Shades, told: Shades,
    damage: seq<Rect>)
    requires Continues(p, was, now) && Compared(p, was, now) && before.scale120 == d.scale120
    requires d.width > 0 && d.height > 0 && WholePixels(d)
    requires Reduces(damage, Changed(p, was, before, now, d), Window(d))
    requires canvas == EMPTY || (canvas == Mosaic(p, was, before, kept) && OnBackground(before, d.background, kept))
    ensures var after := CanvasAfter(p, now, d, canvas, Some(damage));
            var shades := KeptAfter(d, canvas, kept, Some(damage));
            after == Mosaic(p, now, d, shades) && OnBackground(d, d.background, shades) &&
            var shown := Mosaic(p, was, before, told);
            Presented(d, shown, after, Some(damage)) ==
              Mosaic(p, now, d, ToldAfter(d, shown, told, after, shades, Some(damage)))
  {
    hide Continues, Compared, Reduces, Changed, WholePixels, Mosaic, Renewed, Taken, OnBackground, FullDraw,
      DamagedDraw, Current, Evenly, InRegions;
    WholeLooks(p, now, d, kept);
    EvenBackground(d);
    if !Blank(canvas) {
      RenewedMosaic(p, was, before, now, d, kept, damage);
      RenewedBackground(p, was, before, now, d, kept, damage);
    }
    TakenMosaic(p, was, before, now, d, told, KeptAfter(d, canvas, kept, Some(damage)), damage);
  }

  lemma AnewMosaics(p: Painter, s: Scene, d: Display, canvas: Canvas, kept: Shades, shown: Canvas, told: Shades)
    requires d.width > 0 && d.height > 0 && canvas.Sized() && shown.Sized()
    ensures var after, shades := FullDraw(p, s, d), KeptAfter(d, canvas, kept, None);
            after == CanvasAfter(p, s, d, canvas, None) == Mosaic(p, s, d, shades) ==
              Presented(d, shown, after, None) &&
            OnBackground(d, d.background, shades) && ToldAfter(d, shown, told, after, shades, None) == shades
  {
    WholeLooks(p, s, d, kept);
    EvenBackground(d);
  }

  lemma DrawnAfter(p: Painter, s: Scene, d: Display, canvas: Canvas, damage: seq<Rect>)
    requires canvas.Sized()
    ensures CanvasAfter(p, s, d, canvas, Some(damage)) ==
      if Blank(canvas) then FullDraw(p, s, d) else DamagedDraw(p, s, d, canvas, damage)
  {
  }

  lemma TreesDistinct(p: Painter, was: Scene, now: Scene)
    requires Continues(p, was, now)
    ensures DistinctAll(now.roots)
  {
  }

  /** What is kept of the damage is nothing exactly when none of it is in the window. */
  lemma NothingKept(all: set<Rect>, window: Rect, damage: seq<Rect>)
    requires Reduces(damage, all, window)
    ensures damage == [] <==> Clipped(all, window) == {}
  {
    if damage == [] { assert Elements(damage) == {}; } else { assert damage[0] in Elements(damage); }
  }

  /** A frame as `Frame` leaves it, on the background there was and with no shadow left behind, is a step of a run. */
  lemma StepFollows(p: Painter, before: Shot, after: Shot, drawn: bool, damage: Option<seq<Rect>>)
    requires Continues(p, before.scene, after.scene) && Compared(p, before.scene, after.scene)
    requires before.canvas.Sized() && before.shown.Sized() && !Blank(before.canvas)
    requires var d := after.display;
             d.width > 0 && d.height > 0 && WholePixels(d) && d.background == before.display.background
    requires damage.Some? ==>
               before.display.scale120 == after.display.scale120 &&
               Reduces(damage.value, Changed(p, before.scene, before.display, after.scene, after.display),
                       Window(after.display)) &&
               ShadowsKept(p, after.scene, before.display, after.display, damage.value)
    requires if drawn then
               after.canvas == CanvasAfter(p, after.scene, after.display, before.canvas, damage) &&
               after.shown == Presented(after.display, before.shown, after.canvas, damage)
             else
               damage == Some([]) && before.display == after.display &&
               after.canvas == before.canvas && after.shown == before.shown
    ensures Follows(p, before, after)
  {
    hide Continues, Compared, Reduces, Changed, ShadowsKept, WholePixels, FullDraw, DamagedDraw, Window;
    if drawn && damage.Some? {
      assert Reuses(p, before, after, damage.value);
    }
  }

  class HostWindow {
    const painter: Painter
    const windowDamage: WindowDamage
    var canvas: Canvas
    /** What the compositor has of the window. */
    var shown: Canvas
    var background: Color
    var painterChanged: bool
    /** What each pixel of the canvas was drawn with. */
    ghost var kept: Shades
    /** What each pixel shown was drawn with. */
    ghost var told: Shades

    ghost predicate Valid()
      reads this, windowDamage
    {
      windowDamage.Valid() && windowDamage.painter == painter && canvas.Sized() && shown.Sized() &&
      (windowDamage.display.Some? ==>
         shown == Mosaic(painter, windowDamage.scene, windowDamage.display.value, told)) &&
      (canvas == EMPTY ||
       (windowDamage.display.Some? &&
        canvas == Mosaic(painter, windowDamage.scene, windowDamage.display.value, kept) &&
        OnBackground(windowDamage.display.value, background, kept)))
    }

    constructor (p: Painter, color: Color)
      ensures Valid() && painter == p && background == color && canvas == EMPTY && shown == EMPTY && !painterChanged
      ensures fresh(windowDamage) && windowDamage.display == None && windowDamage.scene == Scene([], 0.0, 0.0)
    {
      painter, background, canvas, shown, painterChanged := p, color, EMPTY, EMPTY, false;
      kept, told := Evenly(Shade(color, 0)), Evenly(Shade(color, 0));
      windowDamage := new WindowDamage(p);
    }

    /** The window's theme changed: the frame kept is thrown away. */
    method ChangeAppearance(color: Color)
      requires Valid()
      modifies this
      ensures Valid() && canvas == EMPTY && shown == old(shown) && told == old(told) && background == color
      ensures painterChanged == old(painterChanged)
    {
      background, canvas := color, EMPTY;
    }

    /** The compositor takes frames painted otherwise from now on: the next is drawn whole. */
    method ChangePainter()
      requires Valid()
      modifies this`painterChanged
      ensures Valid() && painterChanged
    {
      painterChanged := true;
    }

    /** Whether a frame may be skipped: nothing in the window changed, and the compositor waits for none. */
    ghost predicate Skips(next: Scene, d: Display, answered: bool)
      reads this, windowDamage
    {
      answered && !painterChanged && windowDamage.display.Some? && windowDamage.display.value.scale120 == d.scale120 &&
      Clipped(Changed(painter, windowDamage.scene, windowDamage.display.value, next, d), Window(d)) == {}
    }

    /** A frame drawn, from its damage or whole, and handed over. */
    method Draw(ghost was: Scene, ghost before: Option<Display>, next: Scene, d: Display, damage: Option<seq<Rect>>)
      requires canvas.Sized() && shown.Sized() && d.width > 0 && d.height > 0 && WholePixels(d)
      requires Continues(painter, was, next) && Compared(painter, was, next) && d.background == background
      requires damage.Some? ==>
        before.Some? && before.value.scale120 == d.scale120 &&
        Reduces(damage.value, Changed(painter, was, before.value, next, d), Window(d)) &&
        shown == Mosaic(painter, was, before.value, told) &&
        (canvas == EMPTY ||
         (canvas == Mosaic(painter, was, before.value, kept) && OnBackground(before.value, background, kept)))
      modifies this`canvas, this`shown, this`kept, this`told
      ensures canvas == CanvasAfter(painter, next, d, old(canvas), damage)
      ensures kept == KeptAfter(d, old(canvas), old(kept), damage)
      ensures shown == Presented(d, old(shown), canvas, damage)
      ensures told == ToldAfter(d, old(shown), old(told), canvas, kept, damage)
      ensures canvas == Mosaic(painter, next, d, kept) && shown == Mosaic(painter, next, d, told)
      ensures OnBackground(d, background, kept)
    {
      hide Reduces, FullDraw, DamagedDraw, Continues, Compared, Window, WholePixels, Mosaic, Renewed, Taken, Presented,
        OnBackground, Changed, CanvasAfter, KeptAfter, ToldAfter, Current, Evenly, Blank;
      ghost var shades: Shades := KeptAfter(d, canvas, kept, damage);
      ghost var after := CanvasAfter(painter, next, d, canvas, damage);
      ghost var taken: Shades := ToldAfter(d, shown, told, after, shades, damage);
      if damage.Some? {
        DrawnMosaics(painter, was, before.value, next, d, canvas, kept, told, damage.value);
        DrawnAfter(painter, next, d, canvas, damage.value);
        canvas := DrawDamaged(painter, next, d, canvas, damage.value);
      } else {
        AnewMosaics(painter, next, d, canvas, kept, shown, told);
        canvas := FullDraw(painter, next, d);
      }
      shown := Present(d, shown, canvas, damage);
      kept, told := shades, taken;
    }

    /**
     One frame of the loop. `answered`: the compositor's last configure, its size with it, was answered by a frame.
     `damage` is what it was drawn from and handed over as, none for all of it.
     */
    method Frame(next: Scene, width: nat, height: nat, scale120: Scale, answered: bool)
      returns (drawn: bool, ghost damage: Option<seq<Rect>>)
      requires Valid() && width > 0 && height > 0 && WholePixels(Display(width, height, scale120, background))
      requires Continues(painter, windowDamage.scene, next) && Compared(painter, windowDamage.scene, next)
      requires answered && windowDamage.display.Some? ==>
        windowDamage.display.value.width == width && windowDamage.display.value.height == height
      modifies this, windowDamage
      ensures Valid() && windowDamage.scene == next && background == old(background) && !painterChanged
      ensures windowDamage.display == Some(Display(width, height, scale120, background))
      ensures damage.None? <==>
        old(painterChanged || windowDamage.display.None? || windowDamage.display.value.scale120 != scale120)
      ensures damage.Some? ==>
        var d := Display(width, height, scale120, background);
        Reduces(damage.value, old(Changed(painter, windowDamage.scene, windowDamage.display.value, next, d)), Window(d))
      // A frame is drawn unless nothing in the window changed: its background is not looked at.
      ensures drawn <==> !old(Skips(next, Display(width, height, scale120, background), answered))
      ensures !drawn ==> canvas == old(canvas) && kept == old(kept) && shown == old(shown) && told == old(told)
      // Drawn, it is whole on a new canvas and else where it is damaged, and shown where it is damaged.
      ensures drawn ==>
        var d := Display(width, height, scale120, background);
        canvas == CanvasAfter(painter, next, d, old(canvas), damage) &&
        kept == KeptAfter(d, old(canvas), old(kept), damage) && shown == Presented(d, old(shown), canvas, damage) &&
        told == ToldAfter(d, old(shown), old(told), canvas, kept, damage)
      // So either is the frame drawn whole exactly when each pixel looks the same with what it was drawn with last.
      ensures var d := Display(width, height, scale120, background);
              (shown == FullDraw(painter, next, d) <==> LooksWhole(painter, next, d, told)) &&
              (canvas == FullDraw(painter, next, d) <==> canvas != EMPTY && LooksWhole(painter, next, d, kept))
    {
      hide Reduces, FullDraw, DamagedDraw, Continues, Compared, Clipped, LooksWhole, Window, WholePixels, Mosaic,
        Renewed, Taken, Presented, OnBackground, FrameDamage, Gained, PlacesIn, CanvasAfter, KeptAfter, ToldAfter,
        Current, Evenly, Blank;
      TreesDistinct(painter, windowDamage.scene, next);
      var d := Display(width, height, scale120, background);
      ghost var was, before := windowDamage.scene, windowDamage.display;
      var found := windowDamage.Update(next, d);
      if found.Some? {
        NothingKept(Changed(painter, was, before.value, next, d), Window(d), found.value);
      }
      if painterChanged { found := None; }
      damage, painterChanged := found, false;
      if found == Some([]) && answered {
        drawn := false;
        UndrawnMosaic(painter, was, before.value, next, d, kept);
        UndrawnMosaic(painter, was, before.value, next, d, told);
        SameBackground(before.value, d, background, kept);
      } else {
        Draw(was, before, next, d, found);
        drawn := true;
      }
      WholeLooks(painter, next, d, told);
      WholeLooks(painter, next, d, kept);
    }
  }
}
