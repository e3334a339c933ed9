/** A theme change: what the window shows of the frames after it. */
module Themes {
  import opened Geometry
  import opened Optional
  import opened Painter
  import opened Damage
  import opened Frames
  import opened WindowDamages
  import opened Elevations
  import opened Canvases
  import opened HostWindows
  import Limits = DamageLimits

  /**
   After a theme change the canvas is drawn whole and only the damage handed over: what is shown is right exactly when
   all of it was, or the backgrounds are one, or every pixel left looks the same on both.
   */
  lemma PresentedExactly(
    p: Painter, was: Scene, before: Display, now: Scene, d: Display, color: Color, damage: seq<Rect>)
    requires Continues(p, was, now) && Compared(p, was, now) && before.scale120 == d.scale120
    requires d.width > 0 && d.height > 0 && WholePixels(d)
    requires Reduces(damage, Changed(p, was, before, now, d), Window(d))
    ensures var shown, canvas := FullDraw(p, was, before.(background := color)), FullDraw(p, now, d);
            Presented(d, shown, canvas, Some(damage)) == canvas <==>
              PresentsWhole(shown, canvas, Some(damage)) || color == d.background ||
              forall x, y :: OnCanvas(d, x, y) && !InRegions(d, damage, x, y) ==>
                PixelOn(p, now, d, Shade(color, Current(d).width), x, y) == Pixel(p, now, d, x, y)
  {
    hide Continues, Compared, Reduces, FrameDamage, PlacesIn, WholePixels, InRegions, DrawScene;
    var told, kept := Evenly(Current(before.(background := color))), Evenly(Current(d));
    var shown, canvas := FullDraw(p, was, before.(background := color)), FullDraw(p, now, d);
    if !PresentsWhole(shown, canvas, Some(damage)) {
      TakenMosaic(p, was, before.(background := color), now, d, told, kept, damage);
      MosaicIsWhole(p, now, d, Taken(d, damage, told, kept));
      assert forall x, y :: told(x, y) == Shade(color, Current(d).width);
      assert forall x, y :: Taken(d, damage, told, kept)(x, y) ==
                            if InRegions(d, damage, x, y) then Current(d) else Shade(color, Current(d).width);
    }
  }

  /** For everyone who reads props alike: exactly when all was handed over, or the backgrounds are one. */
  lemma ThemeShownExactly(
    p: Painter, was: Scene, before: Display, now: Scene, d: Display, color: Color, damage: seq<Rect>)
    requires Continues(p, was, now) && Compared(p, was, now) && before.scale120 == d.scale120
    requires d.width > 0 && d.height > 0 && WholePixels(d)
    requires Reduces(damage, Changed(p, was, before, now, d), Window(d))
    ensures (forall q :: ReadsAlike(p, q) ==>
               Presented(d, FullDraw(q, was, before.(background := color)), FullDraw(q, now, d), Some(damage)) ==
               FullDraw(q, now, d)) <==>
            damage == [] || color == d.background || Current(before).width != Current(d).width ||
            Pixels(before.height, before.scale120) != Pixels(d.height, d.scale120) ||
            forall x, y :: OnCanvas(d, x, y) ==> InRegions(d, damage, x, y)
  {
    hide Continues, Compared, Reduces, Changed, WholePixels, InRegions, DrawScene;
    forall q | ReadsAlike(p, q)
      ensures var shown, canvas := FullDraw(q, was, before.(background := color)), FullDraw(q, now, d);
              Presented(d, shown, canvas, Some(damage)) == canvas <==>
                PresentsWhole(shown, canvas, Some(damage)) || color == d.background ||
                forall x, y :: OnCanvas(d, x, y) && !InRegions(d, damage, x, y) ==>
                  PixelOn(q, now, d, Shade(color, Current(d).width), x, y) == Pixel(q, now, d, x, y)
    {
      ChangedAlike(p, q, was, before, now, d);
      PresentedExactly(q, was, before, now, d, color, damage);
    }
    var q := Tracing(p, false);
    forall x, y, shade ensures PixelOn(q, now, d, shade, x, y) == shade.background {
      BareDrawn(p, shade.width, now, Cell(d, x, y), shade.background);
    }
    assert ReadsAlike(p, q);
  }

  lemma BareDrawn(p: Painter, w: nat, s: Scene, cell: Rect, background: Color)
    ensures DrawScene(On(Tracing(p, false), w), s, cell, background) == background
  {
    TracingDrawsAll(p, false, w, s.roots, s.x, s.y, 1.0, 1.0, cell, background);
  }

  // A theme changed: what is shown of the next frame.

  lemma BareScene(p: Painter, s: Scene)
    requires s == Scene([], 0.0, 0.0)
    ensures PlacesIn(p, s) == map[] && Continues(p, s, s) && Compared(p, s, s)
    ensures forall d, shade, x, y :: PixelOn(p, s, d, shade, x, y) == shade.background
  {
  }

  /** An empty window shown, and its theme changed since. */
  method ThemeChanged(p: Painter, light: Color, dark: Color, width: nat, height: nat, scale120: Scale)
    returns (host: HostWindow)
    requires width > 0 && height > 0 && WholePixels(Display(width, height, scale120, light))
    ensures fresh(host) && fresh(host.windowDamage) && host.Valid() && host.painter == p && !host.painterChanged
    ensures host.canvas == EMPTY && host.background == dark && host.windowDamage.scene == Scene([], 0.0, 0.0)
    ensures var d := Display(width, height, scale120, light);
            host.windowDamage.display == Some(d) && host.told == Evenly(Current(d))
  {
    var s := Scene([], 0.0, 0.0);
    BareScene(p, s);
    host := new HostWindow(p, light);
    var first, damage := host.Frame(s, width, height, scale120, false);
    host.ChangeAppearance(dark);
  }

  lemma NothingChanged(p: Painter, s: Scene, before: Display, d: Display)
    requires before.width == d.width && before.height == d.height
    ensures Clipped(Changed(p, s, before, s, d), Window(d)) == {}
  {
    UnchangedIsUndamaged(p, PlacesIn(p, s));
  }

  lemma OtherBackground(p: Painter, s: Scene, d: Display, other: Color)
    requires s == Scene([], 0.0, 0.0) && d.width > 0 && d.height > 0 && other != d.background
    ensures var before := d.(background := other);
            Mosaic(p, s, before, Evenly(Current(before))) == FullDraw(p, s, before) != FullDraw(p, s, d)
  {
    BareScene(p, s);
    SomePixels(d.width, d.scale120);
    SomePixels(d.height, d.scale120);
    assert OnCanvas(d, 0, 0) && FullDraw(p, s, d).rows[0][0] == d.background;
    assert FullDraw(p, s, d.(background := other)).rows[0][0] == other;
  }

  /** Its frame asked for: the window is still what it was, though no pixel of it is right. */
  method ThemeUnseen(p: Painter, light: Color, dark: Color, width: nat, height: nat, scale120: Scale)
    returns (host: HostWindow, drawn: bool)
    requires light != dark && width > 0 && height > 0 && WholePixels(Display(width, height, scale120, light))
    ensures host.Valid() && host.background == dark && !drawn
    ensures host.windowDamage.display == Some(Display(width, height, scale120, dark))
    ensures var s := host.windowDamage.scene;
            host.shown == FullDraw(p, s, Display(width, height, scale120, light)) &&
            host.shown != FullDraw(p, s, Display(width, height, scale120, dark))
  {
    hide FullDraw, Mosaic, LooksWhole, PixelOn, Pixels, Changed, Clipped, Reduces, Window, Evenly, Current,
      OnBackground, CanvasAfter, KeptAfter, ToldAfter, Presented, Continues, Compared;
    var s, d := Scene([], 0.0, 0.0), Display(width, height, scale120, dark);
    BareScene(p, s);
    NothingChanged(p, s, d.(background := light), d);
    OtherBackground(p, s, d, light);
    host := ThemeChanged(p, light, dark, width, height, scale120);
    ghost var damage;
    drawn, damage := host.Frame(s, width, height, scale120, true);
  }

  /** A pixel away from the one rectangle damaged is in no region. */
  lemma OutsideRegions(r: Rect, d: Display, damage: seq<Rect>, x: int, y: int)
    requires OnCanvas(d, x, y) && !Overlap(r, Cell(d, x, y)) && Reduces(damage, {r}, Window(d))
    ensures !InRegions(d, damage, x, y)
  {
    hide RegionOf, Cell, Window;
    ClippedGrows({}, r, Window(d));
    assert Clipped({}, Window(d)) == {} && {} + {r} == {r};
    assert |Clipped({r}, Window(d))| <= 1 && Elements(damage) == Clipped({r}, Window(d));
    forall i | 0 <= i < |damage| ensures !RegionOf(d, damage[i]).Contains(x, y) {
      assert damage[i] in Elements(damage);
      ReducedInWindow(damage, {r}, Window(d));
      ApartWithin(r, Window(d), Cell(d, x, y));
      RegionIsOverlap(d, damage[i], x, y);
    }
  }

  lemma ApartWithin(r: Rect, window: Rect, cell: Rect)
    requires !Overlap(r, cell)
    ensures !Overlap(Intersect(r, window), cell)
  {
  }

  /** A view alone leaves the pixels away from it to the background. */
  lemma LeafAway(p: Painter, n: Node, d: Display, shade: Shade, x: int, y: int)
    requires !OwnSurface(n.component) && !Overlap(InkAt(p, n, 0.0, 0.0), Cell(d, x, y))
    ensures PixelOn(p, Limits.Leaf(n, 0.0, 0.0), d, shade, x, y) == shade.background
  {
    var q, t := On(p, shade.width), Tree(n, []);
    var content := ContentAt(q, n, 0.0, 0.0);
    assert ReachedAll(q, [], content.0, content.1) == {} == ReachedAll(q, [], 0.0, 0.0) && [t][1..] == [];
    assert InkAt(q, n, 0.0, 0.0) == InkAt(p, n, 0.0, 0.0);
    assert ReachedAll(q, [t], 0.0, 0.0) == {InkAt(p, n, 0.0, 0.0)};
    UnreachedDrawNothing(q, [t], 0.0, 0.0, 1.0, 1.0, Cell(d, x, y), shade.background);
  }

  /** What such a frame leaves: its damage alone handed over, of a canvas drawn whole. */
  lemma HalfTold(
    p: Painter, n: Node, before: Display, d: Display, shown: Canvas, canvas: Canvas, damage: seq<Rect>, x: int, y: int)
    requires before == d.(background := before.background) && d.width > 0 && d.height > 0 && canvas == EMPTY
    requires shown == Mosaic(p, Scene([], 0.0, 0.0), before, Evenly(Current(before)))
    requires !OwnSurface(n.component) && OnCanvas(d, x, y) && !Overlap(InkAt(p, n, 0.0, 0.0), Cell(d, x, y))
    requires Reduces(damage, {InkAt(p, n, 0.0, 0.0)}, Window(d)) && Overlap(InkAt(p, n, 0.0, 0.0), Window(d))
    ensures var s, kept := Limits.Leaf(n, 0.0, 0.0), Evenly(Current(d));
            var after := CanvasAfter(p, s, d, canvas, Some(damage));
            damage != [] && after == FullDraw(p, s, d) && KeptAfter(d, canvas, kept, Some(damage)) == kept &&
            after.rows[y][x] == d.background &&
            Presented(d, shown, after, Some(damage)).Has(x, y) &&
            Presented(d, shown, after, Some(damage)).rows[y][x] == before.background
  {
    hide Reduces, InRegions, PixelOn, Window, Overlap, Pixels;
    var s, after := Limits.Leaf(n, 0.0, 0.0), FullDraw(p, Limits.Leaf(n, 0.0, 0.0), d);
    OutsideRegions(InkAt(p, n, 0.0, 0.0), d, damage, x, y);
    NothingKept({InkAt(p, n, 0.0, 0.0)}, Window(d), damage);
    assert Intersect(InkAt(p, n, 0.0, 0.0), Window(d)) in Clipped({InkAt(p, n, 0.0, 0.0)}, Window(d)) by {
      OverlapMeets(InkAt(p, n, 0.0, 0.0), Window(d));
    }
    LeafAway(p, n, d, Current(d), x, y);
    BareScene(p, Scene([], 0.0, 0.0));
  }

  lemma OverlapMeets(a: Rect, b: Rect)
    ensures Overlap(a, b) == !Intersect(a, b).Empty()
  {
  }

  lemma SceneChanged(p: Painter, was: Scene, now: Scene, before: Display, d: Display, r: Rect)
    requires FrameDamage(p, PlacesIn(p, was), PlacesIn(p, now)) == {r} && before == d.(background := before.background)
    ensures Changed(p, was, before, now, d) == {r}
    ensures Overlap(r, Window(d)) ==> Clipped(Changed(p, was, before, now, d), Window(d)) != {}
  {
    if Overlap(r, Window(d)) {
      OverlapMeets(r, Window(d));
      assert Intersect(r, Window(d)) in Clipped(Changed(p, was, before, now, d), Window(d));
    }
  }

  /** A view appeared since, away from a pixel: the canvas is right, and the pixel is shown as it was. */
  method ThemeHalfSeen(
    p: Painter, n: Node, light: Color, dark: Color, width: nat, height: nat, scale120: Scale, x: int, y: int)
    returns (host: HostWindow, drawn: bool)
    requires light != dark && width > 0 && height > 0 && WholePixels(Display(width, height, scale120, light))
    requires !OwnSurface(n.component)
    requires var d, ink := Display(width, height, scale120, dark), InkAt(p, n, 0.0, 0.0);
             Overlap(ink, Window(d)) && OnCanvas(d, x, y) && !Overlap(ink, Cell(d, x, y))
    ensures host.Valid() && host.background == dark && drawn
    ensures var s, d := Limits.Leaf(n, 0.0, 0.0), Display(width, height, scale120, dark);
            host.windowDamage.scene == s && host.windowDamage.display == Some(d) &&
            host.canvas == FullDraw(p, s, d) && host.shown.Has(x, y) &&
            host.shown.rows[y][x] == light && host.canvas.rows[y][x] == dark
  {
    hide Continues, Compared, FrameDamage, Reduces, PixelOn, PlacesIn, Window, Overlap, Pixels, Mosaic,
      CanvasAfter, KeptAfter, ToldAfter, LooksWhole, Presented, Evenly, Current, FullDraw, Clipped;
    var s, d := Limits.Leaf(n, 0.0, 0.0), Display(width, height, scale120, dark);
    host := ThemeChanged(p, light, dark, width, height, scale120);
    Limits.AppearsAlone(p, n);
    SceneChanged(p, host.windowDamage.scene, s, d.(background := light), d, InkAt(p, n, 0.0, 0.0));
    ghost var damage;
    ghost var shown := host.shown;
    drawn, damage := host.Frame(s, width, height, scale120, true);
    HalfTold(p, n, d.(background := light), d, shown, EMPTY, damage.value, x, y);
  }
}
