/** A view's filter over what its children draw, and whether their damage is enough for it. */
module Filters {
  import opened Geometry
  import opened Painter
  import opened Damage
  import opened Frames
  import opened Elevations
  import opened Canvases
  import Limits = DamageLimits

  datatype Effect =
    | Blur(sigma: real)
    | DropShadow(dx: real, dy: real, deviation: real, color: int)
    | Recolour(matrix: int)
    | Unknown

  /** A layer, pixel by pixel. */
  type Image = (int, int) -> Color

  /** Skia's image filters: two of them read other pixels than the one they give. */
  datatype Skia = Skia(
    blurred: (real, Image, int, int) -> Color,
    moved: (real, real, Image, int, int) -> Color,
    tinted: (int, Color) -> Color,
    recoloured: (int, Color) -> Color,
    over: (Color, Color) -> Color)

  function Blurred(k: Skia, sigma: real, image: Image): Image {
    if sigma <= 0.5 then image else (x, y) => k.blurred(sigma, image, x, y)
  }

  function Offset(k: Skia, dx: real, dy: real, image: Image): Image {
    if dx == 0.0 && dy == 0.0 then image else (x, y) => k.moved(dx, dy, image, x, y)
  }

  function Shadowed(k: Skia, e: Effect, image: Image): Image
    requires e.DropShadow?
  {
    var moved := Offset(k, e.dx, e.dy, image);
    var shadow := Blurred(k, e.deviation, (x, y) => k.tinted(e.color, moved(x, y)));
    (x, y) => k.over(shadow(x, y), image(x, y))
  }

  function Applied(k: Skia, e: Effect, image: Image): Image {
    match e
    case Blur(sigma) => Blurred(k, sigma, image)
    case DropShadow(_, _, _, _) => Shadowed(k, e, image)
    case Recolour(matrix) => (x, y) => k.recoloured(matrix, image(x, y))
    case Unknown => image
  }

  /** A view's effects, each over what the ones before it give. */
  function Filtered(k: Skia, effects: seq<Effect>, image: Image): Image {
    if effects == [] then image else Filtered(k, effects[1..], Applied(k, effects[0], image))
  }

  method ViewFilter(k: Skia, effects: seq<Effect>, image: Image) returns (chain: Image)
    ensures chain == Filtered(k, effects, image)
  {
    chain := image;
    for i := 0 to |effects|
      invariant Filtered(k, effects[i..], chain) == Filtered(k, effects, image)
    {
      chain := Applied(k, effects[i], chain);
      assert effects[i..][1..] == effects[i + 1..];
    }
  }

  /** The effects that give a pixel something of others: a blur, or a shadow moved or blurred. */
  predicate Spreads(e: Effect) {
    (e.Blur? && e.sigma > 0.5) || (e.DropShadow? && (e.dx != 0.0 || e.dy != 0.0 || e.deviation > 0.5))
  }

  predicate AnySpreads(effects: seq<Effect>) { exists i :: 0 <= i < |effects| && Spreads(effects[i]) }

  /** What a filtered view's children draw in its layer. */
  function LayerOf(p: Painter, s: Scene, d: Display): Image {
    (x, y) => PixelOn(p, s, d, Shade(p.clear, Current(d).width), x, y)
  }

  /** Whether the children's damage is enough, whatever they are and whatever Skia makes of the effects. */
  ghost predicate FilterSuffices(d: Display, effects: seq<Effect>) {
    forall k, p, was, now, x, y ::
      Continues(p, was, now) && Compared(p, was, now) && OnCanvas(d, x, y) &&
      Clear(FrameDamage(p, PlacesIn(p, was), PlacesIn(p, now)), Cell(d, x, y)) ==>
        Filtered(k, effects, LayerOf(p, was, d))(x, y) == Filtered(k, effects, LayerOf(p, now, d))(x, y)
  }

  /** Effects that do not spread give a pixel what they give its colour. */
  lemma {:induction false} PixelAlone(k: Skia, effects: seq<Effect>, a: Image, b: Image, x: int, y: int)
    requires !AnySpreads(effects) && a(x, y) == b(x, y)
    ensures Filtered(k, effects, a)(x, y) == Filtered(k, effects, b)(x, y)
  {
    if effects != [] {
      assert !Spreads(effects[0]);
      assert Applied(k, effects[0], a)(x, y) == Applied(k, effects[0], b)(x, y);
      assert forall i :: 0 <= i < |effects| - 1 ==> effects[1..][i] == effects[i + 1];
      PixelAlone(k, effects[1..], Applied(k, effects[0], a), Applied(k, effects[0], b), x, y);
    }
  }

  /** A filter whose spreading effects show everywhere what is at the second pixel. */
  function Smearing(): Skia {
    Skia((_, image: Image, _, _) => image(1, 0), (_, _, image: Image, _, _) => image(1, 0), (_, color) => color,
         (_, color) => color, (shadow, _) => shadow)
  }

  lemma SmearedOnce(e: Effect, image: Image)
    ensures var smeared := Applied(Smearing(), e, image);
            smeared(1, 0) == image(1, 0) && smeared(0, 0) == if Spreads(e) then image(1, 0) else image(0, 0)
  {
  }

  lemma {:induction false} Smeared(effects: seq<Effect>, image: Image)
    ensures Filtered(Smearing(), effects, image)(0, 0) ==
      if AnySpreads(effects) then image(1, 0) else image(0, 0)
  {
    if effects != [] {
      SmearedOnce(effects[0], image);
      Smeared(effects[1..], Applied(Smearing(), effects[0], image));
      assert AnySpreads(effects) <==> Spreads(effects[0]) || AnySpreads(effects[1..]) by {
        assert forall i :: 0 <= i < |effects| - 1 ==> effects[1..][i] == effects[i + 1];
        if AnySpreads(effects[1..]) {
          var i :| 0 <= i < |effects[1..]| && Spreads(effects[1..][i]);
          assert Spreads(effects[i + 1]);
        }
      }
    }
  }

  /** A filtered view's children need only their own damage exactly when none of its effects spreads. */
  lemma FilterSufficesExactly(d: Display, effects: seq<Effect>)
    requires d.width > 0 && d.height > 0
    ensures FilterSuffices(d, effects) <==> !AnySpreads(effects)
  {
    if AnySpreads(effects) {
      SpreadFails(d, effects);
    } else {
      AloneSuffices(d, effects);
    }
  }

  lemma AloneSuffices(d: Display, effects: seq<Effect>)
    requires !AnySpreads(effects)
    ensures FilterSuffices(d, effects)
  {
    hide Continues, Compared, FrameDamage, PlacesIn, DrawScene, AnySpreads, Filtered, Cell;
    forall k, p, was, now, x, y |
      Continues(p, was, now) && Compared(p, was, now) && OnCanvas(d, x, y) &&
      Clear(FrameDamage(p, PlacesIn(p, was), PlacesIn(p, now)), Cell(d, x, y))
      ensures Filtered(k, effects, LayerOf(p, was, d))(x, y) == Filtered(k, effects, LayerOf(p, now, d))(x, y)
    {
      LayerAlike(p, was, now, d, x, y);
      PixelAlone(k, effects, LayerOf(p, was, d), LayerOf(p, now, d), x, y);
    }
  }

  lemma LayerAlike(p: Painter, was: Scene, now: Scene, d: Display, x: int, y: int)
    requires Continues(p, was, now) && Compared(p, was, now)
    requires Clear(FrameDamage(p, PlacesIn(p, was), PlacesIn(p, now)), Cell(d, x, y))
    ensures LayerOf(p, was, d)(x, y) == LayerOf(p, now, d)(x, y)
  {
    hide Continues, Compared, FrameDamage, PlacesIn, DrawScene;
    UndamagedAt(p, p, Current(d).width, was, now, Cell(d, x, y), p.clear);
  }

  /** A child that appears beside a pixel, under an effect that spreads: the pixel changes, undamaged. */
  lemma SpreadFails(d: Display, effects: seq<Effect>)
    requires d.width > 0 && d.height > 0 && AnySpreads(effects)
    ensures !FilterSuffices(d, effects)
  {
    hide Continues, Compared, FrameDamage, PlacesIn, AnySpreads, Filtered, Cell, LayerOf, PlainPainter, Smearing,
      Overlap;
    var p, n := PlainPainter(), PlainView(2, Cell(d, 1, 0), []).node;
    var was, now := Scene([], 0.0, 0.0), Limits.Leaf(n, 0.0, 0.0);
    Limits.AppearsAlone(p, n);
    BesideDrawn(d);
    SomePixels(d.width, d.scale120);
    SomePixels(d.height, d.scale120);
    Smeared(effects, LayerOf(p, was, d));
    Smeared(effects, LayerOf(p, now, d));
  }

  lemma BesideDrawn(d: Display)
    ensures var p, n := PlainPainter(), PlainView(2, Cell(d, 1, 0), []).node;
            !Overlap(InkAt(p, n, 0.0, 0.0), Cell(d, 0, 0)) &&
            LayerOf(p, Scene([], 0.0, 0.0), d)(1, 0) != LayerOf(p, Limits.Leaf(n, 0.0, 0.0), d)(1, 0)
  {
    hide Overlap, DrawViews, CastsAny, PlainPainter, Cell;
    var p, n := PlainPainter(), PlainView(2, Cell(d, 1, 0), []).node;
    PlainRead(n);
    CellsBeside(d);
    PlainCastsNothing(n, Cell(d, 1, 0));
    UncastSameAll(p, Current(d).width, 0, [Tree(n, [])], 0.0, 0.0, 1.0, 1.0, Cell(d, 1, 0), 0);
    DrawnOnce(p, 2, Cell(d, 1, 0), Cell(d, 1, 0), 0);
    assert DrawViews(On(p, Current(d).width), [], 0.0, 0.0, 1.0, 1.0, Cell(d, 1, 0), 0) == 0 by {
      NoneDrawn(On(p, Current(d).width), Cell(d, 1, 0));
    }
  }

  lemma {:induction false} NoneDrawn(p: Painter, cell: Rect)
    ensures DrawViews(p, [], 0.0, 0.0, 1.0, 1.0, cell, 0) == 0
  {
  }

  lemma PlainRead(n: Node)
    ensures var p := PlainPainter();
            On(p, 0) == p && p.clear == 0 && !Raised(p, n) &&
            (n.component.View? ==> InkAt(p, n, 0.0, 0.0) == n.layout.frame)
  {
  }

  lemma {:induction false} PlainCastsNothing(n: Node, cell: Rect)
    ensures !CastsAny(PlainPainter(), [Tree(n, [])], 0.0, 0.0, 1.0, cell)
  {
    hide PlainPainter, Overlap, ContentAt, Within, ChildrenShow, Raised, Faded;
    PlainRead(n);
    assert [Tree(n, [])][1..] == [];
    assert forall x, y, opacity :: !CastsAny(PlainPainter(), [], x, y, opacity, cell);
    assert !Casts(PlainPainter(), Tree(n, []), 0.0, 0.0, 1.0, cell);
  }

  lemma CellsBeside(d: Display)
    ensures Overlap(Cell(d, 1, 0), Cell(d, 1, 0)) && !Overlap(Cell(d, 1, 0), Cell(d, 0, 0))
  {
    EdgeSteps(0, d.scale120);
  }
}
