/**
 The window's frames: WindowDamage as the host keeps it, and the canvas it redraws only in part.
 */
module Frames {
  import opened Geometry
  import opened Optional
  import opened Painter
  import opened Damage

  const MAX_RECTS := 16

  // Pixels.

  type Scale = s: nat | s > 0 witness 120

  /** The window's logical size, its scale in 120ths, and the colour where its views draw nothing. */
  datatype Display = Display(width: nat, height: nat, scale120: Scale, background: Color)

  /** A length in whole pixels: ceil(logical * scale). */
  function Pixels(logical: nat, scale120: Scale): nat { (logical * scale120 + 119) / 120 }

  function Window(d: Display): Rect { Rect(0.0, 0.0, d.width as real, d.height as real) }

  /** Where a pixel's edge is, in logical pixels. */
  function Edge(q: int, scale120: Scale): real { (120 * q) as real / scale120 as real }

  function Cell(d: Display, x: int, y: int): Rect {
    Rect(Edge(x, d.scale120), Edge(y, d.scale120), 120.0 / d.scale120 as real, 120.0 / d.scale120 as real)
  }

  predicate OnCanvas(d: Display, x: int, y: int) {
    0 <= x < Pixels(d.width, d.scale120) && 0 <= y < Pixels(d.height, d.scale120)
  }

  /** The sizes that are whole pixels: no pixel of the canvas reaches past the window. */
  predicate WholePixels(d: Display) {
    (d.width * d.scale120) % 120 == 0 && (d.height * d.scale120) % 120 == 0
  }

  lemma EdgeSteps(q: int, scale120: Scale)
    ensures Edge(q + 1, scale120) == Edge(q, scale120) + 120.0 / scale120 as real
  {
    var s := scale120 as real;
    assert (120 * (q + 1)) as real == (120 * q) as real + 120.0;
    assert ((120 * q) as real + 120.0) / s == (120 * q) as real / s + 120.0 / s;
  }

  /** Edges compare as the whole numbers they are of. */
  lemma EdgeOrder(q: int, n: int, scale120: Scale)
    ensures Edge(q, scale120) <= n as real <==> 120 * q <= n * scale120
    ensures Edge(q, scale120) < n as real <==> 120 * q < n * scale120
  {
    var s := scale120 as real;
    assert Edge(q, scale120) * s == (120 * q) as real;
    assert (n * scale120) as real == n as real * s;
    if Edge(q, scale120) < n as real {
      assert Edge(q, scale120) * s < n as real * s;
    } else if Edge(q, scale120) > n as real {
      assert Edge(q, scale120) * s > n as real * s;
    }
  }

  lemma PixelsReach(logical: nat, scale120: Scale)
    ensures logical * scale120 <= 120 * Pixels(logical, scale120) < logical * scale120 + 120
    ensures 120 * Pixels(logical, scale120) == logical * scale120 <==> (logical * scale120) % 120 == 0
  {
  }

  /** The canvas's pixels all lie in the window exactly when its size is whole pixels. */
  lemma CellsInWindow(d: Display)
    requires d.width > 0 && d.height > 0
    ensures WholePixels(d) <==> forall x, y :: OnCanvas(d, x, y) ==> Inside(Cell(d, x, y), Window(d))
  {
    PixelsReach(d.width, d.scale120);
    PixelsReach(d.height, d.scale120);
    forall x, y | OnCanvas(d, x, y)
      ensures Inside(Cell(d, x, y), Window(d)) <==>
        120 * (x + 1) <= d.width * d.scale120 && 120 * (y + 1) <= d.height * d.scale120
    {
      EdgeOrder(x, 0, d.scale120);
      EdgeOrder(y, 0, d.scale120);
      EdgeSteps(x, d.scale120);
      EdgeSteps(y, d.scale120);
      EdgeOrder(x + 1, d.width, d.scale120);
      EdgeOrder(y + 1, d.height, d.scale120);
    }
    var right, bottom := Pixels(d.width, d.scale120) - 1, Pixels(d.height, d.scale120) - 1;
    assert d.width * d.scale120 > 0 && d.height * d.scale120 > 0;
    assert OnCanvas(d, right, bottom);
  }

  // Damage in pixels.

  /** A pixel range: x0 <= x < x1, y0 <= y < y1. */
  datatype Region = Region(x0: int, y0: int, x1: int, y1: int) {
    predicate Contains(x: int, y: int) { x0 <= x < x1 && y0 <= y < y1 }
  }

  function Grown(length: real, scale: real): real { length * scale }

  function Scaled(length: real, scale120: Scale): real { Grown(length, scale120 as real / 120.0) }

  function Ceil(a: real): int { -((-a).Floor) }

  /** A damaged rectangle in device pixels, rounded outward, within the canvas. */
  function RegionOf(d: Display, r: Rect): Region {
    var width, height := Pixels(d.width, d.scale120), Pixels(d.height, d.scale120);
    var left, right := Scaled(r.x, d.scale120).Floor, Ceil(Scaled(r.x + r.width, d.scale120));
    var top, bottom := Scaled(r.y, d.scale120).Floor, Ceil(Scaled(r.y + r.height, d.scale120));
    Region(if left < 0 then 0 else left, if top < 0 then 0 else top,
           if width < right then width else right, if height < bottom then height else bottom)
  }

  lemma GrownOrder(a: real, b: real, scale: real)
    requires a < b && scale > 0.0
    ensures Grown(a, scale) < Grown(b, scale)
  {
    assert (b - a) * scale > 0.0;
  }

  lemma EdgeScaled(q: int, scale120: Scale)
    ensures Scaled(Edge(q, scale120), scale120) == q as real
  {
    var s, edge := scale120 as real, Edge(q, scale120);
    assert edge * s == (120 * q) as real == 120.0 * q as real;
    assert edge * (s / 120.0) == edge * s / 120.0;
  }

  lemma ScaledOrder(length: real, q: int, scale120: Scale)
    ensures length < Edge(q, scale120) <==> Scaled(length, scale120) < q as real
    ensures Edge(q, scale120) < length <==> q as real < Scaled(length, scale120)
  {
    var edge := Edge(q, scale120);
    EdgeScaled(q, scale120);
    if length < edge {
      GrownOrder(length, edge, scale120 as real / 120.0);
    } else if length > edge {
      GrownOrder(edge, length, scale120 as real / 120.0);
    }
  }

  lemma SpanOverlaps(a: real, b: real, q: int, scale120: Scale)
    ensures Scaled(a, scale120).Floor <= q < Ceil(Scaled(b, scale120)) <==>
      a < Edge(q + 1, scale120) && Edge(q, scale120) < b
  {
    ScaledOrder(a, q + 1, scale120);
    ScaledOrder(b, q, scale120);
  }

  /** Rounding outward redraws exactly the pixels a rectangle overlaps. */
  lemma RegionIsOverlap(d: Display, r: Rect, x: int, y: int)
    requires !r.Empty() && OnCanvas(d, x, y)
    ensures RegionOf(d, r).Contains(x, y) <==> Overlap(r, Cell(d, x, y))
  {
    EdgeSteps(x, d.scale120);
    EdgeSteps(y, d.scale120);
    SpanOverlaps(r.x, r.MaxX(), x, d.scale120);
    SpanOverlaps(r.y, r.MaxY(), y, d.scale120);
  }

  // Reducing the damage.

  /** The damage within the window, empty rectangles gone. */
  function Clipped(damage: set<Rect>, window: Rect): set<Rect> {
    set r | r in damage && !Intersect(r, window).Empty() :: Intersect(r, window)
  }

  /** What `compare` returns of the damage: itself clipped, or the one rectangle holding it all. */
  ghost predicate Reduces(kept: seq<Rect>, damage: set<Rect>, window: Rect) {
    |kept| <= MAX_RECTS &&
    (forall i, j :: 0 <= i < j < |kept| ==> kept[i] != kept[j]) &&
    (Elements(kept) == Clipped(damage, window) ||
     (|Clipped(damage, window)| > MAX_RECTS && |kept| == 1 &&
      (forall r :: r in Clipped(damage, window) ==> Inside(r, kept[0])) &&
      (forall all :: (forall r :: r in Clipped(damage, window) ==> Inside(r, all)) ==> Inside(kept[0], all))))
  }

  function Elements(rects: seq<Rect>): set<Rect> { set r | r in rects }

  /** compare's last loop: what it keeps is `Reduces` of all the damage, in whatever order that was pushed. */
  method Reduce(damage: seq<Rect>, window: Rect) returns (kept: seq<Rect>)
    ensures Reduces(kept, Elements(damage), window)
  {
    kept := [];
    for i := 0 to |damage|
      invariant Elements(kept) == Clipped(Elements(damage[..i]), window)
      invariant forall i, j :: 0 <= i < j < |kept| ==> kept[i] != kept[j]
    {
      assert Elements(damage[..i + 1]) == Elements(damage[..i]) + {damage[i]};
      ClippedGrows(Elements(damage[..i]), damage[i], window);
      var within := Intersect(damage[i], window);
      if within.width <= 0.0 || within.height <= 0.0 { continue; }
      if within !in kept {
        ghost var before := kept;
        kept := kept + [within];
        assert Elements(kept) == Elements(before) + {within};
      }
    }
    assert damage[..|damage|] == damage;
    if |kept| > MAX_RECTS {
      NoRepeatsCount(kept);
      var all := Bounding(kept);
      kept := [all];
    }
  }

  lemma ClippedGrows(damage: set<Rect>, r: Rect, window: Rect)
    ensures Clipped(damage + {r}, window) ==
              Clipped(damage, window) + if Intersect(r, window).Empty() then {} else {Intersect(r, window)}
  {
  }

  lemma {:induction false} NoRepeatsCount(rects: seq<Rect>)
    requires forall i, j :: 0 <= i < j < |rects| ==> rects[i] != rects[j]
    ensures |Elements(rects)| == |rects|
  {
    if rects != [] {
      NoRepeatsCount(rects[1..]);
      assert Elements(rects) == {rects[0]} + Elements(rects[1..]);
    }
  }

  /** Nothing the reduction drops was damage at a pixel that lies in the window. */
  lemma ReducedCovers(kept: seq<Rect>, damage: set<Rect>, window: Rect, cell: Rect)
    requires Reduces(kept, damage, window) && Inside(cell, window) && !Clear(damage, cell)
    ensures !Clear(Elements(kept), cell)
  {
    var r :| r in damage && Overlap(r, cell);
    var within := Intersect(r, window);
    OverlapInWindow(r, window, cell);
    assert within in Clipped(damage, window);
    if Elements(kept) != Clipped(damage, window) {
      OverlapGrows(within, kept[0], cell);
      assert kept[0] in Elements(kept);
    }
  }

  /** Every rectangle kept is inside the window and holds an area. */
  lemma ReducedInWindow(kept: seq<Rect>, damage: set<Rect>, window: Rect)
    requires Reduces(kept, damage, window)
    ensures forall r :: r in kept ==> Inside(r, window) && !r.Empty()
  {
    forall r | r in kept ensures Inside(r, window) && !r.Empty() {
      if Elements(kept) == Clipped(damage, window) {
        assert r in Elements(kept);
      } else {
        assert r == kept[0];
        assert forall c :: c in Clipped(damage, window) ==> Inside(c, window);
        var c :| c in Clipped(damage, window);
        assert Inside(c, r);
      }
    }
  }

  // Damage is enough exactly where pixels are whole.

  /** Whether, at this size, a frame drawn from its damage is always the frame drawn whole. */
  ghost predicate DamageSuffices(d: Display) {
    forall p, was, now, kept, x, y ::
      Continues(p, was, now) && Compared(p, was, now) && OnCanvas(d, x, y) &&
      Reduces(kept, FrameDamage(p, PlacesIn(p, was), PlacesIn(p, now)), Window(d)) &&
      Clear(Elements(kept), Cell(d, x, y)) ==>
        DrawScene(p, was, Cell(d, x, y), d.background) == DrawScene(p, now, Cell(d, x, y), d.background)
  }

  /** A pixel of the canvas nothing kept reaches is one nothing damaged reaches. */
  lemma UnkeptUndamaged(d: Display, p: Painter, was: Scene, now: Scene, kept: seq<Rect>, x: int, y: int)
    requires Continues(p, was, now) && Compared(p, was, now) && Inside(Cell(d, x, y), Window(d))
    requires Reduces(kept, FrameDamage(p, PlacesIn(p, was), PlacesIn(p, now)), Window(d))
    requires Clear(Elements(kept), Cell(d, x, y)) && !Cell(d, x, y).Empty()
    ensures DrawScene(p, was, Cell(d, x, y), d.background) == DrawScene(p, now, Cell(d, x, y), d.background)
  {
    hide Continues, Compared, Reduces, FrameDamage, PlacesIn, DrawScene, Cell, Window, Elements;
    if !Clear(FrameDamage(p, PlacesIn(p, was), PlacesIn(p, now)), Cell(d, x, y)) {
      ReducedCovers(kept, FrameDamage(p, PlacesIn(p, was), PlacesIn(p, now)), Window(d), Cell(d, x, y));
    }
    CellUndamaged(p, was, now, Cell(d, x, y), d.background);
  }

  lemma WholePixelsSuffice(d: Display)
    requires d.width > 0 && d.height > 0 && WholePixels(d)
    ensures DamageSuffices(d)
  {
    hide Continues, Compared, Reduces, FrameDamage, PlacesIn, DrawScene, Window, Elements, Clear;
    CellsInWindow(d);
    forall p, was, now, kept, x, y |
      Continues(p, was, now) && Compared(p, was, now) && OnCanvas(d, x, y) &&
      Reduces(kept, FrameDamage(p, PlacesIn(p, was), PlacesIn(p, now)), Window(d)) &&
      Clear(Elements(kept), Cell(d, x, y))
      ensures DrawScene(p, was, Cell(d, x, y), d.background) == DrawScene(p, now, Cell(d, x, y), d.background)
    {
      UnkeptUndamaged(d, p, was, now, kept, x, y);
    }
  }

  // A view appearing past the window's edge, where its last pixels reach.

  /** A painter of plain fills: each counts one more colour. */
  function PlainPainter(): Painter {
    Painter(
      0, _ => Props(Look(1.0, false, 0.0, 0.0, Reach(0.0, 0.0, 0.0, 0.0), 0.0, true, false, false, 0), 0, 0),
      (_, _) => Metrics(true, 0), _ => (0.0, 0.0), (_, _) => false, (_, _, _, _, _, _, _, under) => under,
      (_, _, _, _, under) => under + 1, (_, _, _, own, _, _, _, _, under) => under + 1 + own, (_, clip) => clip,
      (_, _, _, _, _, clip) => clip, (_, _, below, inner) => inner, 0)
  }

  function PlainView(tag: Tag, frame: Rect, children: seq<Tree>): Tree {
    Tree(Node(tag, Component.View, 0, 0, Layout(frame, 0), 0, 0), children)
  }

  /** The same root, with a view at `r` or without it. */
  function RootWith(d: Display, children: seq<Tree>): Scene {
    Scene([PlainView(1, Window(d), children)], 0.0, 0.0)
  }

  lemma {:induction false} DrawnOnce(p: Painter, tag: Tag, frame: Rect, cell: Rect, under: Color)
    requires p == PlainPainter()
    ensures DrawViews(p, [PlainView(tag, frame, [])], 0.0, 0.0, 1.0, 1.0, cell, under)
      == if Overlap(frame, cell) then under + 1 else under
  {
    var t := PlainView(tag, frame, []);
    assert InkAt(p, t.node, 0.0, 0.0) == frame;
    assert DrawsFlat(p, t.node) && !Clips(p, t.node) && !Layered(LookOf(p, t.node), 1.0);
    assert Shadow(p, t.node, 0.0, 0.0, 1.0, 1.0, cell, under) == under;
    assert DrawViews(p, [], 0.0, 0.0, 1.0, 1.0, cell, under) == under;
    assert DrawViews(p, [], 0.0, 0.0, 1.0, 1.0, cell, under + 1) == under + 1;
    assert DrawViews(p, [t][1..], 0.0, 0.0, 1.0, 1.0, cell, DrawView(p, t, 0.0, 0.0, 1.0, 1.0, cell, under))
      == DrawView(p, t, 0.0, 0.0, 1.0, 1.0, cell, under);
    assert Faded(1.0, LookOf(p, t.node)) == 1.0;
  }

  lemma AppearsPlaces(d: Display, r: Rect)
    ensures PlacesIn(PlainPainter(), RootWith(d, [])) == map[1 := Place(PlainView(1, Window(d), []), 0.0, 0.0)]
    ensures var view := PlainView(2, r, []);
            PlacesIn(PlainPainter(), RootWith(d, [view])) ==
              map[1 := Place(PlainView(1, Window(d), [view]), 0.0, 0.0), 2 := Place(view, 0.0, 0.0)]
  {
    var p := PlainPainter();
    var view := PlainView(2, r, []);
    var was, now := RootWith(d, []), RootWith(d, [view]);
    var root, grown := was.roots[0], now.roots[0];
    assert PlacesOfAll(p, [], 0.0, 0.0) == map[];
    assert ContentAt(p, root.node, 0.0, 0.0) == (0.0, 0.0);
    assert was.roots[1..] == [] && now.roots[1..] == [] && [view][1..] == [];
    assert PlacesOf(p, root, 0.0, 0.0) == map[1 := Place(root, 0.0, 0.0)];
    assert PlacesOf(p, view, 0.0, 0.0) == map[2 := Place(view, 0.0, 0.0)];
    assert PlacesOfAll(p, [view], 0.0, 0.0) == map[2 := Place(view, 0.0, 0.0)];
    assert PlacesOf(p, grown, 0.0, 0.0) == map[2 := Place(view, 0.0, 0.0)][1 := Place(grown, 0.0, 0.0)];
  }

  lemma AppearsContinues(d: Display, r: Rect)
    ensures var was, now := RootWith(d, []), RootWith(d, [PlainView(2, r, [])]);
            Continues(PlainPainter(), was, now) && Compared(PlainPainter(), was, now)
  {
    AppearsPlaces(d, r);
    var view := PlainView(2, r, []);
    var was, now := RootWith(d, []), RootWith(d, [view]);
    assert [view][1..] == [];
    assert ChildTags([view]) == [2] && ChildTags([]) == [];
    assert was.roots[1..] == [] && now.roots[1..] == [];
    assert ChildTags(was.roots) == [1] == ChildTags(now.roots);
    assert TagsOfAll([]) == {};
    assert TagsOf(view) == {2} && TagsOfAll([view]) == {2};
    assert Distinct(view) && DistinctAll([view]);
    assert Distinct(was.roots[0]) && Distinct(now.roots[0]);
  }

  lemma AppearsDamage(d: Display, r: Rect)
    ensures var p, was, now := PlainPainter(), RootWith(d, []), RootWith(d, [PlainView(2, r, [])]);
            FrameDamage(p, PlacesIn(p, was), PlacesIn(p, now)) == {r}
  {
    AppearsPlaces(d, r);
    var p, view := PlainPainter(), PlainView(2, r, []);
    var was, now := RootWith(d, []), RootWith(d, [view]);
    var m, n := PlacesIn(p, was), PlacesIn(p, now);
    assert InkAt(p, view.node, 0.0, 0.0) == r;
    assert ChildTags([view]) == [2] && ChildTags([]) == [];
    assert TagDamage(p, m, n, 1) == {} by {
      assert Kept([], [2]) == [] && Kept([2], []) == [];
    }
    assert TagDamage(p, m, n, 2) == {r};
  }

  lemma AppearsUndamaged(d: Display, r: Rect, x: int, y: int)
    requires OnCanvas(d, x, y) && Overlap(r, Cell(d, x, y)) && !Overlap(r, Window(d))
    ensures !DamageSuffices(d)
  {
    var p, was, now := PlainPainter(), RootWith(d, []), RootWith(d, [PlainView(2, r, [])]);
    AppearsContinues(d, r);
    AppearsDamage(d, r);
    assert Clipped({r}, Window(d)) == {};
    assert Reduces([], FrameDamage(p, PlacesIn(p, was), PlacesIn(p, now)), Window(d));
    AppearsDrawn(d, r, Cell(d, x, y));
  }

  lemma AppearsDrawn(d: Display, r: Rect, cell: Rect)
    requires Overlap(r, cell) && !cell.Empty()
    ensures DrawScene(PlainPainter(), RootWith(d, []), cell, d.background) !=
            DrawScene(PlainPainter(), RootWith(d, [PlainView(2, r, [])]), cell, d.background)
  {
    var p := PlainPainter();
    var bare := PlainView(1, Window(d), []);
    var first := if Overlap(Window(d), cell) then d.background + 1 else d.background;
    DrawnOnce(p, 1, Window(d), cell, d.background);
    var t := PlainView(1, Window(d), [PlainView(2, r, [])]);
    assert InkAt(p, t.node, 0.0, 0.0) == Window(d) && ContentAt(p, t.node, 0.0, 0.0) == (0.0, 0.0);
    assert Faded(1.0, LookOf(p, t.node)) == 1.0;
    DrawnOnce(p, 2, r, cell, first);
    assert DrawView(p, t, 0.0, 0.0, 1.0, 1.0, cell, d.background) == first + 1;
    assert DrawViews(p, [t][1..], 0.0, 0.0, 1.0, 1.0, cell, first + 1) == first + 1;
  }

  /** A view past a window's edge is not in the window, but is at the pixel the edge falls in. */
  lemma PastEdges(d: Display, r: Rect, x: int, y: int)
    requires d.width > 0 && d.height > 0 && OnCanvas(d, x, y)
    requires r == Rect(d.width as real, 0.0, 1.0, 1.0) || r == Rect(0.0, d.height as real, 1.0, 1.0)
    requires Edge(x, d.scale120) <= r.x < Edge(x, d.scale120) + 120.0 / d.scale120 as real
    requires Edge(y, d.scale120) <= r.y < Edge(y, d.scale120) + 120.0 / d.scale120 as real
    ensures !DamageSuffices(d)
  {
    assert Overlap(r, Cell(d, x, y));
    assert !Overlap(r, Window(d));
    AppearsUndamaged(d, r, x, y);
  }

  lemma LastPixel(logical: nat, scale120: Scale)
    requires (logical * scale120) % 120 != 0
    ensures var q := Pixels(logical, scale120) - 1;
            0 <= q && Edge(q, scale120) <= logical as real < Edge(q, scale120) + 120.0 / scale120 as real
  {
    PixelsReach(logical, scale120);
    PastEdge(Pixels(logical, scale120) - 1, logical, scale120);
  }

  lemma SomePixels(logical: nat, scale120: Scale)
    requires logical > 0
    ensures Pixels(logical, scale120) > 0
  {
    assert logical * scale120 > 0;
  }

  /** Drawing only the damage is right at exactly the sizes that are whole pixels. */
  lemma DamageSufficesExactly(d: Display)
    requires d.width > 0 && d.height > 0
    ensures DamageSuffices(d) <==> WholePixels(d)
  {
    SomePixels(d.width, d.scale120);
    SomePixels(d.height, d.scale120);
    PastEdge(0, 0, d.scale120);
    if WholePixels(d) {
      WholePixelsSuffice(d);
    } else if (d.width * d.scale120) % 120 != 0 {
      LastPixel(d.width, d.scale120);
      PastEdges(d, Rect(d.width as real, 0.0, 1.0, 1.0), Pixels(d.width, d.scale120) - 1, 0);
    } else {
      LastPixel(d.height, d.scale120);
      PastEdges(d, Rect(0.0, d.height as real, 1.0, 1.0), 0, Pixels(d.height, d.scale120) - 1);
    }
  }

  /** A pixel begun before a length and ended past it. */
  lemma PastEdge(q: int, n: int, scale120: Scale)
    requires 120 * q <= n * scale120 < 120 * (q + 1)
    ensures Edge(q, scale120) <= n as real < Edge(q, scale120) + 120.0 / scale120 as real
  {
    EdgeOrder(q, n, scale120);
    EdgeOrder(q + 1, n, scale120);
    EdgeSteps(q, scale120);
  }
}
