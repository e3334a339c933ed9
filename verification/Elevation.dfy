/** The shadows elevations cast: what a canvas of another width changes where nothing is damaged. */
module Elevations {
  import opened Geometry
  import opened Painter
  import opened Damage

  /** Whether anything drawn of a subtree casts its shadow on a cell. */
  predicate Casts(p: Painter, t: Tree, x: real, y: real, opacity: real, cell: Rect)
    decreases t, 1
  {
    var n, drawn := t.node, Faded(opacity, LookOf(p, t.node));
    !OwnSurface(n.component) && drawn > 0.001 &&
    ((Raised(p, n) && Overlap(InkAt(p, n, x, y), cell)) ||
     (ChildrenShow(p, n, x, y, cell) &&
      var content := ContentAt(p, n, x, y);
      CastsAny(p, t.children, content.0, content.1, Within(LookOf(p, n), drawn), cell)))
  }

  predicate CastsAny(p: Painter, ts: seq<Tree>, x: real, y: real, opacity: real, cell: Rect)
    decreases ts, 0
  {
    ts != [] && (Casts(p, ts[0], x, y, opacity, cell) || CastsAny(p, ts[1..], x, y, opacity, cell))
  }

  predicate CastsIn(p: Painter, s: Scene, cell: Rect) { CastsAny(p, s.roots, s.x, s.y, 1.0, cell) }

  // What a painter's reading decides alone.

  lemma ReadAlike(p: Painter, q: Painter, n: Node, x: real, y: real)
    requires ReadsAlike(p, q)
    ensures LookOf(p, n) == LookOf(q, n) && MetricsOf(p, n) == MetricsOf(q, n) && OwnOf(p, n) == OwnOf(q, n)
    ensures InkAt(p, n, x, y) == InkAt(q, n, x, y) && ContentAt(p, n, x, y) == ContentAt(q, n, x, y)
    ensures FrameAt(p, n, x, y) == FrameAt(q, n, x, y) && Clips(p, n) == Clips(q, n)
    ensures Raised(p, n) == Raised(q, n) && DrawsFlat(p, n) == DrawsFlat(q, n)
  {
  }

  lemma {:induction false} CastAlike(p: Painter, q: Painter, t: Tree, x: real, y: real, opacity: real, cell: Rect)
    requires ReadsAlike(p, q)
    ensures Casts(p, t, x, y, opacity, cell) == Casts(q, t, x, y, opacity, cell)
    decreases t, 1
  {
    hide LookOf, Raised, InkAt, ContentAt, FrameAt, Clips, ReadsAlike, Overlap, Within, Faded;
    ReadAlike(p, q, t.node, x, y);
    var content := ContentAt(p, t.node, x, y);
    CastAlikeAll(p, q, t.children, content.0, content.1,
                 Within(LookOf(p, t.node), Faded(opacity, LookOf(p, t.node))), cell);
  }

  lemma {:induction false} CastAlikeAll(
    p: Painter, q: Painter, ts: seq<Tree>, x: real, y: real, opacity: real, cell: Rect)
    requires ReadsAlike(p, q)
    ensures CastsAny(p, ts, x, y, opacity, cell) == CastsAny(q, ts, x, y, opacity, cell)
    decreases ts, 0
  {
    if ts != [] {
      CastAlike(p, q, ts[0], x, y, opacity, cell);
      CastAlikeAll(p, q, ts[1..], x, y, opacity, cell);
    }
  }

  lemma {:induction false} PlacedAlike(p: Painter, q: Painter, t: Tree, x: real, y: real)
    requires ReadsAlike(p, q)
    ensures PlacesOf(p, t, x, y) == PlacesOf(q, t, x, y) && Reached(p, t, x, y) == Reached(q, t, x, y)
    decreases t, 1
  {
    hide InkAt, ContentAt, ReadsAlike;
    ReadAlike(p, q, t.node, x, y);
    var content := ContentAt(p, t.node, x, y);
    PlacedAlikeAll(p, q, t.children, content.0, content.1);
  }

  lemma {:induction false} PlacedAlikeAll(p: Painter, q: Painter, ts: seq<Tree>, x: real, y: real)
    requires ReadsAlike(p, q)
    ensures PlacesOfAll(p, ts, x, y) == PlacesOfAll(q, ts, x, y) && ReachedAll(p, ts, x, y) == ReachedAll(q, ts, x, y)
    decreases ts, 0
  {
    if ts != [] {
      PlacedAlike(p, q, ts[0], x, y);
      PlacedAlikeAll(p, q, ts[1..], x, y);
    }
  }

  /** One view's own rectangles, its places aside. */
  lemma ShellAlike(p: Painter, q: Painter, a: Place, b: Place)
    requires ReadsAlike(p, q)
    ensures Redrawn(p, a, b) == Redrawn(q, a, b) && MoveDamage(p, a, b) == MoveDamage(q, a, b)
    ensures At(p, a) == At(q, a) && At(p, b) == At(q, b) && StaleImage(p, a, b) == StaleImage(q, a, b)
  {
    hide Bands, LookOf, MetricsOf, OwnOf, InkAt, DrawsFlat, ReadsAlike;
    ReadAlike(p, q, a.tree.node, a.x, a.y);
    ReadAlike(p, q, b.tree.node, b.x, b.y);
  }

  lemma SubtreeAlike(p: Painter, q: Painter, m: Places, tag: Tag)
    requires ReadsAlike(p, q)
    ensures SubtreeIn(p, m, tag) == SubtreeIn(q, m, tag)
  {
    if tag in m { PlacedAlike(p, q, m[tag].tree, m[tag].x, m[tag].y); }
  }

  lemma OrderAlike(p: Painter, q: Painter, was: Places, now: Places, a: Place, b: Place)
    requires ReadsAlike(p, q)
    ensures OrderDamage(p, was, now, a, b) == OrderDamage(q, was, now, a, b)
  {
    hide SubtreeIn, Reordered, Kept, ReadsAlike;
    forall child ensures SubtreeIn(p, was, child) == SubtreeIn(q, was, child) { SubtreeAlike(p, q, was, child); }
    forall child ensures SubtreeIn(p, now, child) == SubtreeIn(q, now, child) { SubtreeAlike(p, q, now, child); }
  }

  lemma ViewAlike(p: Painter, q: Painter, was: Places, now: Places, a: Place, b: Place)
    requires ReadsAlike(p, q)
    ensures ViewDamage(p, was, now, a, b) == ViewDamage(q, was, now, a, b)
  {
    hide Redrawn, MoveDamage, OrderDamage, At, StaleImage, Reached, ReadsAlike;
    ShellAlike(p, q, a, b);
    OrderAlike(p, q, was, now, a, b);
    PlacedAlike(p, q, a.tree, a.x, a.y);
    PlacedAlike(p, q, b.tree, b.x, b.y);
  }

  lemma TagAlike(p: Painter, q: Painter, was: Places, now: Places, tag: Tag)
    requires ReadsAlike(p, q)
    ensures TagDamage(p, was, now, tag) == TagDamage(q, was, now, tag)
  {
    hide ViewDamage;
    if tag in was && tag in now { ViewAlike(p, q, was, now, was[tag], now[tag]); }
  }

  /** What two frames differ in is the same for every painter that reads alike. */
  lemma DamagedAlike(p: Painter, q: Painter, was: Scene, now: Scene)
    requires ReadsAlike(p, q)
    ensures FrameDamage(p, PlacesIn(p, was), PlacesIn(p, now)) == FrameDamage(q, PlacesIn(q, was), PlacesIn(q, now))
    ensures Continues(p, was, now) == Continues(q, was, now) && Compared(p, was, now) == Compared(q, was, now)
  {
    PlacedAlikeAll(p, q, was.roots, was.x, was.y);
    PlacedAlikeAll(p, q, now.roots, now.x, now.y);
    var m, n := PlacesIn(p, was), PlacesIn(p, now);
    forall tag ensures TagDamage(p, m, n, tag) == TagDamage(q, m, n, tag) {
      TagAlike(p, q, m, n, tag);
    }
    forall tag | tag in m && tag in n ensures StaleImage(p, m[tag], n[tag]) == StaleImage(q, m[tag], n[tag]) {
      ShellAlike(p, q, m[tag], n[tag]);
    }
  }

  // A cell no shadow falls on does not depend on the width.

  /** What a view draws of its own is the same at any width, and without a shadow all of it is. */
  lemma ShellAt(p: Painter, w: nat, n: Node, x: real, y: real, clip: Coverage, drawn: real, within: real, cell: Rect,
      under: Color, start: Color)
    ensures Own(On(p, w), n, x, y, clip, within, cell, start) == Own(p, n, x, y, clip, within, cell, start)
    ensures ChildrenShow(On(p, w), n, x, y, cell) == ChildrenShow(p, n, x, y, cell)
    ensures ChildClip(On(p, w), n, x, y, clip, cell) == ChildClip(p, n, x, y, clip, cell)
    ensures LookOf(On(p, w), n) == LookOf(p, n) && ContentAt(On(p, w), n, x, y) == ContentAt(p, n, x, y)
    ensures On(p, w).clear == p.clear && On(p, w).blend == p.blend
    ensures !(Raised(p, n) && Overlap(InkAt(p, n, x, y), cell)) ==>
              Shadow(On(p, w), n, x, y, clip, drawn, cell, under) == under
  {
    hide Overlap, Intersect;
  }

  lemma {:induction false} UncastSame(
    p: Painter, v: nat, w: nat, t: Tree, x: real, y: real, clip: Coverage, opacity: real, cell: Rect, under: Color)
    requires !Casts(p, t, x, y, opacity, cell)
    ensures DrawView(On(p, v), t, x, y, clip, opacity, cell, under) ==
      DrawView(On(p, w), t, x, y, clip, opacity, cell, under)
    decreases t, 1
  {
    hide Own, Shadow, ChildrenShow, ChildClip, ContentAt, LookOf, Raised, InkAt, Overlap, Faded, Within, On;
    var n, drawn := t.node, Faded(opacity, LookOf(p, t.node));
    var content, within := ContentAt(p, n, x, y), Within(LookOf(p, n), drawn);
    var start := if Layered(LookOf(p, n), drawn) then p.clear else under;
    ShellAt(p, v, n, x, y, clip, drawn, within, cell, under, start);
    ShellAt(p, w, n, x, y, clip, drawn, within, cell, under, start);
    if !OwnSurface(n.component) && drawn > 0.001 && ChildrenShow(p, n, x, y, cell) {
      UncastSameAll(p, v, w, t.children, content.0, content.1, ChildClip(p, n, x, y, clip, cell), within, cell,
                    Own(p, n, x, y, clip, within, cell, start));
    }
  }

  lemma {:induction false} UncastSameAll(
    p: Painter, v: nat, w: nat, ts: seq<Tree>, x: real, y: real, clip: Coverage, opacity: real, cell: Rect,
    under: Color)
    requires !CastsAny(p, ts, x, y, opacity, cell)
    ensures DrawViews(On(p, v), ts, x, y, clip, opacity, cell, under) ==
      DrawViews(On(p, w), ts, x, y, clip, opacity, cell, under)
    decreases ts, 0
  {
    if ts != [] {
      UncastSame(p, v, w, ts[0], x, y, clip, opacity, cell, under);
      UncastSameAll(p, v, w, ts[1..], x, y, clip, opacity, cell,
                    DrawView(On(p, v), ts[0], x, y, clip, opacity, cell, under));
    }
  }

  /** A painter of shadows alone, or of nothing: a cell one falls on shows how wide the canvas is. */
  function Tracing(p: Painter, shadows: bool): Painter {
    p.(shadow := (width: nat, _, _, _, _, _, _, under) => if shadows then width + 1 else under,
       fill := (_, _, _, _, under) => under, ink := (_, _, _, _, _, _, _, _, under) => under,
       blend := (_, _, _, inner) => inner, clear := 0)
  }

  lemma TracingOwn(p: Painter, shadows: bool, w: nat, n: Node, x: real, y: real, clip: Coverage, opacity: real,
      cell: Rect, under: Color)
    ensures Own(On(Tracing(p, shadows), w), n, x, y, clip, opacity, cell, under) == under
    ensures Shadow(On(Tracing(p, shadows), w), n, x, y, clip, opacity, cell, under) ==
      if shadows && Raised(p, n) && Overlap(InkAt(p, n, x, y), cell) then w + 1 else under
  {
  }

  lemma {:induction false} TracingDraws(
    p: Painter, shadows: bool, w: nat, t: Tree, x: real, y: real, clip: Coverage, opacity: real, cell: Rect,
    under: Color)
    ensures DrawView(On(Tracing(p, shadows), w), t, x, y, clip, opacity, cell, under) ==
      if shadows && Casts(p, t, x, y, opacity, cell) then w + 1 else under
    decreases t, 1
  {
    var q := On(Tracing(p, shadows), w);
    var n, look, drawn := t.node, LookOf(p, t.node), Faded(opacity, LookOf(p, t.node));
    assert LookOf(q, n) == look && ContentAt(q, n, x, y) == ContentAt(p, n, x, y);
    if !OwnSurface(n.component) && drawn > 0.001 {
      var content, within := ContentAt(p, n, x, y), Within(look, drawn);
      TracingOwn(p, shadows, w, n, x, y, clip, drawn, cell, under);
      var below := Shadow(q, n, x, y, clip, drawn, cell, under);
      var start := if Layered(look, drawn) then 0 else below;
      TracingOwn(p, shadows, w, n, x, y, clip, within, cell, start);
      assert Own(q, n, x, y, clip, within, cell, start) == start;
      assert ChildrenShow(q, n, x, y, cell) == ChildrenShow(p, n, x, y, cell);
      if ChildrenShow(p, n, x, y, cell) {
        TracingDrawsAll(p, shadows, w, t.children, content.0, content.1, ChildClip(q, n, x, y, clip, cell), within,
                        cell, start);
      }
    }
  }

  lemma {:induction false} TracingDrawsAll(
    p: Painter, shadows: bool, w: nat, ts: seq<Tree>, x: real, y: real, clip: Coverage, opacity: real, cell: Rect,
    under: Color)
    ensures DrawViews(On(Tracing(p, shadows), w), ts, x, y, clip, opacity, cell, under) ==
      if shadows && CastsAny(p, ts, x, y, opacity, cell) then w + 1 else under
    decreases ts, 0
  {
    if ts != [] {
      TracingDraws(p, shadows, w, ts[0], x, y, clip, opacity, cell, under);
      TracingDrawsAll(p, shadows, w, ts[1..], x, y, clip, opacity, cell,
                      if shadows && Casts(p, ts[0], x, y, opacity, cell) then w + 1 else under);
    }
  }

  // Exactly which undamaged cells another width leaves right.

  /** Whether a cell drawn of one frame at one width is right for the next at another, for all who read alike. */
  ghost predicate WidthSuffices(p: Painter, was: Scene, now: Scene, v: nat, w: nat, cell: Rect) {
    forall q, background :: ReadsAlike(p, q) ==>
      DrawScene(On(q, v), was, cell, background) == DrawScene(On(q, w), now, cell, background)
  }

  /** An undamaged cell is drawn alike by each painter at any one width. */
  lemma UndamagedAt(p: Painter, q: Painter, w: nat, was: Scene, now: Scene, cell: Rect, background: Color)
    requires Continues(p, was, now) && Compared(p, was, now) && !cell.Empty() && ReadsAlike(p, q)
    requires Clear(FrameDamage(p, PlacesIn(p, was), PlacesIn(p, now)), cell)
    ensures DrawScene(On(q, w), was, cell, background) == DrawScene(On(q, w), now, cell, background)
  {
    hide DrawScene, FrameDamage, Continues, Compared, PlacesIn;
    DamagedAlike(p, On(q, w), was, now);
    CellUndamaged(On(q, w), was, now, cell, background);
  }

  lemma WidthKept(p: Painter, q: Painter, v: nat, w: nat, was: Scene, now: Scene, cell: Rect, background: Color)
    requires Continues(p, was, now) && Compared(p, was, now) && !cell.Empty() && ReadsAlike(p, q)
    requires Clear(FrameDamage(p, PlacesIn(p, was), PlacesIn(p, now)), cell)
    requires v == w || !CastsIn(p, now, cell)
    ensures DrawScene(On(q, v), was, cell, background) == DrawScene(On(q, w), now, cell, background)
  {
    UndamagedAt(p, q, v, was, now, cell, background);
    if v != w {
      CastAlikeAll(p, q, now.roots, now.x, now.y, 1.0, cell);
      UncastSameAll(q, v, w, now.roots, now.x, now.y, 1.0, 1.0, cell, background);
    }
  }

  /** The painter that tells a shadow's canvas shows an undamaged cell under one drawn at the wrong width. */
  lemma WidthTold(p: Painter, v: nat, w: nat, was: Scene, now: Scene, cell: Rect, background: Color)
    requires Continues(p, was, now) && Compared(p, was, now) && !cell.Empty() && v != w && CastsIn(p, now, cell)
    requires Clear(FrameDamage(p, PlacesIn(p, was), PlacesIn(p, now)), cell)
    ensures DrawScene(On(Tracing(p, true), v), was, cell, background) !=
      DrawScene(On(Tracing(p, true), w), now, cell, background)
  {
    UndamagedAt(p, Tracing(p, true), v, was, now, cell, background);
    TracingDrawsAll(p, true, v, now.roots, now.x, now.y, 1.0, 1.0, cell, background);
    TracingDrawsAll(p, true, w, now.roots, now.x, now.y, 1.0, 1.0, cell, background);
  }

  /** An undamaged cell is right at another width exactly when no shadow falls on it. */
  lemma WidthSufficesExactly(p: Painter, was: Scene, now: Scene, v: nat, w: nat, cell: Rect)
    requires Continues(p, was, now) && Compared(p, was, now) && !cell.Empty()
    requires Clear(FrameDamage(p, PlacesIn(p, was), PlacesIn(p, now)), cell)
    ensures WidthSuffices(p, was, now, v, w, cell) <==> v == w || !CastsIn(p, now, cell)
  {
    hide DrawScene, FrameDamage, Continues, Compared, PlacesIn, CastsIn;
    if v == w || !CastsIn(p, now, cell) {
      forall q, background | ReadsAlike(p, q)
        ensures DrawScene(On(q, v), was, cell, background) == DrawScene(On(q, w), now, cell, background)
      {
        WidthKept(p, q, v, w, was, now, cell, background);
      }
    } else {
      WidthTold(p, v, w, was, now, cell, 0);
      assert ReadsAlike(p, Tracing(p, true));
    }
  }
}
