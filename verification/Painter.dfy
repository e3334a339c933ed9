/** The window's painter: what drawing a retained tree gives one cell of the window. */
module Painter {
  import opened Geometry

  // A cell is the area of the window one pixel of the canvas covers, so a view reaches a pixel exactly when its
  // rectangle overlaps the cell. Skia's own drawing is a parameter: any function of what drawView hands it. Nodes'
  // objects (props, states, pictures) are named by numbers, as the source's are by pointers: they never change once
  // made, so what one holds is a function of its number.

  type Tag = int
  type Color = int
  type Coverage = real
  type Length = r: real | r >= 0.0

  datatype Component =
    | View | RootView | ScrollView | Image | TextInput | ExpoBlur | ExpoImage | Popup | ShellSurface
    | Other(name: string)

  /** How far a view draws outside its frame: its shadows, outline, filter and elevation. */
  datatype Reach = Reach(left: Length, top: Length, right: Length, bottom: Length)

  /** The props every view is drawn by, which `drawsTheSame` compares one by one. */
  datatype Look = Look(
    opacity: real, clips: bool, shiftX: real, shiftY: real, reach: Reach, elevation: real, plain: bool,
    blends: bool, offscreen: bool, rest: int)

  /** A props object: the compared look, the border props (compared as resolved), and those of its component alone. */
  datatype Props = Props(look: Look, border: int, own: int)

  datatype Layout = Layout(frame: Rect, rest: int)

  /** Border metrics resolved for a layout: `square` without corners and widths. */
  datatype Metrics = Metrics(square: bool, rest: int)

  datatype Node = Node(
    tag: Tag, component: Component, props: int, state: int, layout: Layout, picture: int, layers: int)

  datatype Tree = Tree(node: Node, children: seq<Tree>)

  /** Drawing onto a canvas `width` pixels wide: an elevation's light is at its middle. */
  datatype Painter = Painter(
    width: nat,
    props: int -> Props,
    metrics: (int, Layout) -> Metrics,
    offset: int -> (real, real),
    backed: (Look, Metrics) -> bool,
    shadow: (nat, Look, Metrics, Rect, Rect, Coverage, real, Color) -> Color,
    fill: (Look, Rect, Coverage, real, Color) -> Color,
    ink: (Node, Look, Metrics, int, Rect, Rect, Coverage, real, Color) -> Color,
    cutFlat: (Rect, Coverage) -> Coverage,
    cut: (Look, Metrics, Layout, Rect, Rect, Coverage) -> Coverage,
    blend: (Look, real, Color, Color) -> Color,
    clear: Color)

  function On(p: Painter, width: nat): Painter { p.(width := width) }

  /** A painter that reads props, borders and scrolling as another does, whatever it draws of them. */
  ghost predicate ReadsAlike(p: Painter, q: Painter) {
    p.props == q.props && p.metrics == q.metrics && p.offset == q.offset && p.backed == q.backed
  }

  predicate OwnSurface(c: Component) { c.Popup? || c.ShellSurface? }

  /** The components whose drawing reads props of their own. */
  predicate ReadsOwn(c: Component) { c.Image? || ComparesOwn(c) }

  /** Those of them `drawsTheSame` knows about. */
  predicate ComparesOwn(c: Component) { c.TextInput? || c.ExpoBlur? || c.ExpoImage? }

  function LookOf(p: Painter, n: Node): Look { p.props(n.props).look }

  function MetricsOf(p: Painter, n: Node): Metrics { p.metrics(p.props(n.props).border, n.layout) }

  function OwnOf(p: Painter, n: Node): int { if ReadsOwn(n.component) then p.props(n.props).own else 0 }

  predicate DrawsTheSame(p: Painter, before: Node, after: Node) {
    before.props == after.props ||
    (before.component == after.component && !ComparesOwn(after.component) &&
     LookOf(p, before) == LookOf(p, after) && MetricsOf(p, before) == MetricsOf(p, after))
  }

  predicate DrawsFlat(p: Painter, n: Node) {
    var look := LookOf(p, n);
    (n.component.View? || n.component.RootView?) && look.plain && look.reach == Reach(0.0, 0.0, 0.0, 0.0) &&
    look.shiftX == 0.0 && look.shiftY == 0.0 && look.elevation == 0.0 && !look.blends && !look.offscreen &&
    MetricsOf(p, n).square
  }

  predicate Clips(p: Painter, n: Node) { LookOf(p, n).clips || n.component.ScrollView? }

  /** A view's frame in the window, its parent's content starting at (x, y). */
  function FrameAt(p: Painter, n: Node, x: real, y: real): Rect {
    var look, frame := LookOf(p, n), n.layout.frame;
    Rect(x + look.shiftX + frame.x, y + look.shiftY + frame.y, frame.width, frame.height)
  }

  /** Where a view draws: its frame with its reach (inkBounds, mapped to the window). */
  function InkAt(p: Painter, n: Node, x: real, y: real): Rect {
    var reach, frame := LookOf(p, n).reach, FrameAt(p, n, x, y);
    Rect(frame.x - reach.left, frame.y - reach.top,
         frame.width + reach.left + reach.right, frame.height + reach.top + reach.bottom)
  }

  /** Where a view's children are placed from: its frame, scrolled. */
  function ContentAt(p: Painter, n: Node, x: real, y: real): (real, real) {
    var frame := FrameAt(p, n, x, y);
    var scrolled := if n.component.ScrollView? then p.offset(n.state) else (0.0, 0.0);
    (frame.x - scrolled.0, frame.y - scrolled.1)
  }

  /** What a view draws of its own at a cell: only where it reaches, and a flat one only what it covers. */
  function Own(p: Painter, n: Node, x: real, y: real, clip: Coverage, opacity: real, cell: Rect, under: Color): Color {
    var at := InkAt(p, n, x, y);
    if !Overlap(at, cell) then under
    else if DrawsFlat(p, n) then p.fill(LookOf(p, n), Intersect(at, cell), clip, opacity, under)
    else
      p.ink(Node(n.tag, n.component, 0, n.state, n.layout, n.picture, n.layers), LookOf(p, n), MetricsOf(p, n),
            OwnOf(p, n), at, cell, clip, opacity, under)
  }

  /** Whether a view casts a shadow: raised, and with a background to cast it from. */
  predicate Raised(p: Painter, n: Node) { LookOf(p, n).elevation > 0.0 && p.backed(LookOf(p, n), MetricsOf(p, n)) }

  /** An elevation's shadow, cast under the view before its layer begins. */
  function Shadow(p: Painter, n: Node, x: real, y: real, clip: Coverage, opacity: real, cell: Rect,
      under: Color): Color {
    var at := InkAt(p, n, x, y);
    if Raised(p, n) && Overlap(at, cell)
    then p.shadow(p.width, LookOf(p, n), MetricsOf(p, n), at, cell, clip, opacity, under)
    else under
  }

  /** What its children are clipped to at a cell; nothing of them is left outside a clipping view's frame. */
  function ChildClip(p: Painter, n: Node, x: real, y: real, clip: Coverage, cell: Rect): Coverage {
    var frame := FrameAt(p, n, x, y);
    if !Clips(p, n) then clip
    else if DrawsFlat(p, n) then p.cutFlat(Intersect(frame, cell), clip)
    else p.cut(LookOf(p, n), MetricsOf(p, n), n.layout, frame, cell, clip)
  }

  predicate ChildrenShow(p: Painter, n: Node, x: real, y: real, cell: Rect) {
    Clips(p, n) ==> Overlap(FrameAt(p, n, x, y), cell)
  }

  /** Whether a view and its children are drawn in a layer of their own, blended when it ends. */
  predicate Layered(look: Look, opacity: real) { look.blends || (look.offscreen && opacity < 1.0) }

  function Faded(opacity: real, look: Look): real { opacity * look.opacity }

  /** The opacity a view's own drawing and its children get: a layer is faded whole as it ends. */
  function Within(look: Look, drawn: real): real { if Layered(look, drawn) then 1.0 else drawn }

  /** What is left when a view ends: its layer blended, one nothing was drawn in blending nothing. */
  function Ended(p: Painter, look: Look, drawn: real, below: Color, inner: Color): Color {
    if !Layered(look, drawn) then inner
    else if inner == p.clear then below
    else p.blend(look, drawn, below, inner)
  }

  /** drawView: the cell's colour after the view and its subtree are drawn over `under`. */
  function DrawView(p: Painter, t: Tree, x: real, y: real, clip: Coverage, opacity: real, cell: Rect,
      under: Color): Color
    decreases t, 1
  {
    var n := t.node;
    var look := LookOf(p, n);
    var drawn := Faded(opacity, look);
    if OwnSurface(n.component) || drawn <= 0.001 then under
    else
      var content := ContentAt(p, n, x, y);
      var within := Within(look, drawn);
      var below := Shadow(p, n, x, y, clip, drawn, cell, under);
      var own := Own(p, n, x, y, clip, within, cell, if Layered(look, drawn) then p.clear else below);
      var inner :=
        if ChildrenShow(p, n, x, y, cell)
        then DrawViews(p, t.children, content.0, content.1, ChildClip(p, n, x, y, clip, cell), within, cell, own)
        else own;
      Ended(p, look, drawn, below, inner)
  }

  /** A list of children, each drawn over the ones before it. */
  function DrawViews(p: Painter, ts: seq<Tree>, x: real, y: real, clip: Coverage, opacity: real, cell: Rect,
      under: Color)
    : Color
    decreases ts, 0
  {
    if ts == [] then under
    else
      DrawViews(p, ts[1..], x, y, clip, opacity, cell, DrawView(p, ts[0], x, y, clip, opacity, cell, under))
  }

  /** A view nothing of whose subtree reaches the cell leaves it as it was. */
  function Reached(p: Painter, t: Tree, x: real, y: real): (rects: set<Rect>)
    decreases t, 1
  {
    if OwnSurface(t.node.component) then {}
    else
      var content := ContentAt(p, t.node, x, y);
      {InkAt(p, t.node, x, y)} + ReachedAll(p, t.children, content.0, content.1)
  }

  function ReachedAll(p: Painter, ts: seq<Tree>, x: real, y: real): (rects: set<Rect>)
    decreases ts, 0
  {
    if ts == [] then {} else Reached(p, ts[0], x, y) + ReachedAll(p, ts[1..], x, y)
  }

  predicate Clear(rects: set<Rect>, cell: Rect) {
    forall r :: r in rects ==> !Overlap(r, cell)
  }

  lemma {:induction false} UnreachedDrawsNothing(
    p: Painter, t: Tree, x: real, y: real, clip: Coverage, opacity: real, cell: Rect, under: Color)
    requires Clear(Reached(p, t, x, y), cell)
    ensures DrawView(p, t, x, y, clip, opacity, cell, under) == under
    decreases t, 1
  {
    var n := t.node;
    var drawn := Faded(opacity, LookOf(p, n));
    if !OwnSurface(n.component) && drawn > 0.001 {
      var content := ContentAt(p, n, x, y);
      assert InkAt(p, n, x, y) in Reached(p, t, x, y);
      var start := if Layered(LookOf(p, n), drawn) then p.clear else under;
      UnreachedDrawNothing(p, t.children, content.0, content.1, ChildClip(p, n, x, y, clip, cell),
                           Within(LookOf(p, n), drawn), cell, start);
    }
  }

  lemma {:induction false} UnreachedDrawNothing(
    p: Painter, ts: seq<Tree>, x: real, y: real, clip: Coverage, opacity: real, cell: Rect, under: Color)
    requires Clear(ReachedAll(p, ts, x, y), cell)
    ensures DrawViews(p, ts, x, y, clip, opacity, cell, under) == under
    decreases ts, 0
  {
    if ts != [] {
      UnreachedDrawsNothing(p, ts[0], x, y, clip, opacity, cell, under);
      UnreachedDrawNothing(p, ts[1..], x, y, clip, opacity, cell, under);
    }
  }

  // What a picture is made of.

  /** Views side by side are drawn one after the other. */
  lemma {:induction false} DrawnInOrder(
    p: Painter, a: seq<Tree>, b: seq<Tree>, x: real, y: real, clip: Coverage, opacity: real, cell: Rect, under: Color)
    ensures DrawViews(p, a + b, x, y, clip, opacity, cell, under) ==
            DrawViews(p, b, x, y, clip, opacity, cell, DrawViews(p, a, x, y, clip, opacity, cell, under))
  {
    if a == [] {
      assert a + b == b;
    } else {
      assert (a + b)[1..] == a[1..] + b;
      DrawnInOrder(p, a[1..], b, x, y, clip, opacity, cell, DrawView(p, a[0], x, y, clip, opacity, cell, under));
    }
  }

  /** Nothing of what a ScrollView or a view that clips holds is seen outside its frame. */
  lemma ClippedAway(
      p: Painter, t: Tree, x: real, y: real, clip: Coverage, opacity: real, cell: Rect, under: Color)
    requires t.node.component.ScrollView? || LookOf(p, t.node).clips
    requires !Overlap(FrameAt(p, t.node, x, y), cell)
    ensures DrawView(p, t, x, y, clip, opacity, cell, under) ==
            DrawView(p, Tree(t.node, []), x, y, clip, opacity, cell, under)
  {
  }

  /** A raised view with a background is drawn over its shadow, and no other view over one. */
  lemma ShadowBeneath(p: Painter, n: Node, x: real, y: real, clip: Coverage, opacity: real, cell: Rect, under: Color)
    requires Faded(opacity, LookOf(p, n)) > 0.001 && !OwnSurface(n.component) && Overlap(InkAt(p, n, x, y), cell)
    ensures var look, flat := LookOf(p, n), p.(backed := (l, m) => false);
            DrawView(p, Tree(n, []), x, y, clip, opacity, cell, under) ==
            DrawView(flat, Tree(n, []), x, y, clip, opacity, cell,
              if look.elevation > 0.0 && p.backed(look, MetricsOf(p, n))
              then p.shadow(p.width, look, MetricsOf(p, n), InkAt(p, n, x, y), cell, clip, Faded(opacity, look), under)
              else under)
  {
  }

  /** A view of half opacity fades all it holds by half. */
  lemma HalfFaded(opacity: real, look: Look)
    requires look.opacity == 0.5
    ensures Faded(opacity, look) == opacity / 2.0
  {
  }

  /** A view that neither clips nor needs a layer leaves its children to be seen through it, faded as it is. */
  lemma SeenThrough(
      p: Painter, t: Tree, x: real, y: real, clip: Coverage, opacity: real, cell: Rect, under: Color)
    requires !OwnSurface(t.node.component) && !Overlap(InkAt(p, t.node, x, y), cell)
    requires !t.node.component.ScrollView? && !LookOf(p, t.node).clips && !LookOf(p, t.node).blends
    requires Faded(opacity, LookOf(p, t.node)) > 0.001
    requires LookOf(p, t.node).offscreen ==> Faded(opacity, LookOf(p, t.node)) >= 1.0
    ensures var look, frame := LookOf(p, t.node), t.node.layout.frame;
            DrawView(p, t, x, y, clip, opacity, cell, under) ==
            DrawViews(p, t.children, x + look.shiftX + frame.x, y + look.shiftY + frame.y, clip,
                      Faded(opacity, look), cell, under)
  {
  }

  /** What is drawn in a view's layer, if it has one: that blended in, at each opacity and over each colour. */
  ghost predicate BlendsIn(p: Painter, t: Tree, x: real, y: real, clip: Coverage, cell: Rect, layer: Color) {
    var look := LookOf(p, t.node);
    forall opacity, under ::
      Faded(opacity, look) > 0.001 && (look.blends || (look.offscreen && Faded(opacity, look) < 1.0)) ==>
        DrawView(p, t, x, y, clip, opacity, cell, under) ==
        if layer == p.clear then under else p.blend(look, Faded(opacity, look), under, layer)
  }

  /** A layer is drawn whole and faded once: it is the same whatever the opacity and whatever is beneath. */
  lemma FadedOnce(p: Painter, t: Tree, x: real, y: real, clip: Coverage, cell: Rect)
    requires !OwnSurface(t.node.component) && !Raised(p, t.node)
    ensures exists layer :: BlendsIn(p, t, x, y, clip, cell, layer)
  {
    var n, content := t.node, ContentAt(p, t.node, x, y);
    var own := Own(p, n, x, y, clip, 1.0, cell, p.clear);
    var layer :=
      if ChildrenShow(p, n, x, y, cell)
      then DrawViews(p, t.children, content.0, content.1, ChildClip(p, n, x, y, clip, cell), 1.0, cell, own)
      else own;
    assert BlendsIn(p, t, x, y, clip, cell, layer);
  }
}
