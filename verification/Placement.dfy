/** Where each view of a scene is in the window, from its frames and its scrolling alone. */
module Placements {
  import opened Geometry
  import opened Painter
  import opened Damage

  /** A view as it was drawn. */
  datatype Seen = Seen(node: Node, at: Rect, children: seq<Tag>)

  type Views = map<Tag, Seen>

  function SeenAt(p: Painter, a: Place): Seen {
    Seen(a.tree.node, At(p, a), ChildTags(a.tree.children))
  }

  ghost function Shown(p: Painter, m: Places): Views { map tag | tag in m :: SeenAt(p, m[tag]) }

  /** The views from one drawn first down to one inside it, by their places among their parents' children. */
  type Path = seq<nat>

  /** The views along a path, the outermost first; none of a path there is not. */
  function Line(ts: seq<Tree>, path: Path): (line: seq<Tree>)
    ensures |line| == 0 || |line| == |path|
    decreases path
  {
    if path == [] || path[0] >= |ts| then []
    else if |path| == 1 then [ts[path[0]]]
    else
      var rest := Line(ts[path[0]].children, path[1..]);
      if rest == [] then [] else [ts[path[0]]] + rest
  }

  /** A path of views the window draws: none of them a popup's or a shell region's. */
  predicate Drawn(ts: seq<Tree>, path: Path) {
    Line(ts, path) != [] &&
    forall i :: 0 <= i < |path| ==>
      !Line(ts, path)[i].node.component.Popup? && !Line(ts, path)[i].node.component.ShellSurface?
  }

  /** How far right the frames along a line come, each with its transform's shift. */
  function FramesX(p: Painter, line: seq<Tree>): real {
    if line == [] then 0.0
    else p.props(line[0].node.props).look.shiftX + line[0].node.layout.frame.x + FramesX(p, line[1..])
  }

  function FramesY(p: Painter, line: seq<Tree>): real {
    if line == [] then 0.0
    else p.props(line[0].node.props).look.shiftY + line[0].node.layout.frame.y + FramesY(p, line[1..])
  }

  /** How far the scroll views along a line are scrolled. */
  function ScrolledX(p: Painter, line: seq<Tree>): real {
    if line == [] then 0.0
    else (if line[0].node.component.ScrollView? then p.offset(line[0].node.state).0 else 0.0) + ScrolledX(p, line[1..])
  }

  function ScrolledY(p: Painter, line: seq<Tree>): real {
    if line == [] then 0.0
    else (if line[0].node.component.ScrollView? then p.offset(line[0].node.state).1 else 0.0) + ScrolledY(p, line[1..])
  }

  function Parents(line: seq<Tree>): seq<Tree>
    requires line != []
  {
    line[..|line| - 1]
  }

  /** Where the view a line leads to is placed from: its parents' frames, less what those have scrolled. */
  predicate PlacedFrom(p: Painter, line: seq<Tree>, x: real, y: real, a: Place)
    requires line != []
  {
    a.tree == line[|line| - 1] &&
    a.x == x + FramesX(p, Parents(line)) - ScrolledX(p, Parents(line)) &&
    a.y == y + FramesY(p, Parents(line)) - ScrolledY(p, Parents(line))
  }

  lemma {:induction false} LinePlaced(p: Painter, ts: seq<Tree>, path: Path, x: real, y: real)
    requires DistinctAll(ts) && Drawn(ts, path)
    ensures var line, m := Line(ts, path), PlacesOfAll(p, ts, x, y);
            var tag := line[|line| - 1].node.tag;
            tag in m && PlacedFrom(p, line, x, y, m[tag])
    decreases path
  {
    hide PlacesOfAll, PlacesOf, ContentAt, DistinctAll, Distinct, FramesX, FramesY, ScrolledX, ScrolledY;
    var t, content := ts[path[0]], ContentAt(p, ts[path[0]].node, x, y);
    var line := Line(ts, path);
    assert line[0] == t;
    PlaceAmong(p, ts, path[0], x, y);
    PlacesInside(p, t, x, y);
    if |path| == 1 {
      assert Parents(line) == [];
      NoSums(p);
    } else {
      var rest := Line(t.children, path[1..]);
      assert forall i :: 0 <= i < |rest| ==> rest[i] == line[i + 1];
      LinePlaced(p, t.children, path[1..], content.0, content.1);
      SumsStart(p, Parents(line), x, y);
      assert Parents(line)[0] == t && Parents(line)[1..] == Parents(rest);
    }
  }

  lemma {:induction false} NoSums(p: Painter)
    ensures FramesX(p, []) == FramesY(p, []) == ScrolledX(p, []) == ScrolledY(p, []) == 0.0
  {
  }

  lemma {:induction false} SumsStart(p: Painter, line: seq<Tree>, x: real, y: real)
    requires line != []
    ensures var content := ContentAt(p, line[0].node, x, y);
            x + FramesX(p, line) - ScrolledX(p, line) ==
              content.0 + FramesX(p, line[1..]) - ScrolledX(p, line[1..]) &&
            y + FramesY(p, line) - ScrolledY(p, line) == content.1 + FramesY(p, line[1..]) - ScrolledY(p, line[1..])
  {
  }

  /** A drawn view has its own place, and its children's are among its subtree's. */
  lemma {:induction false} PlacesInside(p: Painter, t: Tree, x: real, y: real)
    requires Distinct(t) && !t.node.component.Popup? && !t.node.component.ShellSurface?
    ensures var content, m := ContentAt(p, t.node, x, y), PlacesOf(p, t, x, y);
            var inner := PlacesOfAll(p, t.children, content.0, content.1);
            DistinctAll(t.children) && t.node.tag in m && m[t.node.tag] == Place(t, x, y) &&
            forall tag :: tag in inner ==> tag in m && m[tag] == inner[tag]
  {
    var content := ContentAt(p, t.node, x, y);
    PlacesAllTagged(p, t.children, content.0, content.1);
  }

  /** One of a list's trees keeps its places in the list's. */
  lemma {:induction false} PlaceAmong(p: Painter, ts: seq<Tree>, i: nat, x: real, y: real)
    requires DistinctAll(ts) && i < |ts|
    ensures Distinct(ts[i]) && TagsOf(ts[i]) <= TagsOfAll(ts)
    ensures forall tag :: tag in PlacesOf(p, ts[i], x, y) ==>
      tag in PlacesOfAll(p, ts, x, y) && PlacesOfAll(p, ts, x, y)[tag] == PlacesOf(p, ts[i], x, y)[tag]
  {
    PlacesAreTagged(p, ts[i], x, y);
    PlacesAllTagged(p, ts[1..], x, y);
    if i > 0 {
      PlaceAmong(p, ts[1..], i - 1, x, y);
    }
  }

  /** A line with one more view before it. */
  lemma {:induction false} LineInside(ts: seq<Tree>, i: nat, path: Path)
    requires i < |ts| && Drawn(ts[i].children, path)
    requires !ts[i].node.component.Popup? && !ts[i].node.component.ShellSurface?
    ensures Drawn(ts, [i] + path) && Line(ts, [i] + path) == [ts[i]] + Line(ts[i].children, path)
  {
    assert ([i] + path)[1..] == path;
  }

  /** Every place there is, is a drawn view's. */
  lemma {:induction false} PlaceOnPath(p: Painter, ts: seq<Tree>, x: real, y: real, tag: Tag) returns (path: Path)
    requires tag in PlacesOfAll(p, ts, x, y)
    ensures LeadsTo(ts, path, tag)
    decreases ts
  {
    if tag in PlacesOfAll(p, ts[1..], x, y) {
      var rest := PlaceOnPath(p, ts[1..], x, y, tag);
      path := [rest[0] + 1] + rest[1..];
      assert Line(ts, path) == Line(ts[1..], rest);
    } else if ts[0].node.tag == tag {
      path := [0];
      assert Line(ts, path) == [ts[0]];
    } else {
      var content := ContentAt(p, ts[0].node, x, y);
      var rest := PlaceOnPath(p, ts[0].children, content.0, content.1, tag);
      LineInside(ts, 0, rest);
      path := [0] + rest;
    }
  }

  /** A rectangle that holds a view's frame at (x, y) and reaches beyond it on each side as far as the view draws. */
  predicate InkAround(p: Painter, n: Node, x: real, y: real, at: Rect) {
    var reach := p.props(n.props).look.reach;
    at.x == x - reach.left && at.MaxX() == x + n.layout.frame.width + reach.right &&
    at.y == y - reach.top && at.MaxY() == y + n.layout.frame.height + reach.bottom
  }

  /** The view a line leads to is seen where the frames along it and the scrolling around it put it. */
  predicate SeenThere(p: Painter, s: Scene, views: Views, line: seq<Tree>)
    requires line != []
  {
    var n := line[|line| - 1].node;
    n.tag in views && views[n.tag].node == n && views[n.tag].children == ChildTags(line[|line| - 1].children) &&
    InkAround(p, n, s.x + FramesX(p, line) - ScrolledX(p, Parents(line)),
              s.y + FramesY(p, line) - ScrolledY(p, Parents(line)), views[n.tag].at)
  }

  /** A path leads to a drawn view of that tag. */
  predicate LeadsTo(ts: seq<Tree>, path: Path, tag: Tag) {
    Drawn(ts, path) && Line(ts, path)[|path| - 1].node.tag == tag
  }

  /** What is seen of a scene is its drawn views and no others, each there. */
  ghost predicate AllSeen(p: Painter, s: Scene, views: Views) {
    (forall path :: Drawn(s.roots, path) ==> SeenThere(p, s, views, Line(s.roots, path))) &&
    (forall tag :: tag in views ==> exists path :: LeadsTo(s.roots, path, tag))
  }

  lemma SeenWhereDrawn(p: Painter, s: Scene, views: Views)
    requires DistinctAll(s.roots) && views == Shown(p, PlacesIn(p, s))
    ensures AllSeen(p, s, views)
  {
    hide PlacesOfAll, DistinctAll, Line, SeenThere;
    forall path: Path | Drawn(s.roots, path) ensures SeenThere(p, s, views, Line(s.roots, path)) {
      LineSeen(p, s, views, path);
    }
    forall tag | tag in views ensures exists path :: LeadsTo(s.roots, path, tag) {
      var path := PlaceOnPath(p, s.roots, s.x, s.y, tag);
    }
  }

  lemma {:induction false} LineSeen(p: Painter, s: Scene, views: Views, path: Path)
    requires DistinctAll(s.roots) && views == Shown(p, PlacesIn(p, s)) && Drawn(s.roots, path)
    ensures Line(s.roots, path) != [] && SeenThere(p, s, views, Line(s.roots, path))
  {
    hide PlacesOfAll, DistinctAll, Line, FramesX, FramesY, ScrolledX, ScrolledY, InkAround;
    var line := Line(s.roots, path);
    LinePlaced(p, s.roots, path, s.x, s.y);
    SumsEnd(p, line);
    var a := PlacesIn(p, s)[line[|line| - 1].node.tag];
    InkOf(p, line[|line| - 1].node, a.x, a.y);
  }

  lemma InkOf(p: Painter, n: Node, x: real, y: real)
    ensures InkAround(p, n, x + p.props(n.props).look.shiftX + n.layout.frame.x,
                      y + p.props(n.props).look.shiftY + n.layout.frame.y, InkAt(p, n, x, y))
  {
  }

  /** The frames of a line are its parents' and its view's own. */
  lemma {:induction false} SumsEnd(p: Painter, line: seq<Tree>)
    requires line != []
    ensures var n := line[|line| - 1].node;
            FramesX(p, line) == FramesX(p, Parents(line)) + p.props(n.props).look.shiftX + n.layout.frame.x &&
            FramesY(p, line) == FramesY(p, Parents(line)) + p.props(n.props).look.shiftY + n.layout.frame.y
    decreases |line|
  {
    if |line| > 1 {
      SumsEnd(p, line[1..]);
      assert Parents(line)[0] == line[0] && Parents(line)[1..] == Parents(line[1..]);
    } else {
      assert line[1..] == [] == Parents(line);
    }
  }

  // Scrolling.

  /** Places moved are the places of what is placed from there. */
  lemma {:induction false} PlacesMove(p: Painter, t: Tree, x: real, y: real, dx: real, dy: real)
    ensures var m, n := PlacesOf(p, t, x, y), PlacesOf(p, t, x + dx, y + dy);
            m.Keys == n.Keys && forall tag :: tag in m ==> n[tag] == Place(m[tag].tree, m[tag].x + dx, m[tag].y + dy)
    decreases t, 1
  {
    if !OwnSurface(t.node.component) {
      var content, moved := ContentAt(p, t.node, x, y), ContentAt(p, t.node, x + dx, y + dy);
      assert moved == (content.0 + dx, content.1 + dy);
      PlacesMoveAll(p, t.children, content.0, content.1, dx, dy);
    }
  }

  lemma {:induction false} PlacesMoveAll(p: Painter, ts: seq<Tree>, x: real, y: real, dx: real, dy: real)
    ensures var m, n := PlacesOfAll(p, ts, x, y), PlacesOfAll(p, ts, x + dx, y + dy);
            m.Keys == n.Keys && forall tag :: tag in m ==> n[tag] == Place(m[tag].tree, m[tag].x + dx, m[tag].y + dy)
    decreases ts, 0
  {
    if ts != [] {
      PlacesMove(p, ts[0], x, y, dx, dy);
      PlacesMoveAll(p, ts[1..], x, y, dx, dy);
    }
  }

  /** A ScrollView scrolled further stays where it is, and every view in it moves the other way by as much. */
  lemma {:induction false} ScrollingMoves(p: Painter, t: Tree, state: int, x: real, y: real)
    requires t.node.component.ScrollView? && Distinct(t)
    ensures var scrolled := Tree(t.node.(state := state), t.children);
            var dx := p.offset(state).0 - p.offset(t.node.state).0;
            var dy := p.offset(state).1 - p.offset(t.node.state).1;
            var m, n := PlacesOf(p, t, x, y), PlacesOf(p, scrolled, x, y);
            m.Keys == n.Keys && t.node.tag in m && At(p, n[t.node.tag]) == At(p, m[t.node.tag]) &&
            n[t.node.tag] == Place(scrolled, x, y) &&
            forall tag :: tag in m && tag != t.node.tag ==>
              n[tag] == Place(m[tag].tree, m[tag].x - dx, m[tag].y - dy)
  {
    hide PlacesOfAll, DistinctAll, TagsOfAll;
    var dx := p.offset(state).0 - p.offset(t.node.state).0;
    var dy := p.offset(state).1 - p.offset(t.node.state).1;
    var scrolled := Tree(t.node.(state := state), t.children);
    var from, to := ContentAt(p, t.node, x, y), ContentAt(p, scrolled.node, x, y);
    assert to == (from.0 - dx, from.1 - dy);
    PlacesMoveAll(p, t.children, from.0, from.1, -dx, -dy);
    PlacesAllTagged(p, t.children, from.0, from.1);
  }

  // What a change damages, view by view.

  /** A change that draws a view's whole subtree again: of its state, its component, or anything it is drawn by. */
  predicate DrawnOtherwise(p: Painter, a: Node, b: Node) {
    a.state != b.state ||
    (a.props != b.props &&
     (a.component != b.component || b.component.TextInput? || b.component.ExpoBlur? || b.component.ExpoImage? ||
      p.props(a.props).look != p.props(b.props).look ||
      p.metrics(p.props(a.props).border, a.layout) != p.metrics(p.props(b.props).border, b.layout)))
  }

  /** A view whose background alone is drawn, and nowhere but in its square frame. */
  predicate Flat(p: Painter, n: Node) {
    var look := p.props(n.props).look;
    (n.component.View? || n.component.RootView?) && look.plain && look.reach.left == 0.0 && look.reach.top == 0.0 &&
    look.reach.right == 0.0 && look.reach.bottom == 0.0 && look.shiftX == 0.0 && look.shiftY == 0.0 &&
    look.elevation == 0.0 && !look.blends && !look.offscreen &&
    p.metrics(p.props(n.props).border, n.layout).square
  }

  /** The parts of two rectangles that are not of both. */
  ghost predicate Difference(rects: set<Rect>, a: Rect, b: Rect) {
    forall x, y :: (exists r :: r in rects && r.Contains(x, y)) <==> a.Contains(x, y) != b.Contains(x, y)
  }

  /**
   One view of both frames: its subtrees in both where it is drawn otherwise; else its old and new rectangles where it
   moved, or only their difference if it is flat and keeps its corner; and where it has a new picture, where it is now.
   */
  lemma ViewDamaged(p: Painter, was: Places, now: Places, a: Place, b: Place)
    requires ChildTags(a.tree.children) == ChildTags(b.tree.children)
    ensures var m, n, at, to := a.tree.node, b.tree.node, At(p, a), At(p, b);
            var pictured := if m.picture != n.picture || m.layers != n.layers then {to} else {};
            var damage := ViewDamage(p, was, now, a, b);
            if DrawnOtherwise(p, m, n) then damage == pictured + Subtree(p, a) + Subtree(p, b)
            else if at == to && m.layout == n.layout then damage == pictured
            else if at.x == to.x && at.y == to.y && Flat(p, m) && Flat(p, n) then
              exists rects :: damage == pictured + rects && Difference(rects, at, to)
            else damage == pictured + {at, to}
  {
    assert Redrawn(p, a, b) <==> DrawnOtherwise(p, a.tree.node, b.tree.node);
    assert DrawsFlat(p, a.tree.node) <==> Flat(p, a.tree.node);
    assert DrawsFlat(p, b.tree.node) <==> Flat(p, b.tree.node);
    assert OrderDamage(p, was, now, a, b) == {};
    BandsDiffer(At(p, a), At(p, b));
  }

  lemma BandsDiffer(a: Rect, b: Rect)
    ensures Difference((set r | r in Bands(a, b)) + (set r | r in Bands(b, a)), a, b)
  {
    hide Bands;
    BandsAreDifference(a, b);
    BandsAreDifference(b, a);
  }
}
