/** The rectangles in which one frame's views differ from the next one's. */
module Damage {
  import opened Geometry
  import opened Painter

  // Drawing only there is enough: a cell none of them overlaps is drawn alike from both trees.

  /** A view where its parent's content starts. */
  datatype Place = Place(tree: Tree, x: real, y: real)

  type Places = map<Tag, Place>

  /** What is drawn: the window's root at its origin, or a region's children where the region is. */
  datatype Scene = Scene(roots: seq<Tree>, x: real, y: real)

  // The trees drawn.

  function ChildTags(ts: seq<Tree>): seq<Tag> {
    seq(|ts|, i requires 0 <= i < |ts| => ts[i].node.tag)
  }

  function TagsOf(t: Tree): set<Tag>
    decreases t, 1
  {
    {t.node.tag} + TagsOfAll(t.children)
  }

  function TagsOfAll(ts: seq<Tree>): set<Tag>
    decreases ts, 0
  {
    if ts == [] then {} else TagsOf(ts[0]) + TagsOfAll(ts[1..])
  }

  /** A tree's tags name one view each, as the keys of the host's map of views. */
  ghost predicate Distinct(t: Tree)
    decreases t, 1
  {
    t.node.tag !in TagsOfAll(t.children) && DistinctAll(t.children)
  }

  ghost predicate DistinctAll(ts: seq<Tree>)
    decreases ts, 0
  {
    ts == [] || (Distinct(ts[0]) && TagsOf(ts[0]) !! TagsOfAll(ts[1..]) && DistinctAll(ts[1..]))
  }

  /** Every view drawn, where it is: what `collect` gathers, popups' and regions' subtrees left out. */
  ghost function PlacesOf(p: Painter, t: Tree, x: real, y: real): (m: Places)
    decreases t, 1
  {
    if OwnSurface(t.node.component) then map[]
    else
      var content := ContentAt(p, t.node, x, y);
      PlacesOfAll(p, t.children, content.0, content.1)[t.node.tag := Place(t, x, y)]
  }

  ghost function PlacesOfAll(p: Painter, ts: seq<Tree>, x: real, y: real): (m: Places)
    decreases ts, 0
  {
    if ts == [] then map[] else PlacesOf(p, ts[0], x, y) + PlacesOfAll(p, ts[1..], x, y)
  }

  ghost function PlacesIn(p: Painter, s: Scene): Places { PlacesOfAll(p, s.roots, s.x, s.y) }

  /** Whether a map of places holds a subtree as it is drawn, and nothing of a surface of its own in it. */
  ghost predicate Holds(p: Painter, m: Places, t: Tree, x: real, y: real)
    decreases t, 1
  {
    if OwnSurface(t.node.component) then t.node.tag !in m
    else
      var content := ContentAt(p, t.node, x, y);
      t.node.tag in m && m[t.node.tag] == Place(t, x, y) && HoldsAll(p, m, t.children, content.0, content.1)
  }

  ghost predicate HoldsAll(p: Painter, m: Places, ts: seq<Tree>, x: real, y: real)
    decreases ts, 0
  {
    forall i :: 0 <= i < |ts| ==> Holds(p, m, ts[i], x, y)
  }

  lemma {:induction false} PlacesAreTagged(p: Painter, t: Tree, x: real, y: real)
    ensures PlacesOf(p, t, x, y).Keys <= TagsOf(t)
    decreases t, 1
  {
    var content := ContentAt(p, t.node, x, y);
    PlacesAllTagged(p, t.children, content.0, content.1);
  }

  lemma {:induction false} PlacesAllTagged(p: Painter, ts: seq<Tree>, x: real, y: real)
    ensures PlacesOfAll(p, ts, x, y).Keys <= TagsOfAll(ts)
    decreases ts, 0
  {
    if ts != [] {
      PlacesAreTagged(p, ts[0], x, y);
      PlacesAllTagged(p, ts[1..], x, y);
    }
  }

  /** A map that agrees with a subtree's places on the subtree's tags holds the subtree. */
  lemma {:induction false} AgreeingHolds(p: Painter, m: Places, t: Tree, x: real, y: real)
    requires Distinct(t)
    requires forall k :: k in TagsOf(t) ==> (k in m <==> k in PlacesOf(p, t, x, y))
    requires forall k :: k in TagsOf(t) && k in m ==> m[k] == PlacesOf(p, t, x, y)[k]
    ensures Holds(p, m, t, x, y)
    decreases t, 1
  {
    if !OwnSurface(t.node.component) {
      var content := ContentAt(p, t.node, x, y);
      PlacesAllTagged(p, t.children, content.0, content.1);
      AgreeingHoldsAll(p, m, t.children, content.0, content.1);
    }
  }

  lemma {:induction false} AgreeingHoldsAll(p: Painter, m: Places, ts: seq<Tree>, x: real, y: real)
    requires DistinctAll(ts)
    requires forall k :: k in TagsOfAll(ts) ==> (k in m <==> k in PlacesOfAll(p, ts, x, y))
    requires forall k :: k in TagsOfAll(ts) && k in m ==> m[k] == PlacesOfAll(p, ts, x, y)[k]
    ensures HoldsAll(p, m, ts, x, y)
    decreases ts, 0
  {
    if ts != [] {
      PlacesAreTagged(p, ts[0], x, y);
      PlacesAllTagged(p, ts[1..], x, y);
      AgreeingHolds(p, m, ts[0], x, y);
      AgreeingHoldsAll(p, m, ts[1..], x, y);
      forall i | 0 <= i < |ts| ensures Holds(p, m, ts[i], x, y) {
        if i > 0 { assert ts[i] == ts[1..][i - 1]; }
      }
    }
  }

  // What compare damages.

  function At(p: Painter, a: Place): Rect { InkAt(p, a.tree.node, a.x, a.y) }

  function Subtree(p: Painter, a: Place): set<Rect> { Reached(p, a.tree, a.x, a.y) }

  /** The children of one list that are in another, in order. */
  function Kept(children: seq<Tag>, others: seq<Tag>): seq<Tag> {
    if children == [] then []
    else (if children[0] in others then [children[0]] else []) + Kept(children[1..], others)
  }

  predicate Redrawn(p: Painter, a: Place, b: Place) {
    !DrawsTheSame(p, a.tree.node, b.tree.node) || a.tree.node.state != b.tree.node.state
  }

  predicate NewPicture(a: Place, b: Place) {
    a.tree.node.picture != b.tree.node.picture || a.tree.node.layers != b.tree.node.layers
  }

  predicate Moved(p: Painter, a: Place, b: Place) {
    At(p, a) != At(p, b) || a.tree.node.layout != b.tree.node.layout
  }

  predicate Reordered(a: Place, b: Place) {
    var before, after := ChildTags(a.tree.children), ChildTags(b.tree.children);
    Kept(before, after) != Kept(after, before)
  }

  predicate ResizedFlat(p: Painter, a: Place, b: Place) {
    At(p, a).x == At(p, b).x && At(p, a).y == At(p, b).y && DrawsFlat(p, a.tree.node) && DrawsFlat(p, b.tree.node)
  }

  function SubtreeIn(p: Painter, m: Places, tag: Tag): set<Rect> {
    if tag in m then Subtree(p, m[tag]) else {}
  }

  function MoveDamage(p: Painter, a: Place, b: Place): set<Rect> {
    if !Moved(p, a, b) then {}
    else if ResizedFlat(p, a, b)
    then (set r | r in Bands(At(p, a), At(p, b))) + (set r | r in Bands(At(p, b), At(p, a)))
    else {At(p, a), At(p, b)}
  }

  function OrderDamage(p: Painter, was: Places, now: Places, a: Place, b: Place): set<Rect> {
    if !Reordered(a, b) then {}
    else
      set child, r | child in Kept(ChildTags(b.tree.children), ChildTags(a.tree.children)) &&
                     r in SubtreeIn(p, was, child) + SubtreeIn(p, now, child) :: r
  }

  /** What one view drawn in both frames damages. */
  function ViewDamage(p: Painter, was: Places, now: Places, a: Place, b: Place): set<Rect> {
    (if NewPicture(a, b) then {At(p, b)} else {}) +
    if Redrawn(p, a, b) then Subtree(p, a) + Subtree(p, b)
    else OrderDamage(p, was, now, a, b) + MoveDamage(p, a, b)
  }

  function TagDamage(p: Painter, was: Places, now: Places, tag: Tag): set<Rect> {
    if tag in now then
      if tag in was then ViewDamage(p, was, now, was[tag], now[tag]) else {At(p, now[tag])}
    else if tag in was then {At(p, was[tag])}
    else {}
  }

  /** Everything the two frames differ in, before it is clipped and reduced. */
  function FrameDamage(p: Painter, was: Places, now: Places): set<Rect> {
    set tag, r | tag in was.Keys + now.Keys && r in TagDamage(p, was, now, tag) :: r
  }

  // What two frames of a run share.

  predicate ChildOf(m: Places, parent: Tag, child: Tag) {
    parent in m && child in m && child in ChildTags(m[parent].tree.children)
  }

  /** Every view of both frames that has a parent in one has the same parent in the other. */
  ghost predicate KeepsParents(m: Places, other: Places) {
    forall parent, child :: ChildOf(m, parent, child) && child in other ==> ChildOf(other, parent, child)
  }

  /** A view's tag names it for its life: its component and its parent do not change. */
  ghost predicate Continues(p: Painter, was: Scene, now: Scene) {
    var m, n := PlacesIn(p, was), PlacesIn(p, now);
    DistinctAll(was.roots) && DistinctAll(now.roots) && KeepsParents(m, n) && KeepsParents(n, m) &&
    (forall tag :: tag in m && tag in n ==>
      m[tag].tree.node.component == n[tag].tree.node.component &&
      (tag in ChildTags(was.roots) <==> tag in ChildTags(now.roots)))
  }

  /** An Image view nothing compared tells apart, but for the props only an Image reads (its tint, its resize mode). */
  predicate StaleImage(p: Painter, a: Place, b: Place) {
    OwnOf(p, a.tree.node) != OwnOf(p, b.tree.node) &&
    !Redrawn(p, a, b) && !NewPicture(a, b) && !Moved(p, a, b)
  }

  ghost predicate NoStaleImage(p: Painter, was: Places, now: Places) {
    forall tag :: tag in was && tag in now ==> !StaleImage(p, was[tag], now[tag])
  }

  /** The scenes' own lists keep their order; a window's has one root, a region's children are not compared. */
  predicate RootsInOrder(was: Scene, now: Scene) {
    Kept(ChildTags(was.roots), ChildTags(now.roots)) == Kept(ChildTags(now.roots), ChildTags(was.roots))
  }

  /** The frames `compare` is right about: a view's change is one it looks at. */
  ghost predicate Compared(p: Painter, was: Scene, now: Scene) {
    NoStaleImage(p, PlacesIn(p, was), PlacesIn(p, now)) && RootsInOrder(was, now)
  }

  function DrawScene(p: Painter, s: Scene, cell: Rect, background: Color): Color {
    DrawViews(p, s.roots, s.x, s.y, 1.0, 1.0, cell, background)
  }

  // The proof that undamaged cells are drawn alike.

  /** What the proof carries down both trees at once. */
  ghost predicate Undamaged(p: Painter, was: Places, now: Places, cell: Rect) {
    KeepsParents(was, now) && KeepsParents(now, was) && NoStaleImage(p, was, now) && !cell.Empty() &&
    (forall tag :: tag in was && tag in now ==> was[tag].tree.node.component == now[tag].tree.node.component) &&
    (forall tag :: tag in was || tag in now ==> Clear(TagDamage(p, was, now, tag), cell))
  }

  /** A view of one frame alone has its whole subtree in that frame alone, all of it damaged. */
  lemma {:induction false} OnlyThere(p: Painter, m: Places, other: Places, t: Tree, x: real, y: real, cell: Rect)
    requires Holds(p, m, t, x, y) && KeepsParents(m, other) && t.node.tag !in other
    requires forall tag :: tag in m && tag !in other ==> !Overlap(At(p, m[tag]), cell)
    ensures Clear(Reached(p, t, x, y), cell)
    decreases t, 1
  {
    if !OwnSurface(t.node.component) {
      var content := ContentAt(p, t.node, x, y);
      assert At(p, m[t.node.tag]) == InkAt(p, t.node, x, y);
      forall i | 0 <= i < |t.children| ensures Clear(Reached(p, t.children[i], content.0, content.1), cell) {
        var child := t.children[i];
        if child.node.tag in m {
          assert ChildTags(t.children)[i] == child.node.tag;
          assert ChildOf(m, t.node.tag, child.node.tag);
        }
        if !OwnSurface(child.node.component) || child.node.tag !in other {
          OnlyThere(p, m, other, child, content.0, content.1, cell);
        }
      }
      ReachedAllClear(p, t.children, content.0, content.1, cell);
    }
  }

  lemma {:induction false} ReachedAllClear(p: Painter, ts: seq<Tree>, x: real, y: real, cell: Rect)
    requires forall i :: 0 <= i < |ts| ==> Clear(Reached(p, ts[i], x, y), cell)
    ensures Clear(ReachedAll(p, ts, x, y), cell)
    decreases ts
  {
    if ts != [] {
      ReachedAllClear(p, ts[1..], x, y, cell);
    }
  }

  /** A view compared the same but for where it is: its own drawing and its children's clip are the same at the cell. */
  lemma SameShell(p: Painter, a: Place, b: Place, cell: Rect, clip: Coverage, opacity: real, under: Color)
    requires !cell.Empty() && !Redrawn(p, a, b) && !StaleImage(p, a, b)
    requires a.tree.node.tag == b.tree.node.tag && a.tree.node.component == b.tree.node.component
    requires Clear(MoveDamage(p, a, b), cell) && (NewPicture(a, b) ==> !Overlap(At(p, b), cell))
    ensures Own(p, a.tree.node, a.x, a.y, clip, opacity, cell, under) ==
      Own(p, b.tree.node, b.x, b.y, clip, opacity, cell, under)
    ensures Shadow(p, a.tree.node, a.x, a.y, clip, opacity, cell, under) ==
      Shadow(p, b.tree.node, b.x, b.y, clip, opacity, cell, under)
    ensures ChildrenShow(p, a.tree.node, a.x, a.y, cell) == ChildrenShow(p, b.tree.node, b.x, b.y, cell)
    ensures ChildrenShow(p, b.tree.node, b.x, b.y, cell) ==>
              ChildClip(p, a.tree.node, a.x, a.y, clip, cell) == ChildClip(p, b.tree.node, b.x, b.y, clip, cell)
  {
    var m, n := a.tree.node, b.tree.node;
    assert LookOf(p, m) == LookOf(p, n);
    if !Moved(p, a, b) {
      assert FrameAt(p, m, a.x, a.y) == FrameAt(p, n, b.x, b.y);
      assert MetricsOf(p, m) == MetricsOf(p, n);
    } else if ResizedFlat(p, a, b) {
      assert forall r :: r in Bands(At(p, a), At(p, b)) || r in Bands(At(p, b), At(p, a)) ==> r in MoveDamage(p, a, b);
      SymmetricDifference(At(p, a), At(p, b), cell);
      assert FrameAt(p, m, a.x, a.y) == At(p, a) && FrameAt(p, n, b.x, b.y) == At(p, b);
    } else {
      assert At(p, a) in MoveDamage(p, a, b) && At(p, b) in MoveDamage(p, a, b);
      FrameReached(p, m, a.x, a.y, cell);
      FrameReached(p, n, b.x, b.y, cell);
    }
  }

  lemma FrameReached(p: Painter, n: Node, x: real, y: real, cell: Rect)
    ensures Overlap(FrameAt(p, n, x, y), cell) ==> Overlap(InkAt(p, n, x, y), cell)
  {
  }

  /** A view of both frames leaves an undamaged cell the same, whatever it is drawn over. */
  lemma {:induction false} SameView(
    p: Painter, was: Places, now: Places, a: Place, b: Place, cell: Rect, clip: Coverage, opacity: real, under: Color)
    requires Undamaged(p, was, now, cell) && a.tree.node.tag == b.tree.node.tag
    requires Holds(p, was, a.tree, a.x, a.y) && Holds(p, now, b.tree, b.x, b.y)
    ensures DrawView(p, a.tree, a.x, a.y, clip, opacity, cell, under) ==
      DrawView(p, b.tree, b.x, b.y, clip, opacity, cell, under)
    decreases a.tree, 1
  {
    var m, n, tag := a.tree.node, b.tree.node, a.tree.node.tag;
    if OwnSurface(m.component) || OwnSurface(n.component) {
      OneSided(p, was, now, a.tree, a.x, a.y, cell, clip, opacity, under);
      OneSided(p, now, was, b.tree, b.x, b.y, cell, clip, opacity, under);
    } else {
      assert Clear(TagDamage(p, was, now, tag), cell);
      assert TagDamage(p, was, now, tag) == ViewDamage(p, was, now, a, b);
      if Redrawn(p, a, b) {
        UnreachedDrawsNothing(p, a.tree, a.x, a.y, clip, opacity, cell, under);
        UnreachedDrawsNothing(p, b.tree, b.x, b.y, clip, opacity, cell, under);
      } else {
        SameKept(p, was, now, a, b, cell, clip, opacity, under);
      }
    }
  }

  /** A view the other frame does not draw leaves an undamaged cell as it was. */
  lemma {:induction false} OneSided(
    p: Painter, m: Places, other: Places, t: Tree, x: real, y: real, cell: Rect, clip: Coverage, opacity: real,
    under: Color)
    requires Holds(p, m, t, x, y) && KeepsParents(m, other)
    requires OwnSurface(t.node.component) || t.node.tag !in other
    requires forall tag :: tag in m && tag !in other ==> !Overlap(At(p, m[tag]), cell)
    ensures DrawView(p, t, x, y, clip, opacity, cell, under) == under
  {
    if !OwnSurface(t.node.component) {
      OnlyThere(p, m, other, t, x, y, cell);
    }
    UnreachedDrawsNothing(p, t, x, y, clip, opacity, cell, under);
  }

  lemma {:induction false} SameKept(
    p: Painter, was: Places, now: Places, a: Place, b: Place, cell: Rect, clip: Coverage, opacity: real, under: Color)
    requires Undamaged(p, was, now, cell) && a.tree.node.tag == b.tree.node.tag && !Redrawn(p, a, b)
    requires !OwnSurface(a.tree.node.component) && !OwnSurface(b.tree.node.component)
    requires Holds(p, was, a.tree, a.x, a.y) && Holds(p, now, b.tree, b.x, b.y)
    requires Clear(ViewDamage(p, was, now, a, b), cell)
    ensures DrawView(p, a.tree, a.x, a.y, clip, opacity, cell, under) ==
      DrawView(p, b.tree, b.x, b.y, clip, opacity, cell, under)
    decreases a.tree, 0
  {
    var m, n := a.tree.node, b.tree.node;
    var look := LookOf(p, m);
    var drawn := Faded(opacity, look);
    if drawn > 0.001 {
      var below, within := Shadow(p, m, a.x, a.y, clip, drawn, cell, under), Within(look, drawn);
      var start := if Layered(look, drawn) then p.clear else below;
      assert At(p, b) in ViewDamage(p, was, now, a, b) || !NewPicture(a, b);
      SameShell(p, a, b, cell, clip, drawn, under);
      SameShell(p, a, b, cell, clip, within, start);
      if ChildrenShow(p, n, b.x, b.y, cell) {
        var from, to := ContentAt(p, m, a.x, a.y), ContentAt(p, n, b.x, b.y);
        SiblingsApart(p, was, now, a, b);
        SiblingsApart(p, now, was, b, a);
        OrderDamaged(p, was, now, a, b, cell);
        SameChildren(p, was, now, a.tree.children, from.0, from.1, b.tree.children, to.0, to.1, cell,
                     ChildClip(p, n, b.x, b.y, clip, cell), within, Own(p, n, b.x, b.y, clip, within, cell, start));
      }
    }
  }

  /** A child drawn in both frames is among its parent's children in both. */
  ghost predicate Apart(ts: seq<Tree>, us: seq<Tree>, m: Places, other: Places) {
    forall i :: 0 <= i < |ts| && ts[i].node.tag in m && ts[i].node.tag in other ==> ts[i].node.tag in ChildTags(us)
  }

  lemma SiblingsApart(p: Painter, m: Places, other: Places, a: Place, b: Place)
    requires KeepsParents(m, other) && a.tree.node.tag == b.tree.node.tag
    requires a.tree.node.tag in m && m[a.tree.node.tag] == a
    requires b.tree.node.tag in other && other[b.tree.node.tag] == b
    ensures Apart(a.tree.children, b.tree.children, m, other)
  {
    var ts := a.tree.children;
    forall i | 0 <= i < |ts| && ts[i].node.tag in m && ts[i].node.tag in other
      ensures ts[i].node.tag in ChildTags(b.tree.children)
    {
      assert ChildTags(ts)[i] == ts[i].node.tag;
      assert ChildOf(m, a.tree.node.tag, ts[i].node.tag);
    }
  }

  /** The children in order, or every one still there damaged: what compare leaves of a new list of children. */
  ghost predicate OrderKept(p: Painter, was: Places, now: Places, ts: seq<Tree>, us: seq<Tree>, cell: Rect) {
    var before, after := ChildTags(ts), ChildTags(us);
    Kept(before, after) == Kept(after, before) ||
    forall child :: child in before && child in after ==>
      Clear(SubtreeIn(p, was, child), cell) && Clear(SubtreeIn(p, now, child), cell)
  }

  lemma OrderDamaged(p: Painter, was: Places, now: Places, a: Place, b: Place, cell: Rect)
    requires Clear(OrderDamage(p, was, now, a, b), cell)
    ensures OrderKept(p, was, now, a.tree.children, b.tree.children, cell)
  {
    var before, after := ChildTags(a.tree.children), ChildTags(b.tree.children);
    if Reordered(a, b) {
      forall child, r | child in before && child in after && r in SubtreeIn(p, was, child) + SubtreeIn(p, now, child)
        ensures !Overlap(r, cell)
      {
        KeptHolds(after, before, child);
        assert r in OrderDamage(p, was, now, a, b);
      }
    }
  }

  lemma {:induction false} KeptHolds(children: seq<Tag>, others: seq<Tag>, child: Tag)
    ensures child in Kept(children, others) <==> child in children && child in others
  {
    if children != [] {
      KeptHolds(children[1..], others, child);
      assert children == [children[0]] + children[1..];
    }
  }

  /** A tree that leaves every colour as it is. */
  ghost predicate DrawsNothing(p: Painter, t: Tree, x: real, y: real, clip: Coverage, opacity: real, cell: Rect) {
    forall under :: DrawView(p, t, x, y, clip, opacity, cell, under) == under
  }

  /** The trees of a list whose tags are among those given, as `kept` keeps the tags. */
  function Common(ts: seq<Tree>, others: seq<Tag>): (common: seq<Tree>)
    ensures forall t :: t in common ==> t in ts && t.node.tag in others
  {
    if ts == [] then []
    else (if ts[0].node.tag in others then [ts[0]] else []) + Common(ts[1..], others)
  }

  lemma {:induction false} CommonIsKept(ts: seq<Tree>, others: seq<Tag>)
    ensures ChildTags(Common(ts, others)) == Kept(ChildTags(ts), others)
  {
    if ts != [] {
      CommonIsKept(ts[1..], others);
      assert ChildTags(ts)[1..] == ChildTags(ts[1..]);
    }
  }

  lemma {:induction false} DrawCommonOnly(
    p: Painter, ts: seq<Tree>, others: seq<Tag>, x: real, y: real, clip: Coverage, opacity: real, cell: Rect,
    under: Color)
    requires forall t :: t in ts && t.node.tag !in others ==> DrawsNothing(p, t, x, y, clip, opacity, cell)
    ensures DrawViews(p, ts, x, y, clip, opacity, cell, under) ==
      DrawViews(p, Common(ts, others), x, y, clip, opacity, cell, under)
  {
    if ts != [] {
      var next := DrawView(p, ts[0], x, y, clip, opacity, cell, under);
      DrawCommonOnly(p, ts[1..], others, x, y, clip, opacity, cell, next);
      if ts[0].node.tag in others {
        assert Common(ts, others)[1..] == Common(ts[1..], others);
      } else {
        assert DrawsNothing(p, ts[0], x, y, clip, opacity, cell);
        assert Common(ts, others) == Common(ts[1..], others);
      }
    }
  }

  lemma {:induction false} SameLists(
    p: Painter, ts: seq<Tree>, x: real, y: real, us: seq<Tree>, z: real, w: real, clip: Coverage, opacity: real,
    cell: Rect, under: Color)
    requires |ts| == |us|
    requires forall i, c :: 0 <= i < |ts| ==>
      DrawView(p, ts[i], x, y, clip, opacity, cell, c) == DrawView(p, us[i], z, w, clip, opacity, cell, c)
    ensures DrawViews(p, ts, x, y, clip, opacity, cell, under) == DrawViews(p, us, z, w, clip, opacity, cell, under)
  {
    if ts != [] {
      SameLists(p, ts[1..], x, y, us[1..], z, w, clip, opacity, cell,
        DrawView(p, ts[0], x, y, clip, opacity, cell, under));
    }
  }

  /** Children gone, or all damaged since their order changed, leave the cell as it was. */
  lemma {:induction false} OthersDrawNothing(
    p: Painter, m: Places, other: Places, ts: seq<Tree>, us: seq<Tree>, x: real, y: real, cell: Rect, clip: Coverage,
    opacity: real)
    requires HoldsAll(p, m, ts, x, y) && KeepsParents(m, other) && Apart(ts, us, m, other)
    requires forall tag :: tag in m && tag !in other ==> !Overlap(At(p, m[tag]), cell)
    ensures forall t :: t in ts && t.node.tag !in ChildTags(us) ==> DrawsNothing(p, t, x, y, clip, opacity, cell)
    ensures (forall t :: t in ts && t.node.tag in ChildTags(us) ==> Clear(SubtreeIn(p, m, t.node.tag), cell)) ==>
              forall t :: t in ts ==> DrawsNothing(p, t, x, y, clip, opacity, cell)
  {
    forall t, c | t in ts && t.node.tag !in ChildTags(us)
      ensures DrawView(p, t, x, y, clip, opacity, cell, c) == c
    {
      OneSided(p, m, other, t, x, y, cell, clip, opacity, c);
    }
    forall t, c | t in ts && Clear(SubtreeIn(p, m, t.node.tag), cell)
      ensures DrawView(p, t, x, y, clip, opacity, cell, c) == c
    {
      UnreachedDrawsNothing(p, t, x, y, clip, opacity, cell, c);
    }
  }

  lemma {:induction false} SameChildren(
    p: Painter, was: Places, now: Places, ts: seq<Tree>, x: real, y: real, us: seq<Tree>, z: real, w: real, cell: Rect,
    clip: Coverage, opacity: real, under: Color)
    requires Undamaged(p, was, now, cell)
    requires HoldsAll(p, was, ts, x, y) && HoldsAll(p, now, us, z, w)
    requires Apart(ts, us, was, now) && Apart(us, ts, now, was) && OrderKept(p, was, now, ts, us, cell)
    ensures DrawViews(p, ts, x, y, clip, opacity, cell, under) == DrawViews(p, us, z, w, clip, opacity, cell, under)
    decreases ts, 2
  {
    var before, after := ChildTags(ts), ChildTags(us);
    OthersDrawNothing(p, was, now, ts, us, x, y, cell, clip, opacity);
    OthersDrawNothing(p, now, was, us, ts, z, w, cell, clip, opacity);
    if Kept(before, after) == Kept(after, before) {
      var left, right := Common(ts, after), Common(us, before);
      DrawCommonOnly(p, ts, after, x, y, clip, opacity, cell, under);
      DrawCommonOnly(p, us, before, z, w, clip, opacity, cell, under);
      CommonIsKept(ts, after);
      CommonIsKept(us, before);
      forall i, c | 0 <= i < |left|
        ensures DrawView(p, left[i], x, y, clip, opacity, cell, c) ==
          DrawView(p, right[i], z, w, clip, opacity, cell, c)
      {
        assert left[i].node.tag == ChildTags(left)[i] == ChildTags(right)[i] == right[i].node.tag;
        assert left[i] in ts && right[i] in us;
        SameView(p, was, now, Place(left[i], x, y), Place(right[i], z, w), cell, clip, opacity, c);
      }
      SameLists(p, left, x, y, right, z, w, clip, opacity, cell, under);
    } else {
      forall t | t in ts ensures t.node.tag in before {
        var i :| 0 <= i < |ts| && ts[i] == t;
        assert before[i] == t.node.tag;
      }
      forall t | t in us ensures t.node.tag in after {
        var i :| 0 <= i < |us| && us[i] == t;
        assert after[i] == t.node.tag;
      }
      assert forall t :: t in ts && t.node.tag in after ==> Clear(SubtreeIn(p, was, t.node.tag), cell);
      assert forall t :: t in us && t.node.tag in before ==> Clear(SubtreeIn(p, now, t.node.tag), cell);
      AllDrawNothing(p, ts, x, y, clip, opacity, cell, under);
      AllDrawNothing(p, us, z, w, clip, opacity, cell, under);
    }
  }

  lemma {:induction false} AllDrawNothing(
    p: Painter, ts: seq<Tree>, x: real, y: real, clip: Coverage, opacity: real, cell: Rect, under: Color)
    requires forall t :: t in ts ==> DrawsNothing(p, t, x, y, clip, opacity, cell)
    ensures DrawViews(p, ts, x, y, clip, opacity, cell, under) == under
  {
    if ts != [] {
      assert DrawsNothing(p, ts[0], x, y, clip, opacity, cell);
      AllDrawNothing(p, ts[1..], x, y, clip, opacity, cell, under);
    }
  }

  /** Soundness, cell by cell: where nothing is damaged the two frames are drawn alike. */
  lemma CellUndamaged(p: Painter, was: Scene, now: Scene, cell: Rect, background: Color)
    requires Continues(p, was, now) && Compared(p, was, now) && !cell.Empty()
    requires Clear(FrameDamage(p, PlacesIn(p, was), PlacesIn(p, now)), cell)
    ensures DrawScene(p, was, cell, background) == DrawScene(p, now, cell, background)
  {
    var m, n := PlacesIn(p, was), PlacesIn(p, now);
    AgreeingHoldsAll(p, m, was.roots, was.x, was.y);
    AgreeingHoldsAll(p, n, now.roots, now.x, now.y);
    forall tag, r | (tag in m || tag in n) && r in TagDamage(p, m, n, tag) ensures !Overlap(r, cell) {
      assert r in FrameDamage(p, m, n);
    }
    RootsApart(p, was, now);
    RootsApart(p, now, was);
    SameChildren(p, m, n, was.roots, was.x, was.y, now.roots, now.x, now.y, cell, 1.0, 1.0, background);
  }

  lemma RootsApart(p: Painter, one: Scene, other: Scene)
    requires Continues(p, one, other) || Continues(p, other, one)
    ensures Apart(one.roots, other.roots, PlacesIn(p, one), PlacesIn(p, other))
  {
    forall i | 0 <= i < |one.roots| ensures one.roots[i].node.tag in ChildTags(one.roots) {
      assert ChildTags(one.roots)[i] == one.roots[i].node.tag;
    }
  }

  /** A frame of the same tree damages nothing. */
  lemma UnchangedIsUndamaged(p: Painter, m: Places)
    ensures FrameDamage(p, m, m) == {}
  {
  }
}
