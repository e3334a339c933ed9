/** Two changes compare does not look at, each with frames that go on showing what was there before. */
module DamageLimits {
  import opened Geometry
  import opened Painter
  import opened Damage

  /** A paragraph is drawn as its state, an image as its own props, over all of it. */
  function ColourPainter(): Painter {
    Painter(
      0, (id: int) => Props(Look(1.0, false, 0.0, 0.0, Reach(0.0, 0.0, 0.0, 0.0), 0.0, true, false, false, 0), 0, id),
      (_, _) => Metrics(true, 0), _ => (0.0, 0.0), (_, _) => false, (_, _, _, _, _, _, _, under) => under,
      (_, _, _, _, under) => under,
      (n: Node, _, _, own, _, _, _, _, _) => n.state + own, (_, clip) => clip, (_, _, _, _, _, clip) => clip,
      (_, _, below, inner) => inner, 0)
  }

  function Paragraph(tag: Tag, text: int, box: Rect): Tree {
    Tree(Node(tag, Other("Paragraph"), 0, text, Layout(box, 0), 0, 0), [])
  }

  function Tinted(tint: int, box: Rect): Tree {
    Tree(Node(1, Component.Image, tint, 0, Layout(box, 0), 1, 0), [])
  }

  /** What the two kinds of box share: opaque, nothing under, around or in it. */
  ghost predicate Plain(p: Painter, n: Node) {
    Faded(1.0, LookOf(p, n)) == 1.0 && !Layered(LookOf(p, n), 1.0) && LookOf(p, n).elevation == 0.0 &&
      !OwnSurface(n.component)
  }

  lemma PainterPlain(p: Painter, n: Node)
    requires p == ColourPainter() && (n.component == Other("Paragraph") || n.component.Image?)
    ensures Plain(p, n) && InkAt(p, n, 0.0, 0.0) == n.layout.frame && !DrawsFlat(p, n)
  {
  }

  lemma {:induction false} PlainDrawn(p: Painter, n: Node, cell: Rect, drawn: Color, under: Color)
    requires Plain(p, n) && Own(p, n, 0.0, 0.0, 1.0, 1.0, cell, under) == drawn
    ensures DrawView(p, Tree(n, []), 0.0, 0.0, 1.0, 1.0, cell, under) == drawn
  {
    var content := ContentAt(p, n, 0.0, 0.0);
    assert DrawViews(p, [], content.0, content.1, ChildClip(p, n, 0.0, 0.0, 1.0, cell), 1.0, cell, drawn) == drawn;
  }

  lemma BoxOwn(p: Painter, n: Node, cell: Rect, under: Color)
    requires p == ColourPainter() && Overlap(InkAt(p, n, 0.0, 0.0), cell) && !DrawsFlat(p, n)
    ensures Own(p, n, 0.0, 0.0, 1.0, 1.0, cell, under) == n.state + OwnOf(p, n)
  {
  }

  lemma LastDrawn(p: Painter, ts: seq<Tree>, n: Node, cell: Rect, drawn: Color)
    requires |ts| <= 1 && Plain(p, n)
    requires forall under :: Own(p, n, 0.0, 0.0, 1.0, 1.0, cell, under) == drawn
    ensures DrawScene(p, Scene(ts + [Tree(n, [])], 0.0, 0.0), cell, 0) == drawn
  {
    var t := Tree(n, []);
    var under := if ts == [] then 0 else DrawView(p, ts[0], 0.0, 0.0, 1.0, 1.0, cell, 0);
    PlainDrawn(p, n, cell, drawn, under);
    assert [t][1..] == [] && (ts != [] ==> (ts + [t])[1..] == [t]) && (ts == [] ==> ts + [t] == [t]);
    assert DrawViews(p, [], 0.0, 0.0, 1.0, 1.0, cell, drawn) == drawn;
    assert DrawViews(p, [t], 0.0, 0.0, 1.0, 1.0, cell, under) == drawn;
  }

  lemma BoxOver(p: Painter, ts: seq<Tree>, n: Node, cell: Rect)
    requires p == ColourPainter() && (n.component == Other("Paragraph") || n.component.Image?)
    requires |ts| <= 1 && Overlap(n.layout.frame, cell)
    ensures DrawScene(p, Scene(ts + [Tree(n, [])], 0.0, 0.0), cell, 0) == n.state + OwnOf(p, n)
  {
    PainterPlain(p, n);
    forall under ensures Own(p, n, 0.0, 0.0, 1.0, 1.0, cell, under) == n.state + OwnOf(p, n) {
      BoxOwn(p, n, cell, under);
    }
    LastDrawn(p, ts, n, cell, n.state + OwnOf(p, n));
  }

  lemma {:induction false} LeafPlace(p: Painter, n: Node)
    requires !OwnSurface(n.component)
    ensures PlacesOfAll(p, [Tree(n, [])], 0.0, 0.0) == map[n.tag := Place(Tree(n, []), 0.0, 0.0)]
    ensures PlacesOf(p, Tree(n, []), 0.0, 0.0) == map[n.tag := Place(Tree(n, []), 0.0, 0.0)]
    ensures Distinct(Tree(n, [])) && DistinctAll([Tree(n, [])]) &&
      TagsOf(Tree(n, [])) == {n.tag} == TagsOfAll([Tree(n, [])])
  {
    var t, content := Tree(n, []), ContentAt(p, n, 0.0, 0.0);
    assert PlacesOfAll(p, [], content.0, content.1) == map[];
    assert PlacesOfAll(p, [], 0.0, 0.0) == map[];
    assert [t][1..] == [];
    assert PlacesOf(p, t, 0.0, 0.0) == map[n.tag := Place(t, 0.0, 0.0)];
    assert TagsOfAll([]) == {} && DistinctAll([]);
    assert TagsOf(t) == {n.tag} && Distinct(t);
  }

  lemma TwoPlaces(p: Painter, a: Node, b: Node)
    requires a.tag != b.tag && !OwnSurface(a.component) && !OwnSurface(b.component)
    ensures var s := Scene([Tree(a, []), Tree(b, [])], 0.0, 0.0);
            PlacesIn(p, s) == map[a.tag := Place(Tree(a, []), 0.0, 0.0), b.tag := Place(Tree(b, []), 0.0, 0.0)] &&
            DistinctAll(s.roots) && ChildTags(s.roots) == [a.tag, b.tag]
  {
    LeafPlace(p, a);
    LeafPlace(p, b);
    assert [Tree(a, []), Tree(b, [])][1..] == [Tree(b, [])];
  }

  lemma SameViews(p: Painter, was: Scene, now: Scene, m: Places)
    requires PlacesIn(p, was) == m && PlacesIn(p, now) == m && DistinctAll(was.roots) && DistinctAll(now.roots)
    requires forall tag :: tag in ChildTags(was.roots) <==> tag in ChildTags(now.roots)
    ensures Continues(p, was, now) && NoStaleImage(p, m, m) && FrameDamage(p, m, m) == {}
  {
    UnchangedIsUndamaged(p, m);
  }

  function OneOver(box: Rect): Scene { Scene([Paragraph(1, 5, box), Paragraph(2, 6, box)], 0.0, 0.0) }

  function OtherOver(box: Rect): Scene { Scene([Paragraph(2, 6, box), Paragraph(1, 5, box)], 0.0, 0.0) }

  /** A region's own children drawn in a new order: nothing is damaged, and the other one is on top. */
  lemma ReorderedRegion(p: Painter, box: Rect, cell: Rect)
    requires p == ColourPainter() && Overlap(box, cell)
    ensures Continues(p, OneOver(box), OtherOver(box)) && !RootsInOrder(OneOver(box), OtherOver(box))
    ensures NoStaleImage(p, PlacesIn(p, OneOver(box)), PlacesIn(p, OtherOver(box)))
    ensures FrameDamage(p, PlacesIn(p, OneOver(box)), PlacesIn(p, OtherOver(box))) == {}
    ensures DrawScene(p, OneOver(box), cell, 0) != DrawScene(p, OtherOver(box), cell, 0)
  {
    RegionDrawn(p, box, cell);
    ReorderUncompared(p, box);
  }

  lemma ReorderUncompared(p: Painter, box: Rect)
    ensures Continues(p, OneOver(box), OtherOver(box)) && !RootsInOrder(OneOver(box), OtherOver(box))
    ensures NoStaleImage(p, PlacesIn(p, OneOver(box)), PlacesIn(p, OtherOver(box)))
    ensures FrameDamage(p, PlacesIn(p, OneOver(box)), PlacesIn(p, OtherOver(box))) == {}
  {
    var a, b := Paragraph(1, 5, box), Paragraph(2, 6, box);
    TwoPlaces(p, a.node, b.node);
    TwoPlaces(p, b.node, a.node);
    SameViews(p, OneOver(box), OtherOver(box), map[1 := Place(a, 0.0, 0.0), 2 := Place(b, 0.0, 0.0)]);
    assert Kept([1, 2], [2, 1]) == [1, 2] && Kept([2, 1], [1, 2]) == [2, 1] by {
      assert [1, 2][1..] == [2] && [2, 1][1..] == [1] && [2][1..] == [] && [1][1..] == [];
    }
  }

  lemma RegionDrawn(p: Painter, box: Rect, cell: Rect)
    requires p == ColourPainter() && Overlap(box, cell)
    ensures DrawScene(p, OneOver(box), cell, 0) == 6 && DrawScene(p, OtherOver(box), cell, 0) == 5
  {
    var a, b := Paragraph(1, 5, box), Paragraph(2, 6, box);
    BoxOver(p, [a], b.node, cell);
    BoxOver(p, [b], a.node, cell);
    assert [a] + [b] == [a, b] && [b] + [a] == [b, a];
  }

  // Exactly which new orders of a region's children are drawn rightly.

  /** A list of views naming each once. */
  predicate NoRepeats(tags: seq<Tag>) { forall i, j :: 0 <= i < j < |tags| ==> tags[i] != tags[j] }

  function Named(tags: seq<Tag>): set<Tag> { set t | t in tags }

  /** Whether damage suffices for every painter and every two frames whose lists of views drawn first are these. */
  ghost predicate OrderSuffices(before: seq<Tag>, after: seq<Tag>) {
    forall p, was: Scene, now: Scene, cell: Rect, background ::
      ChildTags(was.roots) == before && ChildTags(now.roots) == after && Continues(p, was, now) && !cell.Empty() &&
      NoStaleImage(p, PlacesIn(p, was), PlacesIn(p, now)) &&
      Clear(FrameDamage(p, PlacesIn(p, was), PlacesIn(p, now)), cell) ==>
        DrawScene(p, was, cell, background) == DrawScene(p, now, cell, background)
  }

  /** It does exactly when the views of both lists keep their order. */
  lemma {:induction false} OrderSufficesExactly(before: seq<Tag>, after: seq<Tag>)
    requires NoRepeats(before) && NoRepeats(after)
    ensures OrderSuffices(before, after) <==> Kept(before, after) == Kept(after, before)
  {
    if Kept(before, after) == Kept(after, before) {
      KeptOrderSuffices(before, after);
    } else {
      NewOrderFails(before, after);
    }
  }

  lemma {:induction false} KeptOrderSuffices(before: seq<Tag>, after: seq<Tag>)
    requires Kept(before, after) == Kept(after, before)
    ensures OrderSuffices(before, after)
  {
    hide Continues, NoStaleImage, FrameDamage, PlacesIn, DrawScene, Clear;
    forall p, was: Scene, now: Scene, cell: Rect, background |
      ChildTags(was.roots) == before && ChildTags(now.roots) == after && Continues(p, was, now) && !cell.Empty() &&
      NoStaleImage(p, PlacesIn(p, was), PlacesIn(p, now)) &&
      Clear(FrameDamage(p, PlacesIn(p, was), PlacesIn(p, now)), cell)
      ensures DrawScene(p, was, cell, background) == DrawScene(p, now, cell, background)
    {
      CellUndamaged(p, was, now, cell, background);
    }
  }

  /** One view somewhere before another in a list. */
  predicate Before(tags: seq<Tag>, a: Tag, b: Tag) {
    exists i, j :: 0 <= i < j < |tags| && tags[i] == a && tags[j] == b
  }

  /** Two lists of the same views in different orders have two of them the other way round. */
  lemma {:induction false} Inverted(u: seq<Tag>, v: seq<Tag>) returns (a: Tag, b: Tag)
    requires NoRepeats(u) && NoRepeats(v) && u != v && Named(u) == Named(v)
    ensures Before(u, a, b) && Before(v, b, a)
  {
    assert (u != [] ==> u[0] in Named(v)) && (v != [] ==> v[0] in Named(u));
    if u[0] == v[0] {
      NamedFirst(u);
      NamedFirst(v);
      a, b := Inverted(u[1..], v[1..]);
      BeforeLater(u, a, b);
      BeforeLater(v, b, a);
    } else {
      a, b := u[0], v[0];
      assert a in v && b in u;
      var j :| 0 <= j < |u| && u[j] == b;
      var i :| 0 <= i < |v| && v[i] == a;
      assert 0 < j && 0 < i;
    }
  }

  lemma NamedFirst(tags: seq<Tag>)
    requires NoRepeats(tags) && tags != []
    ensures Named(tags) == {tags[0]} + Named(tags[1..]) && tags[0] !in Named(tags[1..])
  {
  }

  lemma BeforeLater(tags: seq<Tag>, a: Tag, b: Tag)
    requires tags != [] && Before(tags[1..], a, b)
    ensures Before(tags, a, b)
  {
    var i, j :| 0 <= i < j < |tags[1..]| && tags[1..][i] == a && tags[1..][j] == b;
    assert tags[i + 1] == a && tags[j + 1] == b;
  }

  lemma {:induction false} KeptBefore(tags: seq<Tag>, others: seq<Tag>, a: Tag, b: Tag)
    requires Before(Kept(tags, others), a, b)
    ensures Before(tags, a, b)
  {
    var kept := Kept(tags, others);
    var i, j :| 0 <= i < j < |kept| && kept[i] == a && kept[j] == b;
    if tags[0] in others {
      assert kept[1..] == Kept(tags[1..], others);
      if i > 0 {
        assert kept[1..][i - 1] == a && kept[1..][j - 1] == b;
        KeptBefore(tags[1..], others, a, b);
        BeforeLater(tags, a, b);
      } else {
        assert kept[1..][j - 1] == b;
        KeptHolds(tags[1..], others, b);
        var k :| 0 <= k < |tags[1..]| && tags[1..][k] == b;
        assert tags[0] == a && tags[k + 1] == b;
      }
    } else {
      KeptBefore(tags[1..], others, a, b);
      BeforeLater(tags, a, b);
    }
  }

  lemma {:induction false} KeptNoRepeats(tags: seq<Tag>, others: seq<Tag>)
    requires NoRepeats(tags)
    ensures NoRepeats(Kept(tags, others))
  {
    if tags != [] {
      KeptNoRepeats(tags[1..], others);
      KeptHolds(tags[1..], others, tags[0]);
      assert tags[0] !in tags[1..];
    }
  }

  // Otherwise: two views over a cell the other way round, and every other one nowhere.

  function Box(tag: Tag, a: Tag, b: Tag, box: Rect): Tree {
    if tag == a then Paragraph(tag, 5, box) else if tag == b then Paragraph(tag, 6, box) else Paragraph(tag, 0, NOWHERE)
  }

  function Boxes(tags: seq<Tag>, a: Tag, b: Tag, box: Rect): seq<Tree> {
    if tags == [] then [] else [Box(tags[0], a, b, box)] + Boxes(tags[1..], a, b, box)
  }

  /** What is drawn over the cell last. */
  function Top(tags: seq<Tag>, a: Tag, b: Tag, under: Color): Color {
    if tags == [] then under else Top(tags[1..], a, b, if tags[0] == a then 5 else if tags[0] == b then 6 else under)
  }

  lemma {:induction false} BoxDrawn(p: Painter, tag: Tag, a: Tag, b: Tag, box: Rect, cell: Rect, under: Color)
    requires p == ColourPainter() && Overlap(box, cell)
    ensures DrawView(p, Box(tag, a, b, box), 0.0, 0.0, 1.0, 1.0, cell, under) ==
            if tag == a then 5 else if tag == b then 6 else under
  {
    hide DrawView, Faded, Overlap, Own, ColourPainter;
    var n := Box(tag, a, b, box).node;
    var drawn := if tag == a then 5 else if tag == b then 6 else under;
    PainterPlain(p, n);
    if tag == a || tag == b { BoxOwn(p, n, cell, under); } else { NowhereOwn(p, n, cell, under); }
    PlainDrawn(p, n, cell, drawn, under);
    assert Box(tag, a, b, box) == Tree(n, []);
  }

  lemma NowhereOwn(p: Painter, n: Node, cell: Rect, under: Color)
    requires InkAt(p, n, 0.0, 0.0) == NOWHERE
    ensures Own(p, n, 0.0, 0.0, 1.0, 1.0, cell, under) == under && !Overlap(InkAt(p, n, 0.0, 0.0), cell)
  {
    hide InkAt, DrawsFlat, Overlap;
    EmptyApart(NOWHERE, cell);
  }

  lemma OverlapSelf(cell: Rect)
    requires !cell.Empty()
    ensures Overlap(cell, cell)
  {
  }

  lemma EmptyApart(r: Rect, cell: Rect)
    requires r.Empty()
    ensures !Overlap(r, cell)
  {
  }

  lemma {:induction false} BoxesDrawn(p: Painter, tags: seq<Tag>, a: Tag, b: Tag, box: Rect, cell: Rect, under: Color)
    requires p == ColourPainter() && Overlap(box, cell)
    ensures DrawViews(p, Boxes(tags, a, b, box), 0.0, 0.0, 1.0, 1.0, cell, under) == Top(tags, a, b, under)
    decreases |tags|
  {
    hide DrawView, Box, Overlap, ColourPainter;
    if tags != [] {
      BoxDrawn(p, tags[0], a, b, box, cell, under);
      assert Boxes(tags, a, b, box)[1..] == Boxes(tags[1..], a, b, box);
      BoxesDrawn(p, tags[1..], a, b, box, cell, if tags[0] == a then 5 else if tags[0] == b then 6 else under);
    }
  }

  lemma {:induction false} TopUnder(tags: seq<Tag>, a: Tag, b: Tag, under: Color)
    requires a !in tags && b !in tags
    ensures Top(tags, a, b, under) == under
  {
    if tags != [] { TopUnder(tags[1..], a, b, under); }
  }

  /** The later of two is on top. */
  lemma {:induction false} TopLater(tags: seq<Tag>, a: Tag, b: Tag, under: Color)
    requires NoRepeats(tags) && a != b
    ensures Before(tags, a, b) ==> Top(tags, a, b, under) == 6
    ensures Before(tags, b, a) ==> Top(tags, a, b, under) == 5
    decreases |tags|
  {
    if tags != [] {
      var rest, drawn := tags[1..], if tags[0] == a then 5 else if tags[0] == b then 6 else under;
      TopLater(rest, a, b, drawn);
      TopOne(rest, a, b, drawn);
      if Before(tags, a, b) { BeforeFirst(tags, a, b); }
      if Before(tags, b, a) { BeforeFirst(tags, b, a); }
    }
  }

  /** With one of them in the list, it is. */
  lemma {:induction false} TopOne(tags: seq<Tag>, a: Tag, b: Tag, under: Color)
    requires NoRepeats(tags) && a != b
    ensures a in tags && b !in tags ==> Top(tags, a, b, under) == 5
    ensures b in tags && a !in tags ==> Top(tags, a, b, under) == 6
    decreases |tags|
  {
    if tags != [] {
      var rest, drawn := tags[1..], if tags[0] == a then 5 else if tags[0] == b then 6 else under;
      TopOne(rest, a, b, drawn);
      assert tags == [tags[0]] + rest;
      assert tags[0] !in rest;
      if a !in rest && b !in rest { TopUnder(rest, a, b, drawn); }
    }
  }

  lemma BeforeFirst(tags: seq<Tag>, a: Tag, b: Tag)
    requires NoRepeats(tags) && tags != [] && Before(tags, a, b)
    ensures if tags[0] == a then b in tags[1..] && a !in tags[1..] else Before(tags[1..], a, b) && tags[0] != b
  {
    var i, j :| 0 <= i < j < |tags| && tags[i] == a && tags[j] == b;
    assert tags[1..][j - 1] == b;
    if i > 0 { assert tags[1..][i - 1] == a && tags[0] != tags[j]; }
  }

  ghost function BoxPlaces(tags: set<Tag>, a: Tag, b: Tag, box: Rect): Places {
    map tag | tag in tags :: Place(Box(tag, a, b, box), 0.0, 0.0)
  }

  lemma {:induction false} BoxesTagged(tags: seq<Tag>, a: Tag, b: Tag, box: Rect)
    requires NoRepeats(tags)
    ensures DistinctAll(Boxes(tags, a, b, box)) && ChildTags(Boxes(tags, a, b, box)) == tags
    ensures TagsOfAll(Boxes(tags, a, b, box)) == Named(tags)
    decreases |tags|
  {
    hide Distinct, TagsOf, Box;
    var boxes := Boxes(tags, a, b, box);
    if tags != [] {
      BoxLeaf(ColourPainter(), tags[0], a, b, box);
      assert boxes[1..] == Boxes(tags[1..], a, b, box);
      BoxesTagged(tags[1..], a, b, box);
      assert Named(tags) == {tags[0]} + Named(tags[1..]);
    }
  }

  lemma {:induction false} BoxLeaf(p: Painter, tag: Tag, a: Tag, b: Tag, box: Rect)
    ensures var t := Box(tag, a, b, box);
            t.node.tag == tag && Distinct(t) && TagsOf(t) == {tag} &&
              PlacesOf(p, t, 0.0, 0.0) == map[tag := Place(t, 0.0, 0.0)]
  {
    LeafPlace(p, Box(tag, a, b, box).node);
    assert Box(tag, a, b, box) == Tree(Box(tag, a, b, box).node, []);
  }

  lemma {:induction false} BoxesPlaced(p: Painter, tags: seq<Tag>, a: Tag, b: Tag, box: Rect)
    ensures PlacesOfAll(p, Boxes(tags, a, b, box), 0.0, 0.0) == BoxPlaces(Named(tags), a, b, box)
    decreases |tags|
  {
    hide PlacesOf, Box;
    var boxes := Boxes(tags, a, b, box);
    if tags != [] {
      BoxLeaf(p, tags[0], a, b, box);
      assert boxes[1..] == Boxes(tags[1..], a, b, box);
      BoxesPlaced(p, tags[1..], a, b, box);
      PlacesFirst(tags, a, b, box);
    }
  }

  lemma PlacesFirst(tags: seq<Tag>, a: Tag, b: Tag, box: Rect)
    requires tags != []
    ensures BoxPlaces(Named(tags), a, b, box) ==
            map[tags[0] := Place(Box(tags[0], a, b, box), 0.0, 0.0)] + BoxPlaces(Named(tags[1..]), a, b, box)
  {
    hide Box;
    assert Named(tags) == {tags[0]} + Named(tags[1..]);
  }

  lemma {:induction false} NewOrderFails(before: seq<Tag>, after: seq<Tag>)
    requires NoRepeats(before) && NoRepeats(after) && Kept(before, after) != Kept(after, before)
    ensures !OrderSuffices(before, after)
  {
    KeptNoRepeats(before, after);
    KeptNoRepeats(after, before);
    forall t ensures t in Named(Kept(before, after)) <==> t in Named(Kept(after, before)) {
      KeptHolds(before, after, t);
      KeptHolds(after, before, t);
    }
    var a, b := Inverted(Kept(before, after), Kept(after, before));
    KeptBefore(before, after, a, b);
    KeptBefore(after, before, b, a);
    InvertedFails(before, after, a, b);
  }

  lemma InvertedFails(before: seq<Tag>, after: seq<Tag>, a: Tag, b: Tag)
    requires NoRepeats(before) && NoRepeats(after) && Before(before, a, b) && Before(after, b, a)
    ensures !OrderSuffices(before, after)
  {
    hide Overlap, DrawViews, Boxes, PlacesOfAll, Continues, NoStaleImage, FrameDamage, Top, DistinctAll, ColourPainter,
      Clear, ChildTags;
    var p, cell := ColourPainter(), Rect(0.0, 0.0, 1.0, 1.0);
    var was, now := Scene(Boxes(before, a, b, cell), 0.0, 0.0), Scene(Boxes(after, a, b, cell), 0.0, 0.0);
    OverlapSelf(cell);
    BoxesTagged(before, a, b, cell);
    BoxesTagged(after, a, b, cell);
    BoxesPlaced(p, before, a, b, cell);
    BoxesPlaced(p, after, a, b, cell);
    BoxesDrawn(p, before, a, b, cell, cell, 0);
    BoxesDrawn(p, after, a, b, cell, cell, 0);
    TopLater(before, a, b, 0);
    TopLater(after, a, b, 0);
    BoxesContinue(p, was, now, before, after, a, b, cell);
    assert DrawScene(p, was, cell, 0) == 6 && DrawScene(p, now, cell, 0) == 5;
  }

  lemma BoxesContinue(p: Painter, was: Scene, now: Scene, before: seq<Tag>, after: seq<Tag>, a: Tag, b: Tag, cell: Rect)
    requires p == ColourPainter() && !cell.Empty() && DistinctAll(was.roots) && DistinctAll(now.roots)
    requires a in before && a in after && b in before && b in after
    requires ChildTags(was.roots) == before && ChildTags(now.roots) == after
    requires PlacesIn(p, was) == BoxPlaces(Named(before), a, b, cell)
    requires PlacesIn(p, now) == BoxPlaces(Named(after), a, b, cell)
    ensures Continues(p, was, now) && NoStaleImage(p, PlacesIn(p, was), PlacesIn(p, now))
    ensures Clear(FrameDamage(p, PlacesIn(p, was), PlacesIn(p, now)), cell)
  {
    hide DistinctAll, PlacesIn, ViewDamage, Overlap, InkAt, ColourPainter;
    var m, n := PlacesIn(p, was), PlacesIn(p, now);
    assert ChildTags([]) == [];
    forall tag, r | r in TagDamage(p, m, n, tag) ensures !Overlap(r, cell) {
      if tag in m && tag in n {
        SelfUndamaged(p, m, n, m[tag]);
      } else {
        assert tag != a && tag != b;
        NowhereClear(p, Box(tag, a, b, cell), cell);
      }
    }
  }

  lemma NowhereClear(p: Painter, t: Tree, cell: Rect)
    requires p == ColourPainter() && t.node.component == Other("Paragraph") && t.node.layout.frame == NOWHERE
    ensures !Overlap(At(p, Place(t, 0.0, 0.0)), cell)
  {
    hide InkAt, Overlap, ColourPainter, Own;
    PainterPlain(p, t.node);
    NowhereOwn(p, t.node, cell, 0);
  }

  lemma SelfUndamaged(p: Painter, m: Places, n: Places, a: Place)
    ensures ViewDamage(p, m, n, a, a) == {}
  {
  }

  function Image(tint: int, box: Rect): Scene { Scene([Tinted(tint, box)], 0.0, 0.0) }

  /** An Image view with a new tint alone: nothing is damaged, and the picture keeps the old one. */
  lemma RetintedImage(p: Painter, tint: int, other: int, box: Rect, cell: Rect)
    requires p == ColourPainter() && Overlap(box, cell) && tint != other
    ensures Continues(p, Image(tint, box), Image(other, box)) && RootsInOrder(Image(tint, box), Image(other, box))
    ensures !NoStaleImage(p, PlacesIn(p, Image(tint, box)), PlacesIn(p, Image(other, box)))
    ensures FrameDamage(p, PlacesIn(p, Image(tint, box)), PlacesIn(p, Image(other, box))) == {}
    ensures DrawScene(p, Image(tint, box), cell, 0) != DrawScene(p, Image(other, box), cell, 0)
  {
    TintUncompared(p, tint, other, box);
    TintDrawn(p, tint, box, cell);
    TintDrawn(p, other, box, cell);
  }

  lemma TintUncompared(p: Painter, tint: int, other: int, box: Rect)
    requires p == ColourPainter() && tint != other
    ensures Continues(p, Image(tint, box), Image(other, box)) && RootsInOrder(Image(tint, box), Image(other, box))
    ensures !NoStaleImage(p, PlacesIn(p, Image(tint, box)), PlacesIn(p, Image(other, box)))
    ensures FrameDamage(p, PlacesIn(p, Image(tint, box)), PlacesIn(p, Image(other, box))) == {}
  {
    var a, b := Tinted(tint, box), Tinted(other, box);
    LeafPlace(p, a.node);
    LeafPlace(p, b.node);
    var m, n := map[1 := Place(a, 0.0, 0.0)], map[1 := Place(b, 0.0, 0.0)];
    assert ChildTags([a]) == [1] == ChildTags([b]) && ChildTags(a.children) == [] == ChildTags(b.children);
    assert OwnOf(p, a.node) == tint && OwnOf(p, b.node) == other;
    assert StaleImage(p, m[1], n[1]);
    assert TagDamage(p, m, n, 1) == {};
  }

  lemma TintDrawn(p: Painter, tint: int, box: Rect, cell: Rect)
    requires p == ColourPainter() && Overlap(box, cell)
    ensures DrawScene(p, Image(tint, box), cell, 0) == tint
  {
    var a := Tinted(tint, box);
    BoxOver(p, [], a.node, cell);
    assert OwnOf(p, a.node) == tint;
    assert [] + [a] == [a];
  }

  // Exactly which changes of an Image view alone are drawn rightly.

  function Leaf(n: Node, x: real, y: real): Scene { Scene([Tree(n, [])], x, y) }

  /** Whether damage suffices, for every such painter, when a view alone changes. */
  ghost predicate ChangeSuffices(p: Painter, was: Node, now: Node, x: real, y: real) {
    forall q, cell: Rect, background ::
      ReadsAlike(p, q) && !cell.Empty() &&
      Clear(FrameDamage(q, PlacesIn(q, Leaf(was, x, y)), PlacesIn(q, Leaf(now, x, y))), cell) ==>
        DrawScene(q, Leaf(was, x, y), cell, background) == DrawScene(q, Leaf(now, x, y), cell, background)
  }

  /** A view that draws nothing anywhere. */
  predicate Unseen(p: Painter, n: Node) {
    Faded(1.0, LookOf(p, n)) <= 0.001 || InkAt(p, n, 0.0, 0.0).Empty()
  }

  /**
   An Image view's change is drawn rightly exactly when it is not stale: damaged, or with its own props as they were; or
   never seen.
   */
  lemma ImageSufficesExactly(p: Painter, was: Node, now: Node, x: real, y: real)
    requires was.component.Image? && now.component.Image? && was.tag == now.tag
    ensures ChangeSuffices(p, was, now, x, y) <==>
            !StaleImage(p, Place(Tree(was, []), x, y), Place(Tree(now, []), x, y)) || Unseen(p, now)
  {
    if !StaleImage(p, Place(Tree(was, []), x, y), Place(Tree(now, []), x, y)) {
      FreshImageSuffices(p, was, now, x, y);
    } else if Unseen(p, now) {
      UnseenSuffices(p, was, now, x, y);
    } else {
      StaleImageFails(p, was, now, x, y);
    }
  }

  lemma LeafAt(p: Painter, n: Node, x: real, y: real)
    requires !OwnSurface(n.component)
    ensures PlacesIn(p, Leaf(n, x, y)) == map[n.tag := Place(Tree(n, []), x, y)]
    ensures DistinctAll(Leaf(n, x, y).roots) && ChildTags(Leaf(n, x, y).roots) == [n.tag]
  {
    var t, content := Tree(n, []), ContentAt(p, n, x, y);
    LeafPlace(p, n);
    assert PlacesOfAll(p, [], content.0, content.1) == map[] && PlacesOfAll(p, [], x, y) == map[];
    assert [t][1..] == [] && PlacesOf(p, t, x, y) == map[n.tag := Place(t, x, y)];
  }

  /** A view that appears alone damages its own rectangle. */
  lemma AppearsAlone(p: Painter, n: Node)
    requires !OwnSurface(n.component)
    ensures var was, now := Scene([], 0.0, 0.0), Leaf(n, 0.0, 0.0);
            Continues(p, was, now) && Compared(p, was, now) &&
            FrameDamage(p, PlacesIn(p, was), PlacesIn(p, now)) == {InkAt(p, n, 0.0, 0.0)}
  {
    LeafAt(p, n, 0.0, 0.0);
    var was, now := Scene([], 0.0, 0.0), Leaf(n, 0.0, 0.0);
    assert PlacesIn(p, was) == map[] && ChildTags(was.roots) == [] && [n.tag][1..] == [];
    assert Kept([], [n.tag]) == [] == Kept([n.tag], []);
    assert TagDamage(p, PlacesIn(p, was), PlacesIn(p, now), n.tag) == {InkAt(p, n, 0.0, 0.0)};
  }

  lemma LeavesContinue(p: Painter, was: Node, now: Node, x: real, y: real)
    requires was.component.Image? && now.component.Image? && was.tag == now.tag
    ensures Continues(p, Leaf(was, x, y), Leaf(now, x, y)) && RootsInOrder(Leaf(was, x, y), Leaf(now, x, y))
  {
    LeafAt(p, was, x, y);
    LeafAt(p, now, x, y);
    assert ChildTags([]) == [];
  }

  lemma FreshImageSuffices(p: Painter, was: Node, now: Node, x: real, y: real)
    requires was.component.Image? && now.component.Image? && was.tag == now.tag
    requires !StaleImage(p, Place(Tree(was, []), x, y), Place(Tree(now, []), x, y))
    ensures ChangeSuffices(p, was, now, x, y)
  {
    forall q, cell: Rect, background |
      ReadsAlike(p, q) && !cell.Empty() &&
      Clear(FrameDamage(q, PlacesIn(q, Leaf(was, x, y)), PlacesIn(q, Leaf(now, x, y))), cell)
      ensures DrawScene(q, Leaf(was, x, y), cell, background) == DrawScene(q, Leaf(now, x, y), cell, background)
    {
      FreshLeaves(p, q, was, now, x, y);
      hide FrameDamage, PlacesIn, DrawScene, Continues, Compared;
      CellUndamaged(q, Leaf(was, x, y), Leaf(now, x, y), cell, background);
    }
  }

  lemma FreshLeaves(p: Painter, q: Painter, was: Node, now: Node, x: real, y: real)
    requires was.component.Image? && now.component.Image? && was.tag == now.tag && ReadsAlike(p, q)
    requires !StaleImage(p, Place(Tree(was, []), x, y), Place(Tree(now, []), x, y))
    ensures Continues(q, Leaf(was, x, y), Leaf(now, x, y)) && Compared(q, Leaf(was, x, y), Leaf(now, x, y))
  {
    LeavesContinue(q, was, now, x, y);
    LeafAt(q, was, x, y);
    LeafAt(q, now, x, y);
  }

  lemma UnseenSuffices(p: Painter, was: Node, now: Node, x: real, y: real)
    requires was.component.Image? && now.component.Image? && was.tag == now.tag && Unseen(p, now)
    requires StaleImage(p, Place(Tree(was, []), x, y), Place(Tree(now, []), x, y))
    ensures ChangeSuffices(p, was, now, x, y)
  {
    forall q, cell: Rect, background | ReadsAlike(p, q) && !cell.Empty()
      ensures DrawScene(q, Leaf(was, x, y), cell, background) == DrawScene(q, Leaf(now, x, y), cell, background)
    {
      assert InkAt(q, was, x, y) == InkAt(q, now, x, y);
      UnseenDrawn(q, was, x, y, cell, background);
      UnseenDrawn(q, now, x, y, cell, background);
    }
  }

  lemma UnseenDrawn(p: Painter, n: Node, x: real, y: real, cell: Rect, under: Color)
    requires n.component.Image? && (Faded(1.0, LookOf(p, n)) <= 0.001 || InkAt(p, n, x, y).Empty())
    ensures DrawScene(p, Leaf(n, x, y), cell, under) == under
  {
    var t, content := Tree(n, []), ContentAt(p, n, x, y);
    if InkAt(p, n, x, y).Empty() {
      assert ReachedAll(p, [], content.0, content.1) == {};
      UnreachedDrawsNothing(p, t, x, y, 1.0, 1.0, cell, under);
    }
    assert DrawView(p, t, x, y, 1.0, 1.0, cell, under) == under;
    assert [t][1..] == [] && DrawViews(p, [], x, y, 1.0, 1.0, cell, under) == under;
  }

  /** A painter that tells one value of an Image's own props from any other. */
  function TellingPainter(p: Painter, own: int): Painter {
    p.(ink := (n: Node, _, _, o, _, _, _, _, _) => if o == own then 1 else 2, blend := (_, _, below, inner) => inner,
       shadow := (_, _, _, _, _, _, _, under) => under, clear := 0)
  }

  lemma StaleImageFails(p: Painter, was: Node, now: Node, x: real, y: real)
    requires was.component.Image? && now.component.Image? && was.tag == now.tag && !Unseen(p, now)
    requires StaleImage(p, Place(Tree(was, []), x, y), Place(Tree(now, []), x, y))
    ensures !ChangeSuffices(p, was, now, x, y)
  {
    var q, cell := TellingPainter(p, OwnOf(p, was)), InkAt(p, now, x, y);
    assert InkAt(p, was, x, y) == cell && InkAt(q, was, x, y) == cell == InkAt(q, now, x, y) && Overlap(cell, cell);
    ImageTold(q, was, x, y, cell);
    ImageTold(q, now, x, y, cell);
    StaleUndamaged(q, was, now, x, y);
    assert Clear({}, cell);
  }

  lemma StaleUndamaged(p: Painter, was: Node, now: Node, x: real, y: real)
    requires was.component.Image? && now.component.Image? && was.tag == now.tag
    requires StaleImage(p, Place(Tree(was, []), x, y), Place(Tree(now, []), x, y))
    ensures FrameDamage(p, PlacesIn(p, Leaf(was, x, y)), PlacesIn(p, Leaf(now, x, y))) == {}
  {
    LeafAt(p, was, x, y);
    LeafAt(p, now, x, y);
    var m, n := PlacesIn(p, Leaf(was, x, y)), PlacesIn(p, Leaf(now, x, y));
    assert ChildTags([]) == [];
    assert TagDamage(p, m, n, now.tag) == {};
  }

  lemma ImageTold(q: Painter, n: Node, x: real, y: real, cell: Rect)
    requires exists p, own :: q == TellingPainter(p, own)
    requires n.component.Image? && Faded(1.0, LookOf(q, n)) > 0.001 && Overlap(InkAt(q, n, x, y), cell)
    ensures forall p, own ::
      q == TellingPainter(p, own) ==> DrawScene(q, Leaf(n, x, y), cell, 0) == if OwnOf(q, n) == own then 1 else 2
  {
    var t, content := Tree(n, []), ContentAt(q, n, x, y);
    forall p, own | q == TellingPainter(p, own)
      ensures DrawScene(q, Leaf(n, x, y), cell, 0) == if OwnOf(q, n) == own then 1 else 2
    {
      var told := if OwnOf(q, n) == own then 1 else 2;
      var drawn := Faded(1.0, LookOf(q, n));
      var within := Within(LookOf(q, n), drawn);
      assert forall under :: Own(q, n, x, y, 1.0, within, cell, under) == told;
      assert DrawViews(q, [], content.0, content.1, ChildClip(q, n, x, y, 1.0, cell), within, cell, told) == told;
      assert DrawView(q, t, x, y, 1.0, 1.0, cell, 0) == told;
      assert [t][1..] == [] && DrawViews(q, [], x, y, 1.0, 1.0, cell, told) == told;
    }
  }
}
