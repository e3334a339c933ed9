/** WindowDamage as the host keeps it: the views seen last, compared with the tree's, loop by loop. */
module WindowDamages {
  import opened Geometry
  import opened Optional
  import opened Sets
  import opened Painter
  import opened Damage
  import opened Frames
  import opened Placements

  lemma {:induction false} TagsOfAllPrefix(ts: seq<Tree>, i: nat)
    requires DistinctAll(ts) && i < |ts|
    ensures Distinct(ts[i]) && TagsOf(ts[i]) !! TagsOfAll(ts[..i]) && TagsOf(ts[i]) <= TagsOfAll(ts)
  {
    if i > 0 {
      TagsOfAllPrefix(ts[1..], i - 1);
      assert ts[..i][1..] == ts[1..][..i - 1];
    }
  }

  lemma MapsJoin(a: Places, b: Places, c: Places)
    ensures (a + b) + c == a + (b + c)
  {
  }

  lemma {:induction false} PlacesAppend(p: Painter, ts: seq<Tree>, t: Tree, x: real, y: real)
    ensures PlacesOfAll(p, ts + [t], x, y) == PlacesOfAll(p, ts, x, y) + PlacesOf(p, t, x, y)
  {
    hide PlacesOf;
    if ts == [] {
      assert (ts + [t])[1..] == [];
    } else {
      PlacesAppend(p, ts[1..], t, x, y);
      assert (ts + [t])[1..] == ts[1..] + [t] && (ts + [t])[0] == ts[0];
      MapsJoin(PlacesOf(p, ts[0], x, y), PlacesOfAll(p, ts[1..], x, y), PlacesOf(p, t, x, y));
    }
  }

  lemma {:induction false} ReachedAppend(p: Painter, ts: seq<Tree>, t: Tree, x: real, y: real)
    ensures ReachedAll(p, ts + [t], x, y) == ReachedAll(p, ts, x, y) + Reached(p, t, x, y)
  {
    hide Reached;
    if ts == [] {
      assert (ts + [t])[1..] == [];
    } else {
      ReachedAppend(p, ts[1..], t, x, y);
      assert (ts + [t])[1..] == ts[1..] + [t];
    }
  }

  lemma {:induction false} KeptAppend(children: seq<Tag>, child: Tag, others: seq<Tag>)
    ensures Kept(children + [child], others) == Kept(children, others) + if child in others then [child] else []
  {
    if children == [] {
      assert (children + [child])[1..] == [];
    } else {
      KeptAppend(children[1..], child, others);
      assert (children + [child])[1..] == children[1..] + [child];
    }
  }

  /** collect: every view drawn from `t` down, added to those collected before. */
  method Collect(p: Painter, t: Tree, x: real, y: real, before: Views) returns (views: Views)
    requires Distinct(t) && TagsOf(t) !! before.Keys
    ensures views == before + Shown(p, PlacesOf(p, t, x, y))
    ensures views.Keys <= before.Keys + TagsOf(t)
    decreases t
  {
    views := before;
    if OwnSurface(t.node.component) { return; }
    views := views[t.node.tag := SeenAt(p, Place(t, x, y))];
    ghost var start := views;
    var content := ContentAt(p, t.node, x, y);
    for i := 0 to |t.children|
      invariant views == start + Shown(p, PlacesOfAll(p, t.children[..i], content.0, content.1))
      invariant views.Keys <= start.Keys + TagsOfAll(t.children[..i])
    {
      var child := t.children[i];
      ghost var sofar, more :=
        PlacesOfAll(p, t.children[..i], content.0, content.1), PlacesOf(p, child, content.0, content.1);
      TagsOfAllPrefix(t.children, i);
      PrefixStep(t.children, i);
      PlacesAppend(p, t.children[..i], child, content.0, content.1);
      views := Collect(p, child, content.0, content.1, views);
      ShownTogether(p, start, sofar, more);
    }
    assert t.children[..|t.children|] == t.children;
    PlacesAllTagged(p, t.children, content.0, content.1);
    ShownUnder(p, before, PlacesOfAll(p, t.children, content.0, content.1), t.node.tag, Place(t, x, y));
  }

  /** The window's views from its root, or a region's from each of its children. */
  method CollectScene(p: Painter, s: Scene) returns (views: Views)
    requires DistinctAll(s.roots)
    ensures views == Shown(p, PlacesIn(p, s))
    // That is exactly the drawn views, each where its frames and the scrolling around it put it.
    ensures AllSeen(p, s, views)
  {
    views := map[];
    ghost var none: Views := map[];
    for i := 0 to |s.roots|
      invariant views == none + Shown(p, PlacesOfAll(p, s.roots[..i], s.x, s.y))
      invariant views.Keys <= TagsOfAll(s.roots[..i])
    {
      var t := s.roots[i];
      ghost var sofar, more := PlacesOfAll(p, s.roots[..i], s.x, s.y), PlacesOf(p, t, s.x, s.y);
      TagsOfAllPrefix(s.roots, i);
      PrefixStep(s.roots, i);
      PlacesAppend(p, s.roots[..i], t, s.x, s.y);
      views := Collect(p, t, s.x, s.y, views);
      ShownTogether(p, none, sofar, more);
    }
    assert s.roots[..|s.roots|] == s.roots;
    SeenWhereDrawn(p, s, views);
  }

  lemma ShownTogether(p: Painter, views: Views, a: Places, b: Places)
    ensures views + Shown(p, a) + Shown(p, b) == views + Shown(p, a + b)
  {
  }

  lemma ShownUnder(p: Painter, views: Views, m: Places, tag: Tag, a: Place)
    requires tag !in m
    ensures views[tag := SeenAt(p, a)] + Shown(p, m) == views + Shown(p, m[tag := a])
  {
  }

  lemma PrefixStep(ts: seq<Tree>, i: nat)
    requires i < |ts|
    ensures ts[..i + 1] == ts[..i] + [ts[i]]
    ensures TagsOfAll(ts[..i + 1]) == TagsOfAll(ts[..i]) + TagsOf(ts[i])
  {
    assert ts[..i + 1] == ts[..i] + [ts[i]];
    TagsAppend(ts[..i], ts[i]);
  }

  lemma {:induction false} TagsAppend(ts: seq<Tree>, t: Tree)
    ensures TagsOfAll(ts + [t]) == TagsOfAll(ts) + TagsOf(t)
  {
    if ts == [] {
      assert (ts + [t])[1..] == [];
    } else {
      TagsAppend(ts[1..], t);
      assert (ts + [t])[1..] == ts[1..] + [t];
    }
  }

  /** Pushes a whole subtree's ink rectangles, found by tag in the flat map: those of `Reached`, no more. */
  method PushSubtree(p: Painter, views: Views, tag: Tag, before: seq<Rect>, ghost m: Places, ghost t: Tree,
      ghost x: real, ghost y: real)
    returns (damage: seq<Rect>)
    requires views == Shown(p, m) && Holds(p, m, t, x, y) && tag == t.node.tag
    ensures Elements(damage) == Elements(before) + Reached(p, t, x, y)
    decreases t
  {
    damage := before;
    if tag !in views { return; }
    damage := damage + [views[tag].at];
    assert Elements(damage) == Elements(before) + {views[tag].at};
    ghost var content := ContentAt(p, t.node, x, y);
    var children := views[tag].children;
    for i := 0 to |children|
      invariant Elements(damage) ==
        Elements(before) + {views[tag].at} + ReachedAll(p, t.children[..i], content.0, content.1)
    {
      PrefixStep(t.children, i);
      ReachedAppend(p, t.children[..i], t.children[i], content.0, content.1);
      damage := PushSubtree(p, views, children[i], damage, m, t.children[i], content.0, content.1);
    }
    assert t.children[..|t.children|] == t.children;
  }

  /** A view's subtree where a map of views has it, and nothing where it has not. */
  method PushIfSeen(p: Painter, views: Views, tag: Tag, before: seq<Rect>, ghost m: Places, ghost s: Scene)
      returns (damage: seq<Rect>)
    requires DistinctAll(s.roots) && m == PlacesIn(p, s) && views == Shown(p, m)
    ensures Elements(damage) == Elements(before) + SubtreeIn(p, m, tag)
  {
    damage := before;
    if tag in views {
      SceneHolds(p, s, tag);
      damage := PushSubtree(p, views, tag, before, m, m[tag].tree, m[tag].x, m[tag].y);
    }
  }

  /** Every place of a scene holds its subtree. */
  lemma {:induction false} SceneHolds(p: Painter, s: Scene, tag: Tag)
    requires DistinctAll(s.roots) && tag in PlacesIn(p, s)
    ensures var m := PlacesIn(p, s); m[tag].tree.node.tag == tag && Holds(p, m, m[tag].tree, m[tag].x, m[tag].y)
  {
    AgreeingHoldsAll(p, PlacesIn(p, s), s.roots, s.x, s.y);
    AllPlacesHold(p, PlacesIn(p, s), s.roots, s.x, s.y, tag);
  }

  lemma {:induction false} PlaceHolds(p: Painter, m: Places, t: Tree, x: real, y: real, tag: Tag)
    requires Holds(p, m, t, x, y) && tag in PlacesOf(p, t, x, y)
    ensures var a := PlacesOf(p, t, x, y)[tag]; a.tree.node.tag == tag && Holds(p, m, a.tree, a.x, a.y)
    decreases t, 1
  {
    if tag != t.node.tag {
      var content := ContentAt(p, t.node, x, y);
      AllPlacesHold(p, m, t.children, content.0, content.1, tag);
    }
  }

  lemma {:induction false} AllPlacesHold(p: Painter, m: Places, ts: seq<Tree>, x: real, y: real, tag: Tag)
    requires HoldsAll(p, m, ts, x, y) && tag in PlacesOfAll(p, ts, x, y)
    ensures var a := PlacesOfAll(p, ts, x, y)[tag]; a.tree.node.tag == tag && Holds(p, m, a.tree, a.x, a.y)
    decreases ts, 0
  {
    if tag in PlacesOfAll(p, ts[1..], x, y) {
      forall i | 0 <= i < |ts[1..]| ensures Holds(p, m, ts[1..][i], x, y) { assert ts[1..][i] == ts[i + 1]; }
      AllPlacesHold(p, m, ts[1..], x, y, tag);
    } else {
      PlaceHolds(p, m, ts[0], x, y, tag);
    }
  }

  /** The lambda `kept`: the children of one list that are in another. */
  method KeptIn(children: seq<Tag>, others: seq<Tag>) returns (common: seq<Tag>)
    ensures common == Kept(children, others)
  {
    common := [];
    for i := 0 to |children|
      invariant common == Kept(children[..i], others)
    {
      assert children[..i + 1] == children[..i] + [children[i]];
      KeptAppend(children[..i], children[i], others);
      if children[i] in others { common := common + [children[i]]; }
    }
    assert children[..|children|] == children;
  }

  method PushChildren(p: Painter, seen: Views, now: Views, children: seq<Tag>, before: seq<Rect>, ghost was: Scene,
      ghost next: Scene)
    returns (damage: seq<Rect>)
    requires DistinctAll(was.roots) && seen == Shown(p, PlacesIn(p, was))
    requires DistinctAll(next.roots) && now == Shown(p, PlacesIn(p, next))
    ensures Elements(damage) == Elements(before) + ChildrenDamage(p, PlacesIn(p, was), PlacesIn(p, next), children)
  {
    damage := before;
    ghost var m, n := PlacesIn(p, was), PlacesIn(p, next);
    for i := 0 to |children|
      invariant Elements(damage) == Elements(before) + ChildrenDamage(p, m, n, children[..i])
    {
      assert children[..i + 1] == children[..i] + [children[i]];
      ChildrenDamageAppend(p, m, n, children[..i], children[i]);
      damage := PushIfSeen(p, seen, children[i], damage, m, was);
      damage := PushIfSeen(p, now, children[i], damage, n, next);
    }
    assert children[..|children|] == children;
  }

  class WindowDamage {
    const painter: Painter
    var seen: Views
    var display: Option<Display>
    /** What the last frame drew. */
    ghost var scene: Scene

    ghost predicate Valid()
      reads this
    {
      DistinctAll(scene.roots) && seen == Shown(painter, PlacesIn(painter, scene))
    }

    constructor (p: Painter)
      ensures Valid() && painter == p && display == None && scene == Scene([], 0.0, 0.0)
    {
      painter, seen, display, scene := p, map[], None, Scene([], 0.0, 0.0);
    }

    /** Children drawn in a new order: damaged, subtrees and all, in both frames. */
    method PushReordered(tag: Tag, now: Views, before: seq<Rect>, ghost next: Scene) returns (damage: seq<Rect>)
      requires Valid() && DistinctAll(next.roots) && now == Shown(painter, PlacesIn(painter, next))
      requires tag in seen && tag in now
      ensures var m, n := PlacesIn(painter, scene), PlacesIn(painter, next);
              Elements(damage) == Elements(before) + OrderDamage(painter, m, n, m[tag], n[tag])
    {
      damage := before;
      ghost var m, n := PlacesIn(painter, scene), PlacesIn(painter, next);
      var earlier := KeptIn(seen[tag].children, now[tag].children);
      var after := KeptIn(now[tag].children, seen[tag].children);
      if earlier == after { return; }
      ReorderedDamages(painter, m, n, m[tag], n[tag]);
      damage := PushChildren(painter, seen, now, after, damage, scene, next);
    }

    /** What one view drawn in both frames damages, pushed as compare pushes it. */
    method PushView(tag: Tag, now: Views, before: seq<Rect>, ghost next: Scene) returns (damage: seq<Rect>)
      requires Valid() && DistinctAll(next.roots) && now == Shown(painter, PlacesIn(painter, next))
      requires tag in seen && tag in now
      ensures var m, n := PlacesIn(painter, scene), PlacesIn(painter, next);
              Elements(damage) == Elements(before) + ViewDamage(painter, m, n, m[tag], n[tag])
    {
      hide Subtree, OrderDamage, DistinctAll, PlacesIn, DrawsTheSame, DrawsFlat, Bands;
      damage := before;
      var prior, view := seen[tag], now[tag];
      if prior.node.picture != view.node.picture || prior.node.layers != view.node.layers {
        damage := Push(damage, view.at);
      }
      if !DrawsTheSame(painter, prior.node, view.node) || prior.node.state != view.node.state {
        damage := PushIfSeen(painter, seen, tag, damage, PlacesIn(painter, scene), scene);
        damage := PushIfSeen(painter, now, tag, damage, PlacesIn(painter, next), next);
        return;
      }
      damage := PushReordered(tag, now, damage, next);
      if prior.at != view.at || prior.node.layout != view.node.layout {
        if prior.at.x == view.at.x && prior.at.y == view.at.y && DrawsFlat(painter, prior.node) &&
          DrawsFlat(painter, view.node) {
          damage := PushOutside(prior.at, view.at, damage);
          damage := PushOutside(view.at, prior.at, damage);
        } else {
          damage := Push(damage, prior.at);
          damage := Push(damage, view.at);
        }
      }
    }

    /** Nothing for the first frame or a new scale, which are drawn whole; else what to draw again. */
    method Update(next: Scene, d: Display) returns (damage: Option<seq<Rect>>)
      requires Valid() && DistinctAll(next.roots)
      modifies this
      ensures Valid() && scene == next && display == Some(d)
      ensures damage.None? <==> old(display).None? || old(display).value.scale120 != d.scale120
      ensures damage.Some? ==>
        Reduces(damage.value, FrameDamage(painter, PlacesIn(painter, old(scene)), PlacesIn(painter, next)) +
                              Gained(old(display).value, d), Window(d))
    {
      var now := CollectScene(painter, next);
      if display.None? || display.value.scale120 != d.scale120 {
        seen, display, scene := now, Some(d), next;
        return None;
      }
      var pushed := Differences(now, next);
      var previous := display.value;
      seen, display, scene := now, Some(d), next;
      if previous.width != d.width || previous.height != d.height {
        pushed := PushOutside(Window(d), Window(previous), pushed);
      }
      assert Elements(pushed) ==
        FrameDamage(painter, PlacesIn(painter, old(scene)), PlacesIn(painter, next)) + Gained(previous, d);
      var kept := Reduce(pushed, Window(d));
      return Some(kept);
    }

    /** compare's two loops: every view drawn now, then every view gone. */
    method Differences(now: Views, ghost next: Scene) returns (damage: seq<Rect>)
      requires Valid() && DistinctAll(next.roots) && now == Shown(painter, PlacesIn(painter, next))
      ensures Elements(damage) == FrameDamage(painter, PlacesIn(painter, scene), PlacesIn(painter, next))
    {
      hide DistinctAll, ViewDamage, DamageOver;
      damage := [];
      ghost var m, n := PlacesIn(painter, scene), PlacesIn(painter, next);
      assert DamageOver(painter, m, n, {}) == {} by { NothingOver(painter, m, n); }
      var left: set<Tag> := now.Keys;
      ghost var done: set<Tag> := {};
      while left != {}
        invariant done == now.Keys - left && left <= now.Keys
        invariant Elements(damage) == DamageOver(painter, m, n, done)
        decreases left
      {
        Inhabited(left);
        var tag :| tag in left;
        if tag in seen {
          damage := PushView(tag, now, damage, next);
        } else {
          damage := Push(damage, now[tag].at);
        }
        DamageOverGrows(painter, m, n, done, tag);
        done, left := done + {tag}, left - {tag};
      }
      assert done == now.Keys;
      damage := PushGone(now, damage, next);
    }

    /** The second of them: every view gone is damaged where it was. */
    method PushGone(now: Views, before: seq<Rect>, ghost next: Scene) returns (damage: seq<Rect>)
      requires Valid() && now == Shown(painter, PlacesIn(painter, next))
      requires Elements(before) == DamageOver(painter, PlacesIn(painter, scene), PlacesIn(painter, next), now.Keys)
      ensures Elements(damage) == FrameDamage(painter, PlacesIn(painter, scene), PlacesIn(painter, next))
    {
      hide DistinctAll, ViewDamage, DamageOver;
      damage := before;
      ghost var m, n := PlacesIn(painter, scene), PlacesIn(painter, next);
      var left: set<Tag> := seen.Keys;
      ghost var over := now.Keys;
      while left != {}
        invariant over == now.Keys + (seen.Keys - left) && left <= seen.Keys
        invariant Elements(damage) == DamageOver(painter, m, n, over)
        decreases left
      {
        Inhabited(left);
        var tag :| tag in left;
        if tag !in now {
          damage := Push(damage, seen[tag].at);
          DamageOverGrows(painter, m, n, over, tag);
        } else {
          assert over + {tag} == over;
        }
        over, left := over + {tag}, left - {tag};
      }
      assert over == m.Keys + n.Keys;
      OverAll(painter, m, n);
    }
  }

  /** The area a larger window has that the one before had not, at one scale. */
  function Gained(before: Display, d: Display): set<Rect> {
    if before.width != d.width || before.height != d.height then Elements(Bands(Window(d), Window(before))) else {}
  }

  ghost function DamageOver(p: Painter, m: Places, n: Places, tags: set<Tag>): set<Rect> {
    set tag, r | tag in tags && r in TagDamage(p, m, n, tag) :: r
  }

  lemma NothingOver(p: Painter, m: Places, n: Places)
    ensures DamageOver(p, m, n, {}) == {}
  {
  }

  lemma OverAll(p: Painter, m: Places, n: Places)
    ensures DamageOver(p, m, n, m.Keys + n.Keys) == FrameDamage(p, m, n)
  {
  }

  lemma DamageOverGrows(p: Painter, m: Places, n: Places, tags: set<Tag>, tag: Tag)
    ensures DamageOver(p, m, n, tags + {tag}) == DamageOver(p, m, n, tags) + TagDamage(p, m, n, tag)
  {
  }

  ghost function ChildrenDamage(p: Painter, m: Places, n: Places, children: seq<Tag>): set<Rect> {
    set child, r | child in children && r in SubtreeIn(p, m, child) + SubtreeIn(p, n, child) :: r
  }

  lemma ReorderedDamages(p: Painter, m: Places, n: Places, a: Place, b: Place)
    requires Reordered(a, b)
    ensures OrderDamage(p, m, n, a, b) ==
              ChildrenDamage(p, m, n, Kept(ChildTags(b.tree.children), ChildTags(a.tree.children)))
  {
  }

  lemma ChildrenDamageAppend(p: Painter, m: Places, n: Places, children: seq<Tag>, child: Tag)
    ensures ChildrenDamage(p, m, n, children + [child]) ==
              ChildrenDamage(p, m, n, children) + SubtreeIn(p, m, child) + SubtreeIn(p, n, child)
  {
    var grown := children + [child];
    forall c ensures c in grown <==> c in children || c == child {
      if c == child { assert grown[|children|] == c; }
    }
    forall r ensures r in ChildrenDamage(p, m, n, grown) <==>
                     r in ChildrenDamage(p, m, n, children) + SubtreeIn(p, m, child) + SubtreeIn(p, n, child)
    {
      if r in SubtreeIn(p, m, child) + SubtreeIn(p, n, child) { assert child in grown; }
    }
  }

  method Push(before: seq<Rect>, r: Rect) returns (damage: seq<Rect>)
    ensures damage == before + [r]
    ensures Elements(damage) == Elements(before) + {r}
  {
    damage := before + [r];
  }

  method PushOutside(a: Rect, b: Rect, before: seq<Rect>) returns (damage: seq<Rect>)
    ensures Elements(damage) == Elements(before) + Elements(Bands(a, b))
  {
    damage := Outside(a, b, before);
  }
}
