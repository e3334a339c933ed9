/**
 The walk over a tree of views that lists its nodes in reading order, a focus and a dismissal looked for as it goes.
 */
module AccessibleWalks {
  import opened Accessibility
  import opened AccessibleMarks

  function FocusAt(focus: Tag): (View, bool) -> bool { (v: View, isRoot: bool) => v.tag == focus }

  /** Where dismissing is looked for: under a modal, and under a popup whose surface is walked. */
  function DismissAt(): (View, bool) -> bool { (v: View, isRoot: bool) => v.modal || (isRoot && v.popup) }

  function Focuses(nodes: seq<Node>): seq<bool> { seq(|nodes|, i requires 0 <= i < |nodes| => nodes[i].focused) }

  function Dismissals(nodes: seq<Node>): seq<bool> { seq(|nodes|, i requires 0 <= i < |nodes| => nodes[i].dismisses) }

  lemma {:induction false} ForestWithin(v: View, isRoot: bool, merged: bool, parent: int, depth: nat, base: nat)
    ensures Within(Flatten(Forest(v, isRoot, merged), parent, depth, base), Tags(v))
    decreases v, 1
  {
    hide Flatten;
    FlattenNone(parent, depth, base);
    if (v.surface && !isRoot) || v.hidden {
    } else if v.element {
      var ns := ForestAll(v.children, v.accessible || merged);
      ForestAllWithin(v.children, v.accessible || merged, base, depth + 1, base + 1);
      FlattenOne(Nest(v.tag, v.content, false, ns), parent, depth, base);
    } else if !merged && !v.paragraph && v.live {
      ForestAllWithin(v.children, merged, base, depth + 1, base + 1);
      FlattenOne(Nest(v.tag, v.content, true, ForestAll(v.children, merged)), parent, depth, base);
    } else if !merged && v.paragraph {
      FlattenNone(base, depth + 1, base + 1);
      FlattenOne(Nest(v.tag, v.content, false, []), parent, depth, base);
    } else {
      ForestAllWithin(v.children, merged, parent, depth, base);
    }
  }

  lemma {:induction false} ForestAllWithin(vs: seq<View>, merged: bool, parent: int, depth: nat, base: nat)
    ensures Within(Flatten(ForestAll(vs, merged), parent, depth, base), TagsAll(vs))
    decreases vs, 0
  {
    hide Flatten;
    FlattenNone(parent, depth, base);
    if vs != [] {
      var first := Flatten(Forest(vs[0], false, merged), parent, depth, base);
      ForestWithin(vs[0], false, merged, parent, depth, base);
      ForestAllWithin(vs[1..], merged, parent, depth, base + |first|);
      FlattenAppend(Forest(vs[0], false, merged), ForestAll(vs[1..], merged), parent, depth, base);
    }
  }

  lemma {:induction false} FlattenOne(n: Nest, parent: int, depth: nat, base: nat)
    ensures Flatten([n], parent, depth, base) == [Head(n, parent, depth)] + Flatten(n.held, base, depth + 1, base + 1)
  {
    FlattenCons([n], parent, depth, base);
    assert [n][1..] == [];
  }

  lemma {:induction false} FamiliesInside(v: View, isRoot: bool, at: (View, bool) -> bool)
    ensures Inside(Families(v, isRoot, at), Tags(v))
    decreases v, 1
  {
    FamiliesAllInside(v.children, at);
  }

  lemma {:induction false} FamiliesAllInside(vs: seq<View>, at: (View, bool) -> bool)
    ensures Inside(FamiliesAll(vs, at), TagsAll(vs))
    decreases vs, 0
  {
    if vs != [] {
      FamiliesInside(vs[0], false, at);
      FamiliesAllInside(vs[1..], at);
    }
  }

  lemma {:induction false} AllAppend(vs: seq<View>, v: View, merged: bool, at: (View, bool) -> bool)
    ensures ForestAll(vs + [v], merged) == ForestAll(vs, merged) + Forest(v, false, merged)
    ensures FamiliesAll(vs + [v], at) == FamiliesAll(vs, at) + Families(v, false, at)
    ensures TagsAll(vs + [v]) == TagsAll(vs) + Tags(v)
  {
    hide Forest, Families, Tags;
    if vs == [] {
      assert (vs + [v])[1..] == [];
    } else {
      assert (vs + [v])[0] == vs[0] && (vs + [v])[1..] == vs[1..] + [v];
      AllAppend(vs[1..], v, merged, at);
    }
  }

  lemma {:induction false} DistinctPrefix(vs: seq<View>, i: nat)
    requires DistinctAll(vs) && i < |vs|
    ensures Distinct(vs[i]) && TagsAll(vs[..i]) !! Tags(vs[i]) && Tags(vs[i]) <= TagsAll(vs) &&
      TagsAll(vs[..i]) <= TagsAll(vs)
  {
    if i > 0 {
      DistinctPrefix(vs[1..], i - 1);
      assert vs[..i][1..] == vs[1..][..i - 1];
    }
  }

  /** What visiting views adds: their forest's nodes, marked where each mark is. */
  ghost predicate Adds(
      added: seq<Node>, forest: seq<Nest>, parent: int, depth: nat, base: nat, all: set<Tag>, focusing: set<set<Tag>>,
      dismissing: set<set<Tag>>, wasPending: bool, pending: bool, wasDismissable: bool, dismissable: bool) {
    AllUnmarked(added) == Flatten(forest, parent, depth, base) &&
    Marking(added, Focuses(added), focusing, all, wasPending, pending) &&
    Marking(added, Dismissals(added), dismissing, all, wasDismissable, dismissable)
  }

  lemma AddsNone(parent: int, depth: nat, base: nat, all: set<Tag>, focusing: set<set<Tag>>, dismissing: set<set<Tag>>,
      p: bool, d: bool)
    ensures Adds([], [], parent, depth, base, all, focusing, dismissing, p, p, d, d)
  {
    MarkingNone(focusing, all, p);
    MarkingNone(dismissing, all, d);
    assert Focuses([]) == [] && Dismissals([]) == [] && AllUnmarked([]) == [];
  }

  lemma AddsJoin(
      a: seq<Node>, aForest: seq<Nest>, aAll: set<Tag>, aFocusing: set<set<Tag>>, aDismissing: set<set<Tag>>,
      b: seq<Node>, bForest: seq<Nest>, bAll: set<Tag>, bFocusing: set<set<Tag>>, bDismissing: set<set<Tag>>,
      parent: int, depth: nat, base: nat, p0: bool, p1: bool, p2: bool, d0: bool, d1: bool, d2: bool)
    requires Adds(a, aForest, parent, depth, base, aAll, aFocusing, aDismissing, p0, p1, d0, d1)
    requires Adds(b, bForest, parent, depth, base + |a|, bAll, bFocusing, bDismissing, p1, p2, d1, d2)
    requires Within(a, aAll) && Within(b, bAll) && aAll !! bAll
    requires Inside(aFocusing, aAll) && Inside(bFocusing, bAll) && Inside(aDismissing, aAll) &&
      Inside(bDismissing, bAll)
    ensures Adds(a + b, aForest + bForest, parent, depth, base, aAll + bAll, aFocusing + bFocusing,
      aDismissing + bDismissing, p0, p2, d0, d2)
  {
    hide Flatten, Marking;
    FlattenAppend(aForest, bForest, parent, depth, base);
    assert |Flatten(aForest, parent, depth, base)| == |a| by { assert |AllUnmarked(a)| == |a|; }
    assert AllUnmarked(a + b) == AllUnmarked(a) + AllUnmarked(b);
    assert Focuses(a + b) == Focuses(a) + Focuses(b);
    assert Dismissals(a + b) == Dismissals(a) + Dismissals(b);
    MarkingJoin(a, Focuses(a), aFocusing, aAll, b, Focuses(b), bFocusing, bAll, p0, p1, p2);
    MarkingJoin(a, Dismissals(a), aDismissing, aAll, b, Dismissals(b), bDismissing, bAll, d0, d1, d2);
  }

  /** An element, then the nodes inside it. */
  lemma AddsElement(
      n: Node, held: seq<Node>, ns: seq<Nest>, parent: int, depth: nat, base: nat, all: set<Tag>,
      focusing: set<set<Tag>>, dismissing: set<set<Tag>>, p: bool, d: bool)
    requires n == Head(Nest(n.tag, n.content, false, ns), parent, depth).(focused := p, dismisses := d)
    requires n.tag !in all && Within(held, all) && Inside(focusing, all) && Inside(dismissing, all)
    requires Adds(held, ns, base, depth + 1, base + 1, all, focusing, dismissing, false, false, false, false)
    ensures Adds([n] + held, [Nest(n.tag, n.content, false, ns)], parent, depth, base, all + {n.tag}, focusing,
      dismissing, p, false, d, false)
  {
    hide Flatten, Marking;
    FlattenOne(Nest(n.tag, n.content, false, ns), parent, depth, base);
    assert AllUnmarked([n] + held) == [Unmarked(n)] + AllUnmarked(held);
    assert Focuses([n] + held) == [p] + Focuses(held);
    assert Dismissals([n] + held) == [d] + Dismissals(held);
    MarkingHead(n, held, Focuses(held), focusing, all, p);
    MarkingHead(n, held, Dismissals(held), dismissing, all, d);
  }

  /** A bare node, then the nodes it holds, the marks looked for past it. */
  lemma AddsBare(
      n: Node, held: seq<Node>, ns: seq<Nest>, parent: int, depth: nat, base: nat, all: set<Tag>,
      focusing: set<set<Tag>>, dismissing: set<set<Tag>>, p0: bool, p1: bool, d0: bool, d1: bool)
    requires n == Head(Nest(n.tag, n.content, true, ns), parent, depth)
    requires n.tag !in all && Within(held, all) && Inside(focusing, all) && Inside(dismissing, all)
    requires Adds(held, ns, base, depth + 1, base + 1, all, focusing, dismissing, p0, p1, d0, d1)
    ensures Adds([n] + held, [Nest(n.tag, n.content, true, ns)], parent, depth, base, all + {n.tag}, focusing,
      dismissing, p0, p1, d0, d1)
  {
    hide Flatten, Marking;
    FlattenOne(Nest(n.tag, n.content, true, ns), parent, depth, base);
    assert AllUnmarked([n] + held) == [Unmarked(n)] + AllUnmarked(held);
    assert Focuses([n] + held) == [false] + Focuses(held);
    assert Dismissals([n] + held) == [false] + Dismissals(held);
    MarkingBare(n, held, Focuses(held), focusing, all, p0, p1);
    MarkingBare(n, held, Dismissals(held), dismissing, all, d0, d1);
  }

  lemma AddsThrough(
      held: seq<Node>, ns: seq<Nest>, parent: int, depth: nat, base: nat, all: set<Tag>, tag: Tag,
      focusing: set<set<Tag>>, dismissing: set<set<Tag>>, p0: bool, p1: bool, d0: bool, d1: bool)
    requires Within(held, all) && Adds(held, ns, parent, depth, base, all, focusing, dismissing, p0, p1, d0, d1)
    ensures Adds(held, ns, parent, depth, base, all + {tag}, focusing, dismissing, p0, p1, d0, d1)
  {
    hide Flatten, Marking;
    MarkingThrough(held, Focuses(held), focusing, all, tag, p0, p1);
    MarkingThrough(held, Dismissals(held), dismissing, all, tag, d0, d1);
  }

  /** A view done: nothing inside the focused view left for after it, a modal without a node dismissed by none. */
  lemma AddsDone(
      added: seq<Node>, forest: seq<Nest>, parent: int, depth: nat, base: nat, all: set<Tag>, focusing: set<set<Tag>>,
      dismissing: set<set<Tag>>, focusHere: bool, dismissHere: bool, p0: bool, p1: bool, d0: bool, d1: bool)
    requires Adds(added, forest, parent, depth, base, all, focusing, dismissing, p0 || focusHere, p1, d0 ||
      dismissHere, d1)
    requires focusHere ==> !p0
    ensures Adds(added, forest, parent, depth, base, all, focusing + (if focusHere then {all} else {}),
                 dismissing + (if dismissHere then {all} else {}), p0, !focusHere &&
                   p1, d0, if dismissHere && d1 then d0 else d1)
  {
    hide Flatten, Marking;
    MarkingAt(added, Focuses(added), focusing, all, focusHere, p0, p1);
    MarkingAt(added, Dismissals(added), dismissing, all, dismissHere, d0, d1);
    StillLooked(added, Focuses(added), focusing, all, p0 || focusHere, p1);
  }

  lemma StillLooked(nodes: seq<Node>, bits: seq<bool>, families: set<set<Tag>>, all: set<Tag>, before: bool,
      after: bool)
    requires Marking(nodes, bits, families, all, before, after)
    ensures after ==> before
  {
  }

  class Walk {
    const focus: Tag
    var pending: bool
    var dismissable: bool
    var out: seq<Node>

    constructor (at: Tag)
      ensures focus == at && !pending && !dismissable && out == []
    {
      focus, pending, dismissable, out := at, false, false, [];
    }

    /** The lambda `add`: the node takes the marks looked for. */
    method Add(node: Node) returns (index: nat)
      modifies this
      ensures out == old(out) + [node.(focused := old(pending), dismisses := old(dismissable))]
      ensures !pending && !dismissable && index == |old(out)|
    {
      var n := node.(focused := pending, dismisses := dismissable);
      pending, dismissable := false, false;
      out := out + [n];
      index := |out| - 1;
    }

    method Children(vs: seq<View>, merged: bool, parent: int, depth: nat) returns (ghost added: seq<Node>)
      requires DistinctAll(vs) && (pending ==> focus !in TagsAll(vs))
      modifies this
      ensures out == old(out) + added && Within(added, TagsAll(vs)) && (pending ==> old(pending)) &&
        (dismissable ==> old(dismissable))
      ensures Adds(added, ForestAll(vs, merged), parent, depth, |old(out)|, TagsAll(vs),
        FamiliesAll(vs, FocusAt(focus)),
                   FamiliesAll(vs, DismissAt()), old(pending), pending, old(dismissable), dismissable)
      decreases vs, 0
    {
      hide Adds, DistinctAll, TagsAll, ForestAll, FamiliesAll;
      added := [];
      ghost var base := |out|;
      NoViews(merged, FocusAt(focus));
      NoViews(merged, DismissAt());
      AddsNone(parent, depth, base, {}, {}, {}, pending, dismissable);
      for i := 0 to |vs|
        invariant out == old(out) + added && Within(added, TagsAll(vs[..i]))
        invariant (pending ==> old(pending)) && (dismissable ==> old(dismissable))
        invariant Adds(added, ForestAll(vs[..i], merged), parent, depth, base, TagsAll(vs[..i]),
          FamiliesAll(vs[..i], FocusAt(focus)),
                       FamiliesAll(vs[..i], DismissAt()), old(pending), pending, old(dismissable), dismissable)
      {
        DistinctPrefix(vs, i);
        ghost var p, d := pending, dismissable;
        ghost var more := Visit(vs[i], false, merged, parent, depth);
        FamiliesAllInside(vs[..i], FocusAt(focus));
        FamiliesAllInside(vs[..i], DismissAt());
        FamiliesInside(vs[i], false, FocusAt(focus));
        FamiliesInside(vs[i], false, DismissAt());
        AddsJoin(added, ForestAll(vs[..i], merged), TagsAll(vs[..i]), FamiliesAll(vs[..i], FocusAt(focus)),
          FamiliesAll(vs[..i], DismissAt()),
                 more, Forest(vs[i], false, merged), Tags(vs[i]), Families(vs[i], false, FocusAt(focus)),
                   Families(vs[i], false, DismissAt()),
                 parent, depth, base, old(pending), p, pending, old(dismissable), d, dismissable);
        assert vs[..i + 1] == vs[..i] + [vs[i]];
        AllAppend(vs[..i], vs[i], merged, FocusAt(focus));
        AllAppend(vs[..i], vs[i], merged, DismissAt());
        added := added + more;
      }
      assert vs[..|vs|] == vs;
    }

    /** walk */
    method Visit(v: View, isRoot: bool, merged: bool, parent: int, depth: nat) returns (ghost added: seq<Node>)
      requires Distinct(v) && (pending ==> focus !in Tags(v))
      modifies this
      ensures out == old(out) + added && Within(added, Tags(v)) && (pending ==> old(pending)) &&
        (dismissable ==> old(dismissable))
      ensures Adds(added, Forest(v, isRoot, merged), parent, depth, |old(out)|, Tags(v),
        Families(v, isRoot, FocusAt(focus)),
                   Families(v, isRoot, DismissAt()), old(pending), pending, old(dismissable), dismissable)
      decreases v, 1
    {
      hide Adds, Within;
      added := [];
      if (v.surface && !isRoot) || v.hidden {
        AddsNone(parent, depth, |out|, Tags(v), Families(v, isRoot, FocusAt(focus)), Families(v, isRoot, DismissAt()),
          pending, dismissable);
        WithinNone(Tags(v));
        return;
      }
      var focusedHere := v.tag == focus;
      if focusedHere { pending := true; }
      var dismissableHere := v.modal || (isRoot && v.popup);
      var wasDismissable := dismissable;
      if dismissableHere { dismissable := true; }
      added := Own(v, isRoot, merged, parent, depth);
      AddsDone(added, Forest(v, isRoot, merged), parent, depth, |old(out)|, Tags(v),
        FamiliesAll(v.children, FocusAt(focus)),
               FamiliesAll(v.children, DismissAt()), focusedHere, dismissableHere, old(pending), pending,
                 old(dismissable), dismissable);
      if focusedHere { pending := false; }
      if dismissableHere && dismissable { dismissable := wasDismissable; }
    }

    /** The view's own node, if it is one, and those inside it. */
    method Own(v: View, isRoot: bool, merged: bool, parent: int, depth: nat) returns (ghost added: seq<Node>)
      requires Distinct(v) && (pending ==> focus !in TagsAll(v.children)) && !((v.surface && !isRoot) || v.hidden)
      modifies this
      ensures out == old(out) + added && Within(added, Tags(v)) && (pending ==> old(pending)) &&
        (dismissable ==> old(dismissable))
      ensures Adds(added, Forest(v, isRoot, merged), parent, depth, |old(out)|, Tags(v),
        FamiliesAll(v.children, FocusAt(focus)),
                   FamiliesAll(v.children, DismissAt()), old(pending), pending, old(dismissable), dismissable)
      decreases v, 0
    {
      hide Adds, Forest, ForestAll, FamiliesAll, TagsAll, Flatten;
      ForestIs(v, isRoot, merged);
      ghost var inside := TagsAll(v.children);
      ghost var focusing, dismissing := FamiliesAll(v.children, FocusAt(focus)), FamiliesAll(v.children, DismissAt());
      assert inside + {v.tag} == Tags(v);
      FamiliesAllInside(v.children, FocusAt(focus));
      FamiliesAllInside(v.children, DismissAt());
      if v.element {
        var index := Add(NewNode(v, false, parent, depth));
        ghost var held := Children(v.children, v.accessible || merged, index, depth + 1);
        added := [NewNode(v, false, parent, depth).(focused := old(pending), dismisses := old(dismissable))] + held;
        AddsElement(added[0], held, ForestAll(v.children, v.accessible || merged), parent, depth, index, inside,
          focusing, dismissing, old(pending), old(dismissable));
      } else if !merged && !v.paragraph && v.live {
        var waiting, closing := pending, dismissable;
        pending, dismissable := false, false;
        var index := Add(NewNode(v, true, parent, depth));
        pending, dismissable := waiting, closing;
        ghost var held := Children(v.children, merged, index, depth + 1);
        added := [NewNode(v, true, parent, depth)] + held;
        AddsBare(added[0], held, ForestAll(v.children, merged), parent, depth, index, inside, focusing, dismissing,
          old(pending), pending, old(dismissable), dismissable);
      } else if !merged && v.paragraph {
        AddsNone(|out|, depth + 1, |out| + 1, inside, focusing, dismissing, false, false);
        if v.words {
          var index := Add(NewNode(v, false, parent, depth));
          added := [NewNode(v, false, parent, depth).(focused := old(pending), dismisses := old(dismissable))];
          AddsElement(added[0], [], [], parent, depth, index, inside, focusing, dismissing, old(pending),
            old(dismissable));
          assert added == [added[0]] + [];
        } else {
          added := [];
          AddsNone(parent, depth, |out|, Tags(v), focusing, dismissing, pending, dismissable);
        }
      } else {
        added := Children(v.children, merged, parent, depth);
        AddsThrough(added, ForestAll(v.children, merged), parent, depth, |old(out)|, inside, v.tag, focusing,
          dismissing, old(pending), pending, old(dismissable), dismissable);
      }
    }
  }

  lemma {:induction false} ForestIs(v: View, isRoot: bool, merged: bool)
    requires !((v.surface && !isRoot) || v.hidden)
    ensures Forest(v, isRoot, merged) ==
      if v.element then [Nest(v.tag, v.content, false, ForestAll(v.children, v.accessible || merged))]
      else if !merged && !v.paragraph && v.live then [Nest(v.tag, v.content, true, ForestAll(v.children, merged))]
      else if !merged && v.paragraph then if v.words then [Nest(v.tag, v.content, false, [])] else []
      else ForestAll(v.children, merged)
  {
  }

  lemma {:induction false} NoViews(merged: bool, at: (View, bool) -> bool)
    ensures ForestAll([], merged) == [] && FamiliesAll([], at) == {} && TagsAll([]) == {}
  {
  }

  lemma WithinNone(all: set<Tag>)
    ensures Within([], all)
  {
  }
}
