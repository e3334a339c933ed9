/** What a surface publishes: its views' nodes, one with the focus at most, each with its place. */
module AccessibleTrees {
  import opened Accessibility
  import opened AccessibleMarks
  import opened AccessiblePaths
  import opened AccessiblePlaces
  import opened AccessibleWalks
  import opened Optional

  function Find(v: View, tag: Tag): Option<View>
    decreases v, 1
  {
    if v.tag == tag then Some(v) else FindIn(v.children, tag)
  }

  function FindIn(vs: seq<View>, tag: Tag): Option<View>
    decreases vs, 0
  {
    if vs == [] then None else if Find(vs[0], tag).Some? then Find(vs[0], tag) else FindIn(vs[1..], tag)
  }

  function Under(view: Option<View>): set<set<Tag>> { if view.Some? then {Tags(view.value)} else {} }

  lemma {:induction false} FindTagged(v: View, tag: Tag)
    ensures Find(v, tag).Some? <==> tag in Tags(v)
    decreases v, 1
  {
    FindInTagged(v.children, tag);
  }

  lemma {:induction false} FindInTagged(vs: seq<View>, tag: Tag)
    ensures FindIn(vs, tag).Some? <==> tag in TagsAll(vs)
    decreases vs, 0
  {
    if vs != [] {
      FindTagged(vs[0], tag);
      FindInTagged(vs[1..], tag);
    }
  }

  lemma {:induction false} FocusFamily(v: View, isRoot: bool, focus: Tag)
    requires Distinct(v)
    ensures Families(v, isRoot, FocusAt(focus)) == Under(Find(v, focus))
    decreases v, 1
  {
    FocusFamilies(v.children, focus);
    FindInTagged(v.children, focus);
  }

  lemma {:induction false} FocusFamilies(vs: seq<View>, focus: Tag)
    requires DistinctAll(vs)
    ensures FamiliesAll(vs, FocusAt(focus)) == Under(FindIn(vs, focus))
    decreases vs, 0
  {
    if vs != [] {
      FocusFamily(vs[0], false, focus);
      FocusFamilies(vs[1..], focus);
      FindTagged(vs[0], focus);
      FindInTagged(vs[1..], focus);
    }
  }

  /** The node with accessibility focus: the first under the focused view that is not a bare live region. */
  predicate FocusedAt(nodes: seq<Node>, v: View, focus: Tag, i: int) {
    Find(v, focus).Some? && First(nodes, Tags(Find(v, focus).value), i)
  }

  lemma FocusedOnce(nodes: seq<Node>, v: View, focus: Tag, i: int, j: int)
    ensures FocusedAt(nodes, v, focus, i) && FocusedAt(nodes, v, focus, j) ==> i == j
  {
  }

  /** The same nodes, but for their marks and places. */
  predicate Alike(a: seq<Node>, b: seq<Node>) {
    |a| == |b| &&
    forall i :: 0 <= i < |a| ==>
      a[i].(focused := false, dismisses := false, position := 0, count := 0) ==
      b[i].(focused := false, dismisses := false, position := 0, count := 0)
  }

  lemma AlikeShape(a: seq<Node>, b: seq<Node>)
    requires Alike(a, b)
    ensures SameShape(a, b) && SameShape(b, a)
  {
    forall i | 0 <= i < |a|
      ensures a[i].parent == b[i].parent && a[i].depth == b[i].depth && a[i].content == b[i].content {
      assert a[i].(focused := false, dismisses := false, position := 0, count := 0).content == b[i].content;
    }
  }

  lemma AlikeFirst(a: seq<Node>, b: seq<Node>, s: set<Tag>, i: int)
    requires Alike(a, b)
    ensures First(a, s, i) <==> First(b, s, i)
  {
    forall j | 0 <= j < |a| ensures a[j].tag == b[j].tag && a[j].bare == b[j].bare {
      assert a[j].(focused := false, dismisses := false, position := 0, count := 0).tag == b[j].tag;
    }
  }

  lemma AlikeMarked(a: seq<Node>, b: seq<Node>, families: set<set<Tag>>, i: int)
    requires Alike(a, b)
    ensures Marked(a, families, i) <==> Marked(b, families, i)
  {
    forall s | s in families ensures First(a, s, i) <==> First(b, s, i) {
      AlikeFirst(a, b, s, i);
    }
  }

  lemma {:induction false} AlikeSpan(a: seq<Node>, b: seq<Node>, depth: nat)
    requires Alike(a, b)
    ensures Span(a, depth) == Span(b, depth)
  {
    var k := Span(a, depth);
    AlikeShape(a, b);
    SpanIs(b, depth, k);
  }

  lemma {:induction false} AlikeDecode(a: seq<Node>, b: seq<Node>)
    requires Alike(a, b)
    ensures Decode(a) == Decode(b)
    decreases |a|
  {
    if a != [] {
      assert a[0].(focused := false, dismisses := false, position := 0, count := 0).tag == b[0].tag;
      var k := Span(a[1..], a[0].depth);
      AlikeSpan(a[1..], b[1..], a[0].depth);
      AlikeDecode(a[1..][..k], b[1..][..k]);
      AlikeDecode(a[1..][k..], b[1..][k..]);
    }
  }

  lemma {:induction false} MembersShape(a: seq<Node>, b: seq<Node>, list: int, n: nat)
    requires Parented(a) && Parented(b) && SameShape(a, b) && n <= |a|
    ensures Members(a, list, n) == Members(b, list, n)
  {
    hide GroupOf, Parented;
    if n > 0 {
      GroupShape(a, b, n - 1);
      MembersShape(a, b, list, n - 1);
    }
  }

  /** A node's place is where the nodes are, whatever else is said of them. */
  lemma AlikeCounted(a: seq<Node>, b: seq<Node>, i: nat)
    requires Parented(a) && Parented(b) && Alike(a, b) && i < |a| && a[i].position == b[i].position &&
      a[i].count == b[i].count
    ensures Counted(a, i).position == Counted(b, i).position && Counted(a, i).count == Counted(b, i).count
  {
    hide GroupOf, DeclaredIn, Parented, Narrow, Position, Count, Columns, Members;
    AlikeShape(a, b);
    GroupShape(a, b, i);
    MembersShape(a, b, GroupOf(a, i), i + 1);
    MembersShape(a, b, GroupOf(a, i), |a|);
  }

  lemma CountedAlike(nodes: seq<Node>, i: nat)
    requires Parented(nodes) && i < |nodes|
    ensures Counted(nodes, i) == nodes[i].(position := Counted(nodes, i).position, count := Counted(nodes, i).count)
  {
    hide GroupOf, DeclaredIn, Parented, Narrow, Position, Count, Columns, Members;
  }

  /** What is published of the views from `v` down: its forest, marked and placed. */
  ghost predicate Published(nodes: seq<Node>, v: View, isRoot: bool, focus: Tag) {
    var plain := Flatten(Forest(v, isRoot, false), -1, 0, 0);
    Alike(nodes, plain) && Parented(nodes) && Contiguous(nodes) && Decode(nodes) == Forest(v, isRoot, false) &&
    (forall i :: 0 <= i < |nodes| ==> (nodes[i].focused <==> FocusedAt(nodes, v, focus, i))) &&
    (forall i :: 0 <= i < |nodes| ==> (nodes[i].dismisses <==> Marked(nodes, Families(v, isRoot, DismissAt()), i))) &&
    Parented(plain) &&
    forall i :: 0 <= i < |nodes| ==>
      nodes[i].position == Counted(plain, i).position && nodes[i].count == Counted(plain, i).count
  }

  /** Focus lands on the first node of the view focused. */
  ghost predicate FocusLands(nodes: seq<Node>, v: View, paths: seq<Path>, focus: Tag, i: int) {
    exists p :: Along(v, p) != [] && End(v, p).tag == focus && FirstUnder(nodes, paths, p, i)
  }

  /** Dismissing is offered by the first node of each modal, and of the popup a surface is. */
  ghost predicate DismissLands(nodes: seq<Node>, v: View, isRoot: bool, paths: seq<Path>, i: int) {
    exists p ::
      Along(v, p) != [] && (End(v, p).modal || (isRoot && p == [] && v.popup)) && FirstUnder(nodes, paths, p, i)
  }

  /** accessibilityTree, from the view the surface's content starts at. */
  method AccessibilityTree(v: View, isRoot: bool, focus: Tag) returns (nodes: seq<Node>, ghost paths: seq<Path>)
    requires Distinct(v)
    ensures Published(nodes, v, isRoot, focus)
    // By the paths to the views: each that has a node has its one, in reading order, under the closest above it.
    ensures ReadAs(nodes, v, isRoot, paths)
    ensures forall tag :: Listed(nodes, tag) <==> Readable(v, isRoot, tag)
    ensures forall i :: 0 <= i < |nodes| ==> (nodes[i].focused <==> FocusLands(nodes, v, paths, focus, i))
    ensures forall i :: 0 <= i < |nodes| ==> (nodes[i].dismisses <==> DismissLands(nodes, v, isRoot, paths, i))
    ensures forall i, j :: 0 <= i < |nodes| && 0 <= j < |nodes| && nodes[i].focused && nodes[j].focused ==> i == j
  {
    hide Forest, Flatten, Families, Parented, Counted, Adds, MarksAre, Unplaced, AllUnmarked, Published;
    hide ReadAs, Listed, Readable, FocusLands, DismissLands;
    var w := new Walk(focus);
    ghost var added := w.Visit(v, isRoot, false, -1, 0);
    assert w.out == added;
    VisitedAll(added, v, isRoot, focus, w.pending, w.dismissable);
    nodes := PlaceItems(w.out);
    PlacedPublished(added, nodes, v, isRoot, focus);
    PublishedOnce(nodes, v, isRoot, focus);
    paths := Paths(v, isRoot, false);
    PublishedRead(nodes, v, isRoot, focus);
    PublishedMarks(nodes, v, isRoot, focus, paths);
  }

  lemma {:induction false} PublishedRead(nodes: seq<Node>, v: View, isRoot: bool, focus: Tag)
    requires Published(nodes, v, isRoot, focus)
    ensures ReadAs(nodes, v, isRoot, Paths(v, isRoot, false))
    ensures forall tag :: Listed(nodes, tag) <==> Readable(v, isRoot, tag)
  {
    hide HasNode, Forest, Flatten, Paths, Decode, Counted, Listed, Readable;
    var plain, paths := Flatten(Forest(v, isRoot, false), -1, 0, 0), Paths(v, isRoot, false);
    WalkRead(v, isRoot);
    AlikeRead(nodes, plain, v, paths);
    forall tag ensures Listed(nodes, tag) <==> Readable(v, isRoot, tag) {
      TagsRead(nodes, v, isRoot, paths, tag);
    }
  }

  lemma PublishedMarks(nodes: seq<Node>, v: View, isRoot: bool, focus: Tag, paths: seq<Path>)
    requires Distinct(v) && Published(nodes, v, isRoot, focus) && ReadAs(nodes, v, isRoot, paths)
    ensures forall i :: 0 <= i < |nodes| ==> (nodes[i].focused <==> FocusLands(nodes, v, paths, focus, i))
    ensures forall i :: 0 <= i < |nodes| ==> (nodes[i].dismisses <==> DismissLands(nodes, v, isRoot, paths, i))
  {
    hide Distinct, Families, Described, FirstUnder, Forest, Flatten, Parented, Counted, Decode, HasNode, Marked, Along;
    FocusFamily(v, isRoot, focus);
    forall i | 0 <= i < |nodes|
      ensures nodes[i].focused <==> FocusLands(nodes, v, paths, focus, i)
      ensures nodes[i].dismisses <==> DismissLands(nodes, v, isRoot, paths, i)
    {
      UnderMarked(nodes, Find(v, focus), i);
      MarkLands(nodes, v, isRoot, paths, FocusAt(focus), i);
      MarkLands(nodes, v, isRoot, paths, DismissAt(), i);
    }
  }

  lemma AlikeRead(a: seq<Node>, b: seq<Node>, v: View, paths: seq<Path>)
    requires Alike(a, b)
    ensures Nested(b, paths, -1, 0) ==> Nested(a, paths, -1, 0)
    ensures Described(b, v, paths) ==> Described(a, v, paths)
  {
    hide ParentIs, Along;
    forall i | 0 <= i < |a|
      ensures a[i].parent == b[i].parent && a[i].tag == b[i].tag &&
              a[i].content == b[i].content && a[i].bare == b[i].bare
    {
      assert a[i].(focused := false, dismisses := false, position := 0, count := 0).tag == b[i].tag;
    }
  }

  lemma PublishedOnce(nodes: seq<Node>, v: View, isRoot: bool, focus: Tag)
    requires Published(nodes, v, isRoot, focus)
    ensures forall i, j :: 0 <= i < |nodes| && 0 <= j < |nodes| && nodes[i].focused && nodes[j].focused ==> i == j
  {
    forall i, j | 0 <= i < |nodes| && 0 <= j < |nodes| && nodes[i].focused && nodes[j].focused ensures i == j {
      FocusedOnce(nodes, v, focus, i, j);
    }
  }

  lemma {:induction false} VisitedAll(
    added: seq<Node>, v: View, isRoot: bool, focus: Tag, pending: bool, dismissable: bool)
    requires Adds(added, Forest(v, isRoot, false), -1, 0, 0, Tags(v), Families(v, isRoot, FocusAt(focus)),
                  Families(v, isRoot, DismissAt()), false, pending, false, dismissable)
    ensures AllUnmarked(added) == Flatten(Forest(v, isRoot, false), -1, 0, 0) && Parented(added) && Unplaced(added)
    ensures forall i :: 0 <= i < |added| ==> added[i].count == 0
    ensures MarksAre(added, Focuses(added), Families(v, isRoot, FocusAt(focus)))
    ensures MarksAre(added, Dismissals(added), Families(v, isRoot, DismissAt()))
  {
    hide Forest, Flatten, Families, Parented, MarksAre;
    assert Families(v, isRoot, FocusAt(focus)) + {} == Families(v, isRoot, FocusAt(focus));
    assert Families(v, isRoot, DismissAt()) + {} == Families(v, isRoot, DismissAt());
    FlattenParented(Forest(v, isRoot, false));
    FlattenUnplaced(Forest(v, isRoot, false), -1, 0, 0);
    WalkedPlain(added, Flatten(Forest(v, isRoot, false), -1, 0, 0));
  }

  lemma WalkedPlain(added: seq<Node>, plain: seq<Node>)
    requires AllUnmarked(added) == plain && Parented(plain) && Unplaced(plain)
    ensures Alike(added, plain) && Parented(added) && Unplaced(added)
  {
    forall i | 0 <= i < |added| ensures added[i].(focused := false, dismisses := false) == plain[i] {
      assert plain[i] == Unmarked(added[i]);
    }
    forall i | 0 <= i < |added|
      ensures added[i].parent == plain[i].parent && added[i].depth == plain[i].depth && added[i].position == 0 &&
      added[i].count == 0 {
      assert plain[i] == added[i].(focused := false, dismisses := false);
    }
  }

  predicate Unplaced(nodes: seq<Node>) {
    forall i :: 0 <= i < |nodes| ==> nodes[i].position == 0 && nodes[i].count == 0
  }

  lemma {:induction false} FlattenUnplaced(ns: seq<Nest>, parent: int, depth: nat, base: nat)
    ensures Unplaced(Flatten(ns, parent, depth, base))
  {
    hide Flatten;
    FlattenNone(parent, depth, base);
    if ns != [] {
      var held := Flatten(ns[0].held, base, depth + 1, base + 1);
      FlattenCons(ns, parent, depth, base);
      FlattenUnplaced(ns[0].held, base, depth + 1, base + 1);
      FlattenUnplaced(ns[1..], parent, depth, base + 1 + |held|);
    }
  }

  lemma {:induction false} PlacedPublished(added: seq<Node>, nodes: seq<Node>, v: View, isRoot: bool, focus: Tag)
    requires Distinct(v) && Parented(added) && Unplaced(added)
    requires AllUnmarked(added) == Flatten(Forest(v, isRoot, false), -1, 0, 0)
    requires MarksAre(added, Focuses(added), Families(v, isRoot, FocusAt(focus)))
    requires MarksAre(added, Dismissals(added), Families(v, isRoot, DismissAt()))
    requires |nodes| == |added| && forall i :: 0 <= i < |added| ==> nodes[i] == Counted(added, i)
    ensures Published(nodes, v, isRoot, focus)
  {
    hide Counted, Flatten, Forest, Families, Parented, Marked, First, Decode, Contiguous;
    var plain := Flatten(Forest(v, isRoot, false), -1, 0, 0);
    FlattenParented(Forest(v, isRoot, false));
    FlattenUnplaced(Forest(v, isRoot, false), -1, 0, 0);
    DecodeFlatten(Forest(v, isRoot, false), -1, 0, 0);
    WalkedPlain(added, plain);
    forall i | 0 <= i < |added|
      ensures nodes[i] == added[i].(position := nodes[i].position, count := nodes[i].count)
    {
      CountedAlike(added, i);
    }
    PlacedAlike(added, nodes, plain);
    AlikeDecode(nodes, plain);
    AlikeNested(plain, nodes);
    FocusFamily(v, isRoot, focus);
    forall i | 0 <= i < |nodes|
      ensures nodes[i].focused <==> FocusedAt(nodes, v, focus, i)
      ensures nodes[i].dismisses <==> Marked(nodes, Families(v, isRoot, DismissAt()), i)
      ensures nodes[i].position == Counted(plain, i).position && nodes[i].count == Counted(plain, i).count
    {
      assert Focuses(added)[i] == added[i].focused && Dismissals(added)[i] == added[i].dismisses;
      AlikeMarked(nodes, added, Families(v, isRoot, FocusAt(focus)), i);
      AlikeMarked(nodes, added, Families(v, isRoot, DismissAt()), i);
      UnderMarked(nodes, Find(v, focus), i);
      AlikeCounted(added, plain, i);
    }
  }

  lemma PlacedAlike(added: seq<Node>, nodes: seq<Node>, plain: seq<Node>)
    requires Alike(added, plain) && |nodes| == |added|
    requires forall i ::
      0 <= i < |added| ==> nodes[i] == added[i].(position := nodes[i].position, count := nodes[i].count)
    ensures Alike(nodes, plain) && Alike(nodes, added)
  {
  }

  lemma AlikeNested(a: seq<Node>, b: seq<Node>)
    requires Alike(b, a) && Parented(a) && Contiguous(a)
    ensures Parented(b) && Contiguous(b)
  {
    AlikeShape(b, a);
    forall i | 0 <= i < |b| && b[i].parent != -1 ensures Deeper(b, b[i].parent, i) {
      assert Deeper(a, a[i].parent, i);
    }
  }

  lemma UnderMarked(nodes: seq<Node>, view: Option<View>, i: int)
    ensures Marked(nodes, Under(view), i) <==> view.Some? && First(nodes, Tags(view.value), i)
  {
    if view.Some? && First(nodes, Tags(view.value), i) { assert Tags(view.value) in Under(view); }
  }
}
