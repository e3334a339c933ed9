/** Which views have a node, which node holds which, and in what order: told by the paths to the views alone. */
module AccessiblePaths {
  import opened Accessibility
  import opened AccessibleMarks

  /** The way down to a view: a place among the children each time; none for the view walked from. */
  type Path = seq<nat>

  /** The views along a path, the first that it starts at; none of a path there is not. */
  function Along(v: View, path: Path): (along: seq<View>)
    ensures |along| == 0 || (|along| == |path| + 1 && along[0] == v)
    decreases path
  {
    if path == [] then [v]
    else if path[0] >= |v.children| then []
    else
      var rest := Along(v.children[path[0]], path[1..]);
      if rest == [] then [] else [v] + rest
  }

  function End(v: View, path: Path): View
    requires Along(v, path) != []
  {
    Along(v, path)[|path|]
  }

  /** Whether a view is read with one above it, an accessible element: `merged` if one above the start is. */
  predicate Merged(along: seq<View>, k: nat, merged: bool)
    requires k < |along|
  {
    merged || exists j :: 0 <= j < k && along[j].element && along[j].accessible
  }

  /** A Paragraph read by itself: what it holds is its text. */
  predicate Loose(along: seq<View>, k: nat, merged: bool)
    requires k < |along|
  {
    along[k].paragraph && !along[k].element && !Merged(along, k, merged)
  }

  /** A view on the way lets the walk on: not hidden, on no surface of its own below the start, no loose Paragraph. */
  predicate Open(along: seq<View>, k: nat, isRoot: bool, merged: bool)
    requires k < |along|
  {
    !along[k].hidden && ((isRoot && k == 0) || !along[k].surface) &&
    (k < |along| - 1 ==> !Loose(along, k, merged))
  }

  /** The view at the end is an element, or read by itself as a live region or a Paragraph with words. */
  predicate ReadAtEnd(along: seq<View>, merged: bool)
    requires along != []
  {
    var v := along[|along| - 1];
    v.element || (!Merged(along, |along| - 1, merged) && if v.paragraph then v.words else v.live)
  }

  /** The view at the end of a path has a node. */
  predicate HasNode(v: View, isRoot: bool, merged: bool, path: Path) {
    var along := Along(v, path);
    along != [] && (forall k :: 0 <= k < |along| ==> Open(along, k, isRoot, merged)) && ReadAtEnd(along, merged)
  }

  /** What its node says of it: bare for one there only because it is live. */
  predicate Describes(n: Node, v: View) {
    n.tag == v.tag && n.content == v.content && n.bare == (!v.element && !v.paragraph)
  }

  /** In reading order: a view before those in it, and before those after it. */
  predicate Before(a: Path, b: Path) {
    a < b || exists k :: 0 <= k < |a| && k < |b| && a[..k] == b[..k] && a[k] < b[k]
  }

  /** A node's parent is that of the closest view above it that has one. */
  predicate ParentIs(q: int, paths: seq<Path>, i: nat, parent: int, base: nat)
    requires i < |paths|
  {
    if q == parent then forall j :: 0 <= j < |paths| ==> !(paths[j] < paths[i])
    else
      0 <= q - base < |paths| && paths[q - base] < paths[i] &&
      forall j :: 0 <= j < |paths| && paths[j] < paths[i] ==> paths[j] <= paths[q - base]
  }

  // The paths in order, as the walk meets them.

  function Deep(i: nat, paths: seq<Path>): (deep: seq<Path>)
    ensures |deep| == |paths| && forall k :: 0 <= k < |paths| ==> deep[k] == [i] + paths[k]
  {
    seq(|paths|, k requires 0 <= k < |paths| => [i] + paths[k])
  }

  function Paths(v: View, isRoot: bool, merged: bool): seq<Path>
    decreases v, 1
  {
    if (v.surface && !isRoot) || v.hidden then []
    else if v.element then [[]] + PathsAll(v.children, |v.children|, v.accessible || merged)
    else if !merged && !v.paragraph && v.live then [[]] + PathsAll(v.children, |v.children|, merged)
    else if !merged && v.paragraph then if v.words then [[]] else []
    else PathsAll(v.children, |v.children|, merged)
  }

  function PathsAll(vs: seq<View>, n: nat, merged: bool): seq<Path>
    requires n <= |vs|
    decreases vs, 0, n
  {
    if n == 0 then [] else PathsAll(vs, n - 1, merged) + Deep(n - 1, Paths(vs[n - 1], false, merged))
  }

  lemma {:induction false} AlongInside(v: View, i: nat, rest: Path)
    ensures var along := Along(v, [i] + rest);
            if i < |v.children| && Along(v.children[i], rest) != [] then along == [v] + Along(v.children[i], rest)
            else along == []
  {
    assert ([i] + rest)[1..] == rest;
  }

  /** A node inside a view: the view lets the walk on, and the child's subtree has it. */
  lemma HasNodeInside(v: View, isRoot: bool, merged: bool, i: nat, rest: Path)
    ensures HasNode(v, isRoot, merged, [i] + rest) <==>
      i < |v.children| && !v.hidden && (isRoot || !v.surface) && !(v.paragraph && !v.element && !merged) &&
      HasNode(v.children[i], false, merged || (v.element && v.accessible), rest)
  {
    hide Along;
    AlongInside(v, i, rest);
    if i < |v.children| && Along(v.children[i], rest) != [] {
      OpenInside(v, isRoot, merged, Along(v, [i] + rest), Along(v.children[i], rest));
    }
  }

  lemma OpenInside(v: View, isRoot: bool, merged: bool, along: seq<View>, inner: seq<View>)
    requires along == [v] + inner && inner != []
    ensures var within := merged || (v.element && v.accessible);
            (forall k :: 0 <= k < |along| ==> Open(along, k, isRoot, merged)) <==>
            !v.hidden && (isRoot || !v.surface) && !(v.paragraph && !v.element && !merged) &&
            forall k :: 0 <= k < |inner| ==> Open(inner, k, false, within)
    ensures ReadAtEnd(along, merged) <==> ReadAtEnd(inner, merged || (v.element && v.accessible))
  {
    hide Open, ReadAtEnd;
    var within := merged || (v.element && v.accessible);
    OpenFirst(v, isRoot, merged, along);
    forall k: nat | k < |inner| ensures Open(along, k + 1, isRoot, merged) <==> Open(inner, k, false, within) {
      OneInside(v, isRoot, merged, along, inner, k);
    }
    if forall k :: 0 <= k < |along| ==> Open(along, k, isRoot, merged) {
      forall k | 0 <= k < |inner| ensures Open(inner, k, false, within) {
        assert Open(along, k + 1, isRoot, merged);
      }
    }
    if !v.hidden && (isRoot || !v.surface) && !(v.paragraph && !v.element && !merged) &&
      forall k :: 0 <= k < |inner| ==> Open(inner, k, false, within)
    {
      forall k | 0 <= k < |along| ensures Open(along, k, isRoot, merged) {
        if k > 0 { assert Open(inner, k - 1, false, within); }
      }
    }
    OneInside(v, isRoot, merged, along, inner, |inner| - 1);
  }

  lemma OpenFirst(v: View, isRoot: bool, merged: bool, along: seq<View>)
    requires |along| > 1 && along[0] == v
    ensures Open(along, 0, isRoot, merged) <==>
      !v.hidden && (isRoot || !v.surface) && !(v.paragraph && !v.element && !merged)
  {
  }

  lemma OneInside(v: View, isRoot: bool, merged: bool, along: seq<View>, inner: seq<View>, k: nat)
    requires along == [v] + inner && k < |inner|
    ensures var within := merged || (v.element && v.accessible);
            (Open(along, k + 1, isRoot, merged) <==> Open(inner, k, false, within)) &&
            (k == |inner| - 1 ==> (ReadAtEnd(along, merged) <==> ReadAtEnd(inner, within)))
  {
    var within := merged || (v.element && v.accessible);
    assert along[k + 1] == inner[k];
    assert Merged(along, k + 1, merged) <==> Merged(inner, k, within) by {
      if j :| 0 <= j < k && inner[j].element && inner[j].accessible {
        assert along[j + 1].element && along[j + 1].accessible;
      }
      if v.element && v.accessible { assert along[0].element && along[0].accessible; }
    }
  }

  lemma HasNodeHere(v: View, isRoot: bool, merged: bool)
    ensures HasNode(v, isRoot, merged, []) <==>
      !v.hidden && (isRoot || !v.surface) && (v.element || (!merged && if v.paragraph then v.words else v.live))
  {
    var along := Along(v, []);
    assert along == [v] && (Merged(along, 0, merged) <==> merged);
    assert Open(along, 0, isRoot, merged) <==> !v.hidden && (isRoot || !v.surface);
  }

  /** The walk meets exactly the paths to the views that have nodes. */
  lemma {:induction false} PathsAreNodes(v: View, isRoot: bool, merged: bool, path: Path)
    ensures path in Paths(v, isRoot, merged) <==> HasNode(v, isRoot, merged, path)
    decreases v, 1
  {
    hide HasNode;
    if path == [] {
      HasNodeHere(v, isRoot, merged);
      PathsAllIn(v.children, |v.children|, v.accessible || merged, []);
      PathsAllIn(v.children, |v.children|, merged, []);
    } else {
      assert path == [path[0]] + path[1..];
      HasNodeInside(v, isRoot, merged, path[0], path[1..]);
      PathsAllIn(v.children, |v.children|, v.accessible || merged, path);
      PathsAllIn(v.children, |v.children|, merged, path);
      if path[0] < |v.children| {
        PathsAreNodes(v.children[path[0]], false, v.accessible || merged, path[1..]);
        PathsAreNodes(v.children[path[0]], false, merged, path[1..]);
      }
    }
  }

  lemma {:induction false} PathsAllIn(vs: seq<View>, n: nat, merged: bool, path: Path)
    requires n <= |vs|
    ensures path in PathsAll(vs, n, merged) <==>
      path != [] && path[0] < n && path[1..] in Paths(vs[path[0]], false, merged)
    decreases n
  {
    hide Paths;
    if n > 0 {
      PathsAllIn(vs, n - 1, merged, path);
      DeepIn(n - 1, Paths(vs[n - 1], false, merged), path);
    }
  }

  lemma DeepIn(i: nat, paths: seq<Path>, path: Path)
    ensures path in Deep(i, paths) <==> path != [] && path[0] == i && path[1..] in paths
  {
    if path != [] && path[0] == i && path[1..] in paths {
      var k :| 0 <= k < |paths| && paths[k] == path[1..];
      assert Deep(i, paths)[k] == [i] + path[1..] == path;
    }
    if path in Deep(i, paths) {
      var k :| 0 <= k < |paths| && Deep(i, paths)[k] == path;
      assert path[1..] == paths[k];
    }
  }

  // How a stretch of nodes is read: in order, each under its parent.

  predicate InOrder(paths: seq<Path>) { forall i, j :: 0 <= i < j < |paths| ==> Before(paths[i], paths[j]) }

  predicate Nested(nodes: seq<Node>, paths: seq<Path>, parent: int, base: nat) {
    |nodes| == |paths| && forall i :: 0 <= i < |nodes| ==> ParentIs(nodes[i].parent, paths, i, parent, base)
  }

  lemma UnderDeep(i: nat, a: Path, b: Path)
    ensures [i] + a < [i] + b <==> a < b
    ensures [i] + a <= [i] + b <==> a <= b
    ensures Before(a, b) ==> Before([i] + a, [i] + b)
  {
    assert ([i] + a)[1..] == a && ([i] + b)[1..] == b;
    if |a| <= |b| { assert ([i] + b)[..|a| + 1] == [i] + b[..|a|]; }
    if !(a < b) && Before(a, b) {
      var k :| 0 <= k < |a| && k < |b| && a[..k] == b[..k] && a[k] < b[k];
      assert ([i] + a)[..k + 1] == [i] + a[..k] && ([i] + b)[..k + 1] == [i] + b[..k];
      assert ([i] + a)[k + 1] < ([i] + b)[k + 1];
    }
  }

  lemma DeepReads(i: nat, nodes: seq<Node>, paths: seq<Path>, parent: int, base: nat)
    requires InOrder(paths) && Nested(nodes, paths, parent, base)
    ensures InOrder(Deep(i, paths)) && Nested(nodes, Deep(i, paths), parent, base)
  {
    hide Before;
    forall j, k | 0 <= j < |paths| && 0 <= k < |paths|
      ensures Deep(i, paths)[j] < Deep(i, paths)[k] <==> paths[j] < paths[k]
      ensures Deep(i, paths)[j] <= Deep(i, paths)[k] <==> paths[j] <= paths[k]
      ensures Before(paths[j], paths[k]) ==> Before(Deep(i, paths)[j], Deep(i, paths)[k])
    {
      UnderDeep(i, paths[j], paths[k]);
    }
    forall k | 0 <= k < |nodes| ensures ParentIs(nodes[k].parent, Deep(i, paths), k, parent, base) {
      assert ParentIs(nodes[k].parent, paths, k, parent, base);
    }
  }

  /** A node, and those in it. */
  lemma HeadReads(head: Node, held: seq<Node>, paths: seq<Path>, parent: int, base: nat)
    requires head.parent == parent < base && (forall k :: 0 <= k < |paths| ==> paths[k] != [])
    requires InOrder(paths) && Nested(held, paths, base, base + 1)
    ensures InOrder([[]] + paths) && Nested([head] + held, [[]] + paths, parent, base)
  {
    var nodes, all: seq<Path> := [head] + held, [[]] + paths;
    forall i, j | 0 <= i < j < |all| ensures Before(all[i], all[j]) {
      if i > 0 { assert Before(paths[i - 1], paths[j - 1]); }
    }
    forall i: nat | i < |nodes| ensures ParentIs(nodes[i].parent, all, i, parent, base) {
      if i > 0 {
        assert ParentIs(held[i - 1].parent, paths, i - 1, base, base + 1);
        HeldParent(held[i - 1].parent, paths, i - 1, parent, base);
      }
    }
  }

  lemma HeldParent(q: int, paths: seq<Path>, i: nat, parent: int, base: nat)
    requires i < |paths| && parent < base && paths[i] != []
    requires ParentIs(q, paths, i, base, base + 1)
    ensures ParentIs(q, [[]] + paths, i + 1, parent, base)
  {
    var all: seq<Path> := [[]] + paths;
    forall j | 0 <= j < |all| && all[j] < all[i + 1] ensures q != parent && all[j] <= all[q - base] {
      if j > 0 { assert paths[j - 1] < paths[i]; }
    }
  }

  /** Siblings' nodes, one after the other's. */
  lemma JoinReads(a: seq<Node>, p: seq<Path>, b: seq<Node>, q: seq<Path>, parent: int, base: nat)
    requires parent < base && InOrder(p) && InOrder(q)
    requires Nested(a, p, parent, base) && Nested(b, q, parent, base + |a|)
    requires forall i, j :: 0 <= i < |p| && 0 <= j < |q| ==> Apart(p[i], q[j])
    ensures InOrder(p + q) && Nested(a + b, p + q, parent, base)
  {
    forall i, j | 0 <= i < j < |p + q| ensures Before((p + q)[i], (p + q)[j]) {
      if i < |p| && j >= |p| { assert Apart(p[i], q[j - |p|]); }
    }
    forall i: nat | i < |a + b| ensures ParentIs((a + b)[i].parent, p + q, i, parent, base) {
      if i < |a| {
        assert ParentIs(a[i].parent, p, i, parent, base);
        EarlierParent(a[i].parent, p, q, i, parent, base);
      } else {
        assert ParentIs(b[i - |a|].parent, q, i - |a|, parent, base + |a|);
        LaterParent(b[i - |a|].parent, p, q, i - |a|, parent, base);
      }
    }
  }

  /** Paths of two siblings' subtrees: neither is on the way to the other. */
  predicate Apart(a: Path, b: Path) { Before(a, b) && !(a < b) && !(b < a) }

  lemma EarlierParent(n: int, p: seq<Path>, q: seq<Path>, i: nat, parent: int, base: nat)
    requires i < |p| && ParentIs(n, p, i, parent, base) && forall j :: 0 <= j < |q| ==> Apart(p[i], q[j])
    ensures ParentIs(n, p + q, i, parent, base)
  {
    var all := p + q;
    forall j | |p| <= j < |all| ensures !(all[j] < all[i]) { assert Apart(p[i], q[j - |p|]); }
    forall j | 0 <= j < |p| && all[j] < all[i] ensures n != parent && all[j] <= all[n - base] { assert p[j] < p[i]; }
  }

  lemma LaterParent(n: int, p: seq<Path>, q: seq<Path>, i: nat, parent: int, base: nat)
    requires i < |q| && parent < base && ParentIs(n, q, i, parent, base + |p|)
    requires forall j :: 0 <= j < |p| ==> Apart(p[j], q[i])
    ensures ParentIs(n, p + q, |p| + i, parent, base)
  {
    var all := p + q;
    forall j | 0 <= j < |p| ensures !(all[j] < all[|p| + i]) { assert Apart(p[j], q[i]); }
    forall j | |p| <= j < |all| && all[j] < all[|p| + i] ensures n != parent && all[j] <= all[n - base] {
      assert q[j - |p|] < q[i];
    }
  }

  /** Each node is that of the view at the end of its path. */
  predicate Described(nodes: seq<Node>, v: View, paths: seq<Path>) {
    |nodes| == |paths| &&
    forall i :: 0 <= i < |paths| ==> Along(v, paths[i]) != [] && Describes(nodes[i], End(v, paths[i]))
  }

  /** The same of views side by side, the first place of a path one among them. */
  predicate DescribedIn(nodes: seq<Node>, vs: seq<View>, n: nat, paths: seq<Path>) {
    |nodes| == |paths| &&
    forall i :: 0 <= i < |paths| ==>
      paths[i] != [] && paths[i][0] < n && paths[i][0] < |vs| && Along(vs[paths[i][0]], paths[i][1..]) != [] &&
      Describes(nodes[i], End(vs[paths[i][0]], paths[i][1..]))
  }

  lemma DescribedInside(nodes: seq<Node>, v: View, paths: seq<Path>)
    requires DescribedIn(nodes, v.children, |v.children|, paths)
    ensures Described(nodes, v, paths)
  {
    forall i | 0 <= i < |paths| ensures Along(v, paths[i]) != [] && Describes(nodes[i], End(v, paths[i])) {
      assert paths[i] == [paths[i][0]] + paths[i][1..];
      AlongInside(v, paths[i][0], paths[i][1..]);
    }
  }

  /** A view's forest, flattened, is read as its paths: in order, each node under its parent, of its view. */
  lemma {:induction false} TreeRead(v: View, isRoot: bool, merged: bool, parent: int, depth: nat, base: nat)
    requires parent < base
    ensures var nodes := Flatten(Forest(v, isRoot, merged), parent, depth, base);
            var paths := Paths(v, isRoot, merged);
            InOrder(paths) && Nested(nodes, paths, parent, base) && Described(nodes, v, paths)
    decreases v, 1
  {
    hide Flatten, InOrder, Nested, Described, DescribedIn, ForestAll, PathsAll;
    NoneRead(v, parent, base);
    FlattenNone(parent, depth, base);
    FlattenNone(base, depth + 1, base + 1);
    if (v.surface && !isRoot) || v.hidden {
    } else if v.element {
      ListRead(v.children, |v.children|, v.accessible || merged, base, depth + 1, base + 1);
      NodeRead(v, false, ForestAll(v.children, v.accessible || merged),
               PathsAll(v.children, |v.children|, v.accessible || merged), parent, depth, base);
    } else if !merged && !v.paragraph && v.live {
      ListRead(v.children, |v.children|, merged, base, depth + 1, base + 1);
      NodeRead(v, true, ForestAll(v.children, merged), PathsAll(v.children, |v.children|, merged), parent, depth, base);
    } else if !merged && v.paragraph {
      NoneReadIn(v.children, base, base + 1);
      if v.words {
        NodeRead(v, false, [], [], parent, depth, base);
        var one: seq<Path> := [[]];
        assert one + [] == one;
      }
    } else {
      ListRead(v.children, |v.children|, merged, parent, depth, base);
      DescribedInside(Flatten(ForestAll(v.children, merged), parent, depth, base), v,
                      PathsAll(v.children, |v.children|, merged));
    }
  }

  lemma NoneRead(v: View, parent: int, base: nat)
    ensures InOrder([]) && Nested([], [], parent, base) && Described([], v, [])
  {
  }

  lemma NoneReadIn(vs: seq<View>, parent: int, base: nat)
    ensures InOrder([]) && Nested([], [], parent, base) && DescribedIn([], vs, |vs|, [])
  {
  }

  /** A view's own node with those it holds. */
  lemma {:induction false} NodeRead(
    v: View, bare: bool, ns: seq<Nest>, paths: seq<Path>, parent: int, depth: nat, base: nat)
    requires parent < base && bare == (!v.element && !v.paragraph)
    requires var held := Flatten(ns, base, depth + 1, base + 1);
             InOrder(paths) && Nested(held, paths, base, base + 1) &&
             DescribedIn(held, v.children, |v.children|, paths)
    ensures var nodes := Flatten([Nest(v.tag, v.content, bare, ns)], parent, depth, base);
            InOrder([[]] + paths) && Nested(nodes, [[]] + paths, parent, base) && Described(nodes, v, [[]] + paths)
  {
    hide Flatten, Nested, InOrder, Described, Along;
    var held, n := Flatten(ns, base, depth + 1, base + 1), Nest(v.tag, v.content, bare, ns);
    FlattenCons([n], parent, depth, base);
    FlattenNone(parent, depth, base + 1 + |held|);
    assert [n][1..] == [] && Flatten([n], parent, depth, base) == [Head(n, parent, depth)] + held;
    HeadReads(Head(n, parent, depth), held, paths, parent, base);
    DescribedInside(held, v, paths);
    DescribedHead(Head(n, parent, depth), held, v, paths);
  }

  lemma DescribedHead(head: Node, held: seq<Node>, v: View, paths: seq<Path>)
    requires Describes(head, v) && Described(held, v, paths)
    ensures Described([head] + held, v, [[]] + paths)
  {
    assert Along(v, []) == [v];
  }

  lemma {:induction false} ListRead(vs: seq<View>, n: nat, merged: bool, parent: int, depth: nat, base: nat)
    requires parent < base && n <= |vs|
    ensures var nodes := Flatten(ForestAll(vs[..n], merged), parent, depth, base);
            var paths := PathsAll(vs, n, merged);
            InOrder(paths) && Nested(nodes, paths, parent, base) && DescribedIn(nodes, vs, n, paths)
    ensures vs[..|vs|] == vs
    decreases vs, 0, n
  {
    hide Flatten, InOrder, Nested, Described, DescribedIn, Forest, Paths;
    assert vs[..|vs|] == vs;
    if n == 0 {
      NoneReadIn(vs, parent, base);
      FlattenNone(parent, depth, base);
      assert DescribedIn([], vs, 0, []) by { NoneReadHere(vs); }
    } else {
      ListRead(vs, n - 1, merged, parent, depth, base);
      var nodes := Flatten(ForestAll(vs[..n - 1], merged), parent, depth, base);
      TreeRead(vs[n - 1], false, merged, parent, depth, base + |nodes|);
      ForestAppend(vs, n, merged);
      FlattenAppend(ForestAll(vs[..n - 1], merged), Forest(vs[n - 1], false, merged), parent, depth, base);
      OneMore(vs, n, nodes, PathsAll(vs, n - 1, merged),
              Flatten(Forest(vs[n - 1], false, merged), parent, depth, base + |nodes|),
              Paths(vs[n - 1], false, merged), parent, base);
    }
  }

  lemma NoneReadHere(vs: seq<View>)
    ensures DescribedIn([], vs, 0, [])
  {
  }

  lemma {:induction false} ForestAppend(vs: seq<View>, n: nat, merged: bool)
    requires 0 < n <= |vs|
    ensures ForestAll(vs[..n], merged) == ForestAll(vs[..n - 1], merged) + Forest(vs[n - 1], false, merged)
    decreases n
  {
    hide Forest;
    if n == 1 {
      assert vs[..1][1..] == [] && vs[..0] == [];
    } else {
      ForestAppend(vs[1..], n - 1, merged);
      assert vs[..n][1..] == vs[1..][..n - 1] && vs[..n - 1][1..] == vs[1..][..n - 2];
    }
  }

  /** A list with the next view's nodes after it. */
  lemma OneMore(vs: seq<View>, n: nat, a: seq<Node>, p: seq<Path>, b: seq<Node>, q: seq<Path>, parent: int, base: nat)
    requires parent < base && 0 < n <= |vs|
    requires InOrder(p) && Nested(a, p, parent, base) && DescribedIn(a, vs, n - 1, p)
    requires InOrder(q) && Nested(b, q, parent, base + |a|) && Described(b, vs[n - 1], q)
    ensures InOrder(p + Deep(n - 1, q)) && Nested(a + b, p + Deep(n - 1, q), parent, base)
    ensures DescribedIn(a + b, vs, n, p + Deep(n - 1, q))
  {
    hide InOrder, Nested, ParentIs;
    var deep := Deep(n - 1, q);
    DeepReads(n - 1, b, q, parent, base + |a|);
    forall i, j | 0 <= i < |p| && 0 <= j < |deep| ensures Apart(p[i], deep[j]) {
      FirstApart(p[i], deep[j]);
    }
    assert |a| == |p| && |b| == |deep|;
    JoinReads(a, p, b, deep, parent, base);
    forall i | 0 <= i < |p + deep|
      ensures var path := (p + deep)[i];
              path != [] && path[0] < n && path[0] < |vs| && Along(vs[path[0]], path[1..]) != [] &&
              Describes((a + b)[i], End(vs[path[0]], path[1..]))
    {
      if i >= |p| { assert (p + deep)[i] == [n - 1] + q[i - |p|] && (p + deep)[i][1..] == q[i - |p|]; }
    }
  }

  lemma FirstApart(a: Path, b: Path)
    requires a != [] && b != [] && a[0] < b[0]
    ensures Apart(a, b)
  {
    assert a[..0] == b[..0];
  }

  /** What a list of nodes says of the views walked: which have one, in order, under which, and what of them. */
  ghost predicate ReadAs(nodes: seq<Node>, v: View, isRoot: bool, paths: seq<Path>) {
    (forall path :: path in paths <==> HasNode(v, isRoot, false, path)) && InOrder(paths) &&
    Nested(nodes, paths, -1, 0) && Described(nodes, v, paths)
  }

  lemma {:induction false} WalkRead(v: View, isRoot: bool)
    ensures ReadAs(Flatten(Forest(v, isRoot, false), -1, 0, 0), v, isRoot, Paths(v, isRoot, false))
  {
    hide HasNode;
    TreeRead(v, isRoot, false, -1, 0, 0);
    forall path ensures path in Paths(v, isRoot, false) <==> HasNode(v, isRoot, false, path) {
      PathsAreNodes(v, isRoot, false, path);
    }
  }

  predicate Listed(nodes: seq<Node>, tag: Tag) { exists i :: 0 <= i < |nodes| && nodes[i].tag == tag }

  ghost predicate Readable(v: View, isRoot: bool, tag: Tag) {
    exists path :: HasNode(v, isRoot, false, path) && End(v, path).tag == tag
  }

  /** A tag has a node exactly when a path leads to a view of that tag that has one. */
  lemma TagsRead(nodes: seq<Node>, v: View, isRoot: bool, paths: seq<Path>, tag: Tag)
    requires ReadAs(nodes, v, isRoot, paths)
    ensures Listed(nodes, tag) <==> Readable(v, isRoot, tag)
  {
    hide HasNode, InOrder, Nested;
    if i :| 0 <= i < |nodes| && nodes[i].tag == tag {
      assert paths[i] in paths && HasNode(v, isRoot, false, paths[i]) && Describes(nodes[i], End(v, paths[i]));
    }
    if path: Path :| HasNode(v, isRoot, false, path) && Along(v, path) != [] && End(v, path).tag == tag {
      var i :| 0 <= i < |paths| && paths[i] == path;
      assert Describes(nodes[i], End(v, paths[i]));
    }
  }

  // Where a mark lands.

  /** The first node that is not bare among those of a view and the views in it. */
  predicate FirstUnder(nodes: seq<Node>, paths: seq<Path>, p: Path, i: int) {
    0 <= i < |nodes| == |paths| && p <= paths[i] && !nodes[i].bare &&
    forall j :: 0 <= j < i && p <= paths[j] ==> nodes[j].bare
  }

  /** A path leads to a view a mark is set at, and the view's tags are these. */
  predicate SetAt(v: View, isRoot: bool, at: (View, bool) -> bool, p: Path, tags: set<Tag>) {
    Along(v, p) != [] && at(End(v, p), isRoot && p == []) && Tags(End(v, p)) == tags
  }

  lemma {:induction false} FamilyAmong(vs: seq<View>, at: (View, bool) -> bool, tags: set<Tag>) returns (i: nat)
    requires tags in FamiliesAll(vs, at)
    ensures i < |vs| && tags in Families(vs[i], false, at)
  {
    i := 0;
    if tags !in Families(vs[0], false, at) {
      var k := FamilyAmong(vs[1..], at, tags);
      i := k + 1;
    }
  }

  lemma {:induction false} FamilyIn(vs: seq<View>, at: (View, bool) -> bool, i: nat)
    requires i < |vs|
    ensures Families(vs[i], false, at) <= FamiliesAll(vs, at) && Tags(vs[i]) <= TagsAll(vs)
  {
    if i > 0 { FamilyIn(vs[1..], at, i - 1); }
  }

  lemma {:induction false} FamilyPath(v: View, isRoot: bool, at: (View, bool) -> bool, tags: set<Tag>) returns (p: Path)
    requires tags in Families(v, isRoot, at)
    ensures SetAt(v, isRoot, at, p, tags)
  {
    p := [];
    if tags in FamiliesAll(v.children, at) {
      var i := FamilyAmong(v.children, at, tags);
      var rest := FamilyPath(v.children[i], false, at, tags);
      AlongInside(v, i, rest);
      p := [i] + rest;
    }
  }

  lemma {:induction false} PathFamily(v: View, isRoot: bool, at: (View, bool) -> bool, p: Path, tags: set<Tag>)
    requires SetAt(v, isRoot, at, p, tags)
    ensures tags in Families(v, isRoot, at)
    decreases |p|
  {
    if p != [] {
      assert p == [p[0]] + p[1..];
      AlongInside(v, p[0], p[1..]);
      PathFamily(v.children[p[0]], false, at, p[1..], tags);
      FamilyIn(v.children, at, p[0]);
    }
  }

  lemma {:induction false} OthersTags(vs: seq<View>, i: nat, j: nat)
    requires DistinctAll(vs) && i < j < |vs|
    ensures Tags(vs[i]) !! Tags(vs[j])
  {
    if i == 0 { FamilyIn(vs[1..], (v, isRoot) => false, j - 1); } else { OthersTags(vs[1..], i - 1, j - 1); }
  }

  lemma {:induction false} DistinctIn(vs: seq<View>, i: nat)
    requires DistinctAll(vs) && i < |vs|
    ensures Distinct(vs[i])
  {
    if i > 0 { DistinctIn(vs[1..], i - 1); }
  }

  lemma {:induction false} EndTagged(v: View, p: Path)
    requires Along(v, p) != []
    ensures Tags(End(v, p)) <= Tags(v) && End(v, p).tag in Tags(End(v, p))
    decreases |p|
  {
    if p != [] {
      EndTagged(v.children[p[0]], p[1..]);
      FamilyIn(v.children, (v, isRoot) => false, p[0]);
    }
  }

  /** A view is in another, or is it, exactly when its path goes on from the other's. */
  lemma {:induction false} TagUnder(v: View, p: Path, a: Path)
    requires Distinct(v) && Along(v, p) != [] && Along(v, a) != []
    ensures End(v, a).tag in Tags(End(v, p)) <==> p <= a
    decreases |p|
  {
    hide Distinct, DistinctAll, Tags, TagsAll;
    EndTagged(v, a);
    if p != [] {
      var vs := v.children;
      EndTagged(vs[p[0]], p[1..]);
      ChildrenTags(v, p[0]);
      if a != [] {
        EndTagged(vs[a[0]], a[1..]);
        if a[0] == p[0] {
          TagUnder(vs[p[0]], p[1..], a[1..]);
          assert p <= a <==> p[1..] <= a[1..] by { StepPrefix(p, a); }
        } else {
          ChildrenApart(v, p[0], a[0]);
        }
      }
    }
  }

  lemma StepPrefix(p: Path, a: Path)
    requires p != [] && a != [] && p[0] == a[0]
    ensures p <= a <==> p[1..] <= a[1..]
  {
    assert p == [p[0]] + p[1..] && a == [a[0]] + a[1..];
  }

  lemma ChildrenTags(v: View, i: nat)
    requires Distinct(v) && i < |v.children|
    ensures Distinct(v.children[i]) && v.tag !in Tags(v.children[i])
  {
    DistinctIn(v.children, i);
    FamilyIn(v.children, (v, isRoot) => false, i);
  }

  lemma ChildrenApart(v: View, i: nat, j: nat)
    requires Distinct(v) && i < |v.children| && j < |v.children| && i != j
    ensures Tags(v.children[i]) !! Tags(v.children[j])
  {
    if i < j { OthersTags(v.children, i, j); } else { OthersTags(v.children, j, i); }
  }

  lemma FirstIsUnder(nodes: seq<Node>, v: View, paths: seq<Path>, p: Path, i: int)
    requires Distinct(v) && Described(nodes, v, paths) && Along(v, p) != []
    ensures First(nodes, Tags(End(v, p)), i) <==> FirstUnder(nodes, paths, p, i)
  {
    hide Distinct, Tags, Along;
    forall j | 0 <= j < |nodes| ensures nodes[j].tag in Tags(End(v, p)) <==> p <= paths[j] {
      TagUnder(v, p, paths[j]);
    }
  }

  /** A mark set at some views lands on the first node, not bare, of each and what is in it. */
  ghost predicate Lands(nodes: seq<Node>, v: View, isRoot: bool, paths: seq<Path>, at: (View, bool) -> bool, i: int) {
    exists p :: Along(v, p) != [] && at(End(v, p), isRoot && p == []) && FirstUnder(nodes, paths, p, i)
  }

  lemma MarkLands(nodes: seq<Node>, v: View, isRoot: bool, paths: seq<Path>, at: (View, bool) -> bool, i: int)
    requires Distinct(v) && Described(nodes, v, paths)
    ensures Marked(nodes, Families(v, isRoot, at), i) <==> Lands(nodes, v, isRoot, paths, at, i)
  {
    hide Distinct, Tags, Along, Families, First, FirstUnder, Described;
    if Marked(nodes, Families(v, isRoot, at), i) {
      var tags :| tags in Families(v, isRoot, at) && First(nodes, tags, i);
      var p := FamilyPath(v, isRoot, at, tags);
      FirstIsUnder(nodes, v, paths, p, i);
    }
    if Lands(nodes, v, isRoot, paths, at, i) {
      var p :| Along(v, p) != [] && at(End(v, p), isRoot && p == []) && FirstUnder(nodes, paths, p, i);
      FirstIsUnder(nodes, v, paths, p, i);
      PathFamily(v, isRoot, at, p, Tags(End(v, p)));
    }
  }
}
