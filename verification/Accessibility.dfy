/** The nodes an assistive technology reads of a tree of views: which there are, how they nest, which is marked. */
module Accessibility {
  type Tag = int

  datatype Role = List | ListItem | TabList | Tab | OtherRole

  /** What a view says of itself as a node: its role, and its place in a collection, -1 where it declares none. */
  datatype Content = Content(role: Role, rows: int, columns: int, row: int, column: int)

  /**
   A view: `surface` if it is drawn on a surface of its own, `popup` if that is a popup's, `modal` if it is a
   modal; an `element` by its props, `live` if it is a live region; a `paragraph`, with words or without.
   */
  datatype View = View(
    tag: Tag, surface: bool, popup: bool, modal: bool, hidden: bool, element: bool, accessible: bool, live: bool,
    paragraph: bool, words: bool, content: Content, children: seq<View>)

  /** `bare` for one there only because it is live; `parent` is its parent's index, -1 for none. */
  datatype Node = Node(
    tag: Tag, content: Content, bare: bool, parent: int, depth: nat, focused: bool, dismisses: bool, position: nat,
    count: nat)

  function NewNode(v: View, bare: bool, parent: int, depth: nat): Node {
    Node(v.tag, v.content, bare, parent, depth, false, false, 0, 0)
  }

  // The nodes there are, as they nest.

  datatype Nest = Nest(tag: Tag, content: Content, bare: bool, held: seq<Nest>)

  function Forest(v: View, isRoot: bool, merged: bool): seq<Nest>
    decreases v, 1
  {
    if (v.surface && !isRoot) || v.hidden then []
    else if v.element then [Nest(v.tag, v.content, false, ForestAll(v.children, v.accessible || merged))]
    else if !merged && !v.paragraph && v.live then [Nest(v.tag, v.content, true, ForestAll(v.children, merged))]
    else if !merged && v.paragraph then if v.words then [Nest(v.tag, v.content, false, [])] else []
    else ForestAll(v.children, merged)
  }

  function ForestAll(vs: seq<View>, merged: bool): seq<Nest>
    decreases vs, 0
  {
    if vs == [] then [] else Forest(vs[0], false, merged) + ForestAll(vs[1..], merged)
  }

  function Head(n: Nest, parent: int, depth: nat): Node {
    Node(n.tag, n.content, n.bare, parent, depth, false, false, 0, 0)
  }

  /** A forest as a list: each node before what it holds, `base` the index of the first. */
  function Flatten(ns: seq<Nest>, parent: int, depth: nat, base: nat): seq<Node> {
    if ns == [] then []
    else
      var n := ns[0];
      var first := [Head(n, parent, depth)] + Flatten(n.held, base, depth + 1, base + 1);
      first + Flatten(ns[1..], parent, depth, base + |first|)
  }

  function Unmarked(n: Node): Node { n.(focused := false, dismisses := false) }

  function AllUnmarked(nodes: seq<Node>): seq<Node> {
    seq(|nodes|, i requires 0 <= i < |nodes| => Unmarked(nodes[i]))
  }

  lemma FlattenCons(ns: seq<Nest>, parent: int, depth: nat, base: nat)
    requires ns != []
    ensures var held := Flatten(ns[0].held, base, depth + 1, base + 1);
            var rest := Flatten(ns[1..], parent, depth, base + 1 + |held|);
            var nodes := Flatten(ns, parent, depth, base);
            nodes == [Head(ns[0], parent, depth)] + held + rest && nodes[1..] == held + rest &&
            nodes[1..][..|held|] == held && nodes[1..][|held|..] == rest
  {
    var held := Flatten(ns[0].held, base, depth + 1, base + 1);
    var rest := Flatten(ns[1..], parent, depth, base + 1 + |held|);
    assert ([Head(ns[0], parent, depth)] + held + rest)[1..] == held + rest;
  }

  lemma {:induction false} FlattenAppend(a: seq<Nest>, b: seq<Nest>, parent: int, depth: nat, base: nat)
    ensures Flatten(a + b, parent, depth, base) ==
              Flatten(a, parent, depth, base) + Flatten(b, parent, depth, base + |Flatten(a, parent, depth, base)|)
  {
    hide Flatten;
    FlattenNone(parent, depth, base);
    if a == [] {
      assert a + b == b;
    } else {
      var held := Flatten(a[0].held, base, depth + 1, base + 1);
      FlattenAppend(a[1..], b, parent, depth, base + 1 + |held|);
      AppendCons(a, b, parent, depth, base);
    }
  }

  lemma {:induction false} FlattenNone(parent: int, depth: nat, base: nat)
    ensures Flatten([], parent, depth, base) == []
  {
  }

  lemma AppendCons(a: seq<Nest>, b: seq<Nest>, parent: int, depth: nat, base: nat)
    requires a != []
    requires var next := base + 1 + |Flatten(a[0].held, base, depth + 1, base + 1)|;
             var more := Flatten(a[1..], parent, depth, next);
             Flatten(a[1..] + b, parent, depth, next) == more + Flatten(b, parent, depth, next + |more|)
    ensures Flatten(a + b, parent, depth, base) ==
              Flatten(a, parent, depth, base) + Flatten(b, parent, depth, base + |Flatten(a, parent, depth, base)|)
  {
    hide Flatten;
    assert (a + b)[0] == a[0] && (a + b)[1..] == a[1..] + b;
    FlattenCons(a, parent, depth, base);
    FlattenCons(a + b, parent, depth, base);
  }

  // How the list holds the forest.

  /** Where a node's own nodes end: before the first after it that is no deeper. */
  function Span(nodes: seq<Node>, depth: nat): (k: nat)
    ensures k <= |nodes| && (forall i :: 0 <= i < k ==> nodes[i].depth > depth)
    ensures k < |nodes| ==> nodes[k].depth <= depth
  {
    if nodes == [] || nodes[0].depth <= depth then 0 else 1 + Span(nodes[1..], depth)
  }

  /** The forest a list of nodes holds, read from their depths alone. */
  function Decode(nodes: seq<Node>): seq<Nest>
    decreases |nodes|
  {
    if nodes == [] then []
    else
      var k := Span(nodes[1..], nodes[0].depth);
      [Nest(nodes[0].tag, nodes[0].content, nodes[0].bare, Decode(nodes[1..][..k]))] + Decode(nodes[1..][k..])
  }

  lemma {:induction false} SpanIs(nodes: seq<Node>, depth: nat, k: nat)
    requires k <= |nodes| && (forall i :: 0 <= i < k ==> nodes[i].depth > depth) &&
      (k < |nodes| ==> nodes[k].depth <= depth)
    ensures Span(nodes, depth) == k
  {
    if k > 0 { SpanIs(nodes[1..], depth, k - 1); }
  }

  lemma {:induction false} FlattenDeep(ns: seq<Nest>, parent: int, depth: nat, base: nat)
    ensures var nodes := Flatten(ns, parent, depth, base);
            (forall i :: 0 <= i < |nodes| ==> nodes[i].depth >= depth) && (nodes != [] ==> nodes[0].depth == depth)
  {
    if ns != [] {
      var first := Flatten(ns[0].held, base, depth + 1, base + 1);
      FlattenDeep(ns[0].held, base, depth + 1, base + 1);
      FlattenDeep(ns[1..], parent, depth, base + 1 + |first|);
    }
  }

  lemma {:induction false} DecodeJoin(n: Nest, parent: int, depth: nat, held: seq<Node>, rest: seq<Node>)
    requires (forall i :: 0 <= i < |held| ==> held[i].depth > depth) && (rest != [] ==> rest[0].depth <= depth)
    ensures Decode([Head(n, parent, depth)] + held + rest) ==
      [Nest(n.tag, n.content, n.bare, Decode(held))] + Decode(rest)
  {
    var nodes := [Head(n, parent, depth)] + held + rest;
    assert nodes[1..] == held + rest;
    SpanIs(nodes[1..], depth, |held|);
    assert nodes[1..][..|held|] == held && nodes[1..][|held|..] == rest;
  }

  lemma DecodeCons(ns: seq<Nest>, parent: int, depth: nat, base: nat)
    requires ns != []
    requires var held := Flatten(ns[0].held, base, depth + 1, base + 1);
             Decode(held) == ns[0].held && Decode(Flatten(ns[1..], parent, depth, base + 1 + |held|)) == ns[1..]
    ensures Decode(Flatten(ns, parent, depth, base)) == ns
  {
    hide Flatten, Decode;
    var held := Flatten(ns[0].held, base, depth + 1, base + 1);
    FlattenCons(ns, parent, depth, base);
    FlattenDeep(ns[0].held, base, depth + 1, base + 1);
    FlattenDeep(ns[1..], parent, depth, base + 1 + |held|);
    DecodeJoin(ns[0], parent, depth, held, Flatten(ns[1..], parent, depth, base + 1 + |held|));
    assert [ns[0]] + ns[1..] == ns;
  }

  lemma {:induction false} DecodeNone(parent: int, depth: nat, base: nat)
    ensures Decode(Flatten([], parent, depth, base)) == []
  {
  }

  /** The list decodes back to the forest it was made of. */
  lemma {:induction false} DecodeFlatten(ns: seq<Nest>, parent: int, depth: nat, base: nat)
    ensures Decode(Flatten(ns, parent, depth, base)) == ns
  {
    hide Flatten, Decode;
    DecodeNone(parent, depth, base);
    if ns != [] {
      var held := Flatten(ns[0].held, base, depth + 1, base + 1);
      DecodeFlatten(ns[0].held, base, depth + 1, base + 1);
      DecodeFlatten(ns[1..], parent, depth, base + 1 + |held|);
      DecodeCons(ns, parent, depth, base);
    }
  }

  /** Each node's parent comes before it, one level up; a root's is -1. */
  predicate Parented(nodes: seq<Node>) {
    forall i :: 0 <= i < |nodes| ==>
      if nodes[i].parent == -1 then nodes[i].depth == 0
      else 0 <= nodes[i].parent < i && nodes[i].depth == nodes[nodes[i].parent].depth + 1
  }

  /** Every node after `from`, up to `to`, is deeper than it: what it holds is one stretch. */
  predicate Deeper(nodes: seq<Node>, from: int, to: int)
    requires 0 <= from <= to < |nodes|
  {
    forall k :: from < k <= to ==> nodes[k].depth > nodes[from].depth
  }

  predicate Contiguous(nodes: seq<Node>)
    requires Parented(nodes)
  {
    forall i :: 0 <= i < |nodes| && nodes[i].parent != -1 ==> Deeper(nodes, nodes[i].parent, i)
  }

  /** One node of a stretch of a list whose first node is at `base` under `parent` at `depth`. */
  predicate Placed(nodes: seq<Node>, i: nat, parent: int, depth: nat, base: nat)
    requires i < |nodes|
  {
    if nodes[i].parent == parent then nodes[i].depth == depth
    else
      var at := nodes[i].parent - base;
      0 <= at < i && nodes[i].depth == nodes[at].depth + 1 && Deeper(nodes, at, i)
  }

  predicate Stretch(nodes: seq<Node>, parent: int, depth: nat, base: nat) {
    forall i :: 0 <= i < |nodes| ==> Placed(nodes, i, parent, depth, base)
  }

  /** A node with what it holds, then its next siblings. */
  lemma StretchJoin(head: Node, held: seq<Node>, rest: seq<Node>, parent: int, depth: nat, base: nat)
    requires parent < base && head.parent == parent && head.depth == depth
    requires Stretch(held, base, depth + 1, base + 1) && forall i :: 0 <= i < |held| ==> held[i].depth > depth
    requires Stretch(rest, parent, depth, base + 1 + |held|)
    ensures Stretch([head] + held + rest, parent, depth, base)
  {
    var nodes := [head] + held + rest;
    forall i | 0 <= i < |nodes| ensures Placed(nodes, i, parent, depth, base) {
      if 1 <= i <= |held| {
        HeldPlaced(head, held, rest, parent, depth, base, i);
      } else if i > |held| {
        RestPlaced([head] + held, rest, parent, depth, base, i);
      }
    }
  }

  lemma HeldPlaced(head: Node, held: seq<Node>, rest: seq<Node>, parent: int, depth: nat, base: nat, i: nat)
    requires parent < base && head.depth == depth && 1 <= i <= |held|
    requires Placed(held, i - 1, base, depth + 1, base + 1) && forall k :: 0 <= k < |held| ==> held[k].depth > depth
    ensures Placed([head] + held + rest, i, parent, depth, base)
  {
    var nodes := [head] + held + rest;
    assert nodes[i] == held[i - 1];
    var at := nodes[i].parent - base;
    if at == 0 {
      forall k | 0 < k <= i ensures nodes[k].depth > nodes[0].depth { assert nodes[k] == held[k - 1]; }
    } else {
      assert nodes[at] == held[at - 1];
      forall k | at < k <= i ensures nodes[k].depth > nodes[at].depth { assert nodes[k] == held[k - 1]; }
    }
  }

  lemma RestPlaced(before: seq<Node>, rest: seq<Node>, parent: int, depth: nat, base: nat, i: nat)
    requires parent < base && |before| <= i < |before| + |rest|
    requires Placed(rest, i - |before|, parent, depth, base + |before|)
    ensures Placed(before + rest, i, parent, depth, base)
  {
    var nodes := before + rest;
    assert nodes[i] == rest[i - |before|];
    if nodes[i].parent != parent {
      var at := nodes[i].parent - base;
      assert nodes[at] == rest[at - |before|];
      forall k | at < k <= i ensures nodes[k].depth > nodes[at].depth { assert nodes[k] == rest[k - |before|]; }
    }
  }

  lemma {:induction false} FlattenStretch(ns: seq<Nest>, parent: int, depth: nat, base: nat)
    requires parent < base
    ensures Stretch(Flatten(ns, parent, depth, base), parent, depth, base)
  {
    if ns != [] {
      var held := Flatten(ns[0].held, base, depth + 1, base + 1);
      FlattenCons(ns, parent, depth, base);
      FlattenStretch(ns[0].held, base, depth + 1, base + 1);
      FlattenStretch(ns[1..], parent, depth, base + 1 + |held|);
      FlattenDeep(ns[0].held, base, depth + 1, base + 1);
      hide Flatten, Stretch;
      StretchJoin(Head(ns[0], parent, depth), held, Flatten(ns[1..], parent, depth, base + 1 + |held|), parent, depth,
        base);
    }
  }

  /** Each node after its parent and one level down, and everything a node holds right after it. */
  lemma {:induction false} FlattenParented(ns: seq<Nest>)
    ensures Parented(Flatten(ns, -1, 0, 0)) && Contiguous(Flatten(ns, -1, 0, 0))
  {
    FlattenStretch(ns, -1, 0, 0);
    hide Flatten;
    var nodes := Flatten(ns, -1, 0, 0);
    forall i | 0 <= i < |nodes|
      ensures if nodes[i].parent == -1 then nodes[i].depth == 0
              else 0 <= nodes[i].parent < i && nodes[i].depth == nodes[nodes[i].parent].depth + 1 &&
                   Deeper(nodes, nodes[i].parent, i)
    {
      assert Placed(nodes, i, -1, 0, 0);
    }
  }
}
