/**
 Which nodes are marked: for focus, the first node under the focused view; for dismissing, the first under each
 modal. Bare nodes are passed over by both.
 */
module AccessibleMarks {
  import opened Accessibility

  function Tags(v: View): set<Tag>
    decreases v, 1
  {
    {v.tag} + TagsAll(v.children)
  }

  function TagsAll(vs: seq<View>): set<Tag>
    decreases vs, 0
  {
    if vs == [] then {} else Tags(vs[0]) + TagsAll(vs[1..])
  }

  /** A tag names one view of the tree. */
  ghost predicate Distinct(v: View)
    decreases v, 1
  {
    v.tag !in TagsAll(v.children) && DistinctAll(v.children)
  }

  ghost predicate DistinctAll(vs: seq<View>)
    decreases vs, 0
  {
    vs == [] || (Distinct(vs[0]) && Tags(vs[0]) !! TagsAll(vs[1..]) && DistinctAll(vs[1..]))
  }

  /** What a mark looks for: the tags under each view it is set at. */
  function Families(v: View, isRoot: bool, at: (View, bool) -> bool): set<set<Tag>>
    decreases v, 1
  {
    FamiliesAll(v.children, at) + if at(v, isRoot) then {Tags(v)} else {}
  }

  function FamiliesAll(vs: seq<View>, at: (View, bool) -> bool): set<set<Tag>>
    decreases vs, 0
  {
    if vs == [] then {} else Families(vs[0], false, at) + FamiliesAll(vs[1..], at)
  }

  /** The first node of those tagged in `s` that is not bare. */
  predicate First(nodes: seq<Node>, s: set<Tag>, i: int) {
    0 <= i < |nodes| && nodes[i].tag in s && !nodes[i].bare &&
      forall j :: 0 <= j < i && nodes[j].tag in s ==> nodes[j].bare
  }

  ghost predicate Marked(nodes: seq<Node>, families: set<set<Tag>>, i: int) {
    exists s :: s in families && First(nodes, s, i)
  }

  ghost predicate MarksAre(nodes: seq<Node>, bits: seq<bool>, families: set<set<Tag>>) {
    |bits| == |nodes| && forall i :: 0 <= i < |nodes| ==> (bits[i] <==> Marked(nodes, families, i))
  }

  predicate AllBare(nodes: seq<Node>) { forall i :: 0 <= i < |nodes| ==> nodes[i].bare }

  predicate Within(nodes: seq<Node>, all: set<Tag>) { forall i :: 0 <= i < |nodes| ==> nodes[i].tag in all }

  /** Every family is of views under `all`. */
  predicate Inside(families: set<set<Tag>>, all: set<Tag>) { forall s :: s in families ==> s <= all }

  /** A stretch of nodes marked, where `before` says the mark was already looked for and `after` whether it still is. */
  ghost predicate Marking(nodes: seq<Node>, bits: seq<bool>, families: set<set<Tag>>, all: set<Tag>, before: bool,
      after: bool) {
    MarksAre(nodes, bits, families + if before then {all} else {}) && after == (before && AllBare(nodes))
  }

  lemma MarkingNone(families: set<set<Tag>>, all: set<Tag>, flag: bool)
    ensures Marking([], [], families, all, flag, flag)
  {
  }

  /** A node takes the mark looked for. */
  lemma MarkingHead(n: Node, held: seq<Node>, bits: seq<bool>, families: set<set<Tag>>, all: set<Tag>, before: bool)
    requires !n.bare && n.tag !in all && Within(held, all) && Inside(families, all)
    requires Marking(held, bits, families, all, false, false)
    ensures Marking([n] + held, [before] + bits, families, all + {n.tag}, before, false)
  {
    var nodes, wide := [n] + held, all + {n.tag};
    forall i | 0 <= i < |nodes|
      ensures ([before] + bits)[i] <==> Marked(nodes, families + if before then {wide} else {}, i)
    {
      HeadFirst(n, held, families, all, i);
      assert nodes[0] == n && n.tag in wide;
      assert First(nodes, wide, i) <==> i == 0 by {
        if i > 0 { assert nodes[i] == held[i - 1]; }
      }
      if i > 0 { assert bits[i - 1] <==> Marked(held, families + {}, i - 1); }
      MarkedMore(nodes, families, wide, before, i);
      assert families + {} == families;
    }
    assert !AllBare(nodes) by { assert !nodes[0].bare; }
  }

  lemma MarkedMore(nodes: seq<Node>, families: set<set<Tag>>, all: set<Tag>, before: bool, i: int)
    ensures Marked(nodes, families + if before then {all} else {}, i) <==>
      Marked(nodes, families, i) || (before && First(nodes, all, i))
  {
    if before && First(nodes, all, i) { assert all in families + {all}; }
  }

  lemma HeadFirst(n: Node, held: seq<Node>, families: set<set<Tag>>, all: set<Tag>, i: int)
    requires n.tag !in all && Within(held, all) && Inside(families, all)
    ensures Marked([n] + held, families, i) <==> i > 0 && Marked(held, families, i - 1)
  {
    forall s | s in families ensures First([n] + held, s, i) <==> i > 0 && First(held, s, i - 1) {
      ShiftFirst(n, held, s, i);
    }
  }

  lemma ShiftFirst(n: Node, held: seq<Node>, s: set<Tag>, i: int)
    requires n.tag !in s || n.bare
    ensures First([n] + held, s, i) <==> i > 0 && First(held, s, i - 1)
  {
    var nodes := [n] + held;
    if i > 0 && First(held, s, i - 1) {
      forall j | 0 <= j < i && nodes[j].tag in s ensures nodes[j].bare {
        if j > 0 { assert nodes[j] == held[j - 1]; }
      }
    }
    if First(nodes, s, i) {
      forall j | 0 <= j < i - 1 && held[j].tag in s ensures held[j].bare { assert held[j] == nodes[j + 1]; }
    }
  }

  /** Marks look past a bare node. */
  lemma MarkingBare(n: Node, held: seq<Node>, bits: seq<bool>, families: set<set<Tag>>, all: set<Tag>, before: bool,
      after: bool)
    requires n.bare && n.tag !in all && Within(held, all) && Inside(families, all)
    requires Marking(held, bits, families, all, before, after)
    ensures Marking([n] + held, [false] + bits, families, all + {n.tag}, before, after)
  {
    var nodes, wide := [n] + held, all + {n.tag};
    forall i | 0 <= i < |nodes|
      ensures ([false] + bits)[i] <==> Marked(nodes, families + if before then {wide} else {}, i)
    {
      HeadFirst(n, held, families, all, i);
      ShiftFirst(n, held, wide, i);
      if i > 0 {
        WidenFirst(held, all, n.tag, i - 1);
        MarkedMore(held, families, all, before, i - 1);
      }
      MarkedMore(nodes, families, wide, before, i);
    }
    assert AllBare(nodes) <==> AllBare(held) by {
      if AllBare(nodes) { forall j | 0 <= j < |held| ensures held[j].bare { assert held[j] == nodes[j + 1]; } }
    }
  }

  lemma WidenFirst(nodes: seq<Node>, all: set<Tag>, tag: Tag, i: int)
    requires Within(nodes, all)
    ensures First(nodes, all + {tag}, i) <==> First(nodes, all, i)
  {
  }

  /** A view that is no node leaves the marks to what it holds. */
  lemma MarkingThrough(nodes: seq<Node>, bits: seq<bool>, families: set<set<Tag>>, all: set<Tag>, tag: Tag,
      before: bool, after: bool)
    requires Within(nodes, all) && Marking(nodes, bits, families, all, before, after)
    ensures Marking(nodes, bits, families, all + {tag}, before, after)
  {
    forall i | 0 <= i < |nodes|
      ensures bits[i] <==> Marked(nodes, families + if before then {all + {tag}} else {}, i)
    {
      WidenFirst(nodes, all, tag, i);
      MarkedMore(nodes, families, all, before, i);
      MarkedMore(nodes, families, all + {tag}, before, i);
    }
  }

  /** One view's nodes, then the next ones'. */
  lemma MarkingJoin(
      a: seq<Node>, aBits: seq<bool>, aFamilies: set<set<Tag>>, aAll: set<Tag>,
      b: seq<Node>, bBits: seq<bool>, bFamilies: set<set<Tag>>, bAll: set<Tag>, before: bool, between: bool,
      after: bool)
    requires Within(a, aAll) && Within(b, bAll) && Inside(aFamilies, aAll) && Inside(bFamilies, bAll) && aAll !! bAll
    requires Marking(a, aBits, aFamilies, aAll, before, between) && Marking(b, bBits, bFamilies, bAll, between, after)
    ensures Marking(a + b, aBits + bBits, aFamilies + bFamilies, aAll + bAll, before, after)
  {
    var nodes := a + b;
    forall i | 0 <= i < |nodes|
      ensures (aBits + bBits)[i] <==> Marked(nodes, aFamilies + bFamilies + if before then {aAll + bAll} else {}, i)
    {
      LeftMarked(a, b, aFamilies, aAll, bAll, i);
      RightMarked(a, b, bFamilies, aAll, bAll, i);
      BothMarked(nodes, aFamilies, bFamilies, i);
      MarkedMore(nodes, aFamilies + bFamilies, aAll + bAll, before, i);
      WholeFirst(a, b, aAll, bAll, i);
      if i < |a| {
        MarkedMore(a, aFamilies, aAll, before, i);
      } else {
        MarkedMore(b, bFamilies, bAll, between, i - |a|);
      }
    }
    assert AllBare(nodes) <==> AllBare(a) && AllBare(b) by {
      if AllBare(nodes) {
        forall j | 0 <= j < |a| ensures a[j].bare { assert a[j] == nodes[j]; }
        forall j | 0 <= j < |b| ensures b[j].bare { assert b[j] == nodes[|a| + j]; }
      }
    }
  }

  lemma BothMarked(nodes: seq<Node>, a: set<set<Tag>>, b: set<set<Tag>>, i: int)
    ensures Marked(nodes, a + b, i) <==> Marked(nodes, a, i) || Marked(nodes, b, i)
  {
    if Marked(nodes, a, i) {
      var s :| s in a && First(nodes, s, i);
      assert s in a + b;
    }
    if Marked(nodes, b, i) {
      var s :| s in b && First(nodes, s, i);
      assert s in a + b;
    }
  }

  lemma LeftMarked(a: seq<Node>, b: seq<Node>, families: set<set<Tag>>, aAll: set<Tag>, bAll: set<Tag>, i: int)
    requires Within(a, aAll) && Within(b, bAll) && aAll !! bAll && Inside(families, aAll)
    ensures Marked(a + b, families, i) <==> i < |a| && Marked(a, families, i)
  {
    forall s | s in families ensures First(a + b, s, i) <==> i < |a| && First(a, s, i) {
      LeftFirst(a, b, aAll, bAll, s, i);
    }
  }

  lemma LeftFirst(a: seq<Node>, b: seq<Node>, aAll: set<Tag>, bAll: set<Tag>, s: set<Tag>, i: int)
    requires Within(a, aAll) && Within(b, bAll) && aAll !! bAll && s <= aAll
    ensures First(a + b, s, i) <==> i < |a| && First(a, s, i)
  {
    var nodes := a + b;
    if First(nodes, s, i) {
      assert i < |a|;
      forall j | 0 <= j < i && a[j].tag in s ensures a[j].bare { assert a[j] == nodes[j]; }
    }
    if i < |a| && First(a, s, i) {
      forall j | 0 <= j < i && nodes[j].tag in s ensures nodes[j].bare { assert a[j] == nodes[j]; }
    }
  }

  lemma RightMarked(a: seq<Node>, b: seq<Node>, families: set<set<Tag>>, aAll: set<Tag>, bAll: set<Tag>, i: int)
    requires Within(a, aAll) && Within(b, bAll) && aAll !! bAll && Inside(families, bAll)
    ensures Marked(a + b, families, i) <==> i >= |a| && Marked(b, families, i - |a|)
  {
    forall s | s in families ensures First(a + b, s, i) <==> i >= |a| && First(b, s, i - |a|) {
      RightFirst(a, b, aAll, bAll, s, i);
    }
  }

  lemma RightFirst(a: seq<Node>, b: seq<Node>, aAll: set<Tag>, bAll: set<Tag>, s: set<Tag>, i: int)
    requires Within(a, aAll) && Within(b, bAll) && aAll !! bAll && s <= bAll
    ensures First(a + b, s, i) <==> i >= |a| && First(b, s, i - |a|)
  {
    var nodes := a + b;
    if First(nodes, s, i) {
      assert i >= |a|;
      forall j | 0 <= j < i - |a| && b[j].tag in s ensures b[j].bare { assert b[j] == nodes[|a| + j]; }
    }
    if i >= |a| && First(b, s, i - |a|) {
      forall j | 0 <= j < i && nodes[j].tag in s ensures nodes[j].bare {
        if j >= |a| { assert nodes[j] == b[j - |a|]; }
      }
    }
  }

  lemma WholeFirst(a: seq<Node>, b: seq<Node>, aAll: set<Tag>, bAll: set<Tag>, i: int)
    requires Within(a, aAll) && Within(b, bAll) && aAll !! bAll
    ensures First(a + b, aAll + bAll, i) <==>
      if i < |a| then First(a, aAll, i) else AllBare(a) && First(b, bAll, i - |a|)
  {
    var nodes, all := a + b, aAll + bAll;
    if i < |a| {
      if First(nodes, all, i) { forall j | 0 <= j < i ensures a[j].bare { assert a[j] == nodes[j]; } }
      if First(a, aAll, i) { forall j | 0 <= j < i ensures nodes[j].bare { assert a[j] == nodes[j]; } }
    } else {
      if First(nodes, all, i) {
        forall j | 0 <= j < |a| ensures a[j].bare { assert a[j] == nodes[j]; }
        forall j | 0 <= j < i - |a| ensures b[j].bare { assert b[j] == nodes[|a| + j]; }
      }
      if AllBare(a) && First(b, bAll, i - |a|) {
        forall j | 0 <= j < i ensures nodes[j].bare {
          if j < |a| { assert nodes[j] == a[j]; } else { assert nodes[j] == b[j - |a|]; }
        }
      }
    }
  }

  /** A view the mark is set at: looked for from there, and no further than there. */
  lemma MarkingAt(
      nodes: seq<Node>, bits: seq<bool>, families: set<set<Tag>>, all: set<Tag>, here: bool, before: bool, left: bool)
    requires Marking(nodes, bits, families, all, before || here, left)
    ensures Marking(nodes, bits,
      families + if here then {all} else {}, all, before, if here && left then before else left)
  {
    assert families + (if here then {all} else {}) + (if before then {all} else {}) ==
      families + if before || here then {all} else {};
  }
}
