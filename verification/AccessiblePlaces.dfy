/**
 The place of each item in its collection: as it declares, or among the rows of its list, or the tabs of its tab list.
 */
module AccessiblePlaces {
  import opened Accessibility
  import opened Sets

  /** The nearest node above, from `at` up, that says what is asked; -1 if none does. */
  function NearestFrom(nodes: seq<Node>, at: int, says: Content -> bool): (found: int)
    requires Parented(nodes) && -1 <= at < |nodes|
    ensures -1 <= found <= at && (found >= 0 ==> says(nodes[found].content))
    decreases at
  {
    if at == -1 then -1 else if says(nodes[at].content) then at else NearestFrom(nodes, nodes[at].parent, says)
  }

  function IsCollection(): Content -> bool { (c: Content) => c.rows >= 0 }

  function IsListOrRow(): Content -> bool { (c: Content) => c.role.List? || c.role.ListItem? }

  function IsTabListOrTab(): Content -> bool { (c: Content) => c.role.TabList? || c.role.Tab? }

  const WIDE := 0x1_0000_0000

  /** A place as it is published, in 32 bits. */
  function Narrow(n: nat): nat { n % WIDE }

  function Columns(c: Content): nat { if c.columns < 1 then 1 else c.columns }

  function Position(c: Content, columns: nat): nat
    requires c.row >= 0
  {
    c.row * columns + (if c.column < 0 then 0 else c.column) + 1
  }

  function Count(c: Content): nat
    requires c.rows >= 0
  {
    c.rows * Columns(c)
  }

  /** The collection whose rows and columns an item declares its place in, if it fits it; -1 if none. */
  function DeclaredIn(nodes: seq<Node>, i: nat): (collection: int)
    requires Parented(nodes) && i < |nodes|
    ensures -1 <= collection < i
    ensures collection >= 0 ==> nodes[i].content.row >= 0 && nodes[collection].content.rows >= 0
  {
    if nodes[i].content.row < 0 then -1
    else
      var at := NearestFrom(nodes, nodes[i].parent, IsCollection());
      if at >= 0 && Position(nodes[i].content, Columns(nodes[at].content)) <= Count(nodes[at].content) then at else -1
  }

  /** The list or tab list a row or a tab is counted in, its nearest; -1 if it is in none, or declared its place. */
  function GroupOf(nodes: seq<Node>, i: nat): (list: int)
    requires Parented(nodes) && i < |nodes|
    ensures -1 <= list < i
  {
    if DeclaredIn(nodes, i) >= 0 then -1
    else if nodes[i].content.role.ListItem? then
      var at := NearestFrom(nodes, nodes[i].parent, IsListOrRow());
      if at >= 0 && nodes[at].content.role.List? then at else -1
    else if nodes[i].content.role.Tab? then
      var at := NearestFrom(nodes, nodes[i].parent, IsTabListOrTab());
      if at >= 0 && nodes[at].content.role.TabList? then at else -1
    else -1
  }

  /** A list's rows, or a tab list's tabs, among the first `n` nodes, in reading order. */
  function Members(nodes: seq<Node>, list: int, n: nat): (items: seq<nat>)
    requires Parented(nodes) && n <= |nodes|
  {
    if n == 0 then []
    else Members(nodes, list, n - 1) + if GroupOf(nodes, n - 1) == list then [n - 1] else []
  }

  /** A node with its place: declared, or counted, or none. */
  function Declared(nodes: seq<Node>, i: nat): Node
    requires Parented(nodes) && i < |nodes|
  {
    var collection := DeclaredIn(nodes, i);
    if collection < 0 then nodes[i]
    else
      var c := nodes[collection].content;
      nodes[i].(position := Narrow(Position(nodes[i].content, Columns(c))), count := Narrow(Count(c)))
  }

  function Counted(nodes: seq<Node>, i: nat): Node
    requires Parented(nodes) && i < |nodes|
  {
    var list := GroupOf(nodes, i);
    if list < 0 then Declared(nodes, i)
    else nodes[i].(position := |Members(nodes, list, i + 1)|, count := |Members(nodes, list, |nodes|)|)
  }

  // What the places say.

  /** One node holds another, at whatever depth. */
  predicate Above(nodes: seq<Node>, a: int, i: nat)
    requires Parented(nodes) && i < |nodes|
    decreases i
  {
    nodes[i].parent >= 0 && (nodes[i].parent == a || Above(nodes, a, nodes[i].parent))
  }

  lemma {:induction false} AboveBefore(nodes: seq<Node>, a: int, i: nat)
    requires Parented(nodes) && i < |nodes| && Above(nodes, a, i)
    ensures 0 <= a < i
    decreases i
  {
    if nodes[i].parent != a { AboveBefore(nodes, a, nodes[i].parent); }
  }

  lemma {:induction false} NearestIs(nodes: seq<Node>, i: nat, says: Content -> bool)
    requires Parented(nodes) && i < |nodes|
    ensures var a := NearestFrom(nodes, nodes[i].parent, says);
            (a >= 0 ==> Above(nodes, a, i)) &&
            forall b :: 0 <= b < |nodes| && Above(nodes, b, i) && says(nodes[b].content) ==> b <= a
    decreases i
  {
    var p := nodes[i].parent;
    if p >= 0 {
      forall b | 0 <= b < |nodes| && Above(nodes, b, i) ensures b <= p {
        if b != p { AboveBefore(nodes, b, p); }
      }
      if !says(nodes[p].content) { NearestIs(nodes, p, says); }
    }
  }

  lemma {:induction false} NearestExactly(nodes: seq<Node>, i: nat, a: nat, says: Content -> bool)
    requires Parented(nodes) && i < |nodes| && a < |nodes|
    ensures NearestFrom(nodes, nodes[i].parent, says) == a <==>
      Above(nodes, a, i) && says(nodes[a].content) &&
      forall b :: 0 <= b < |nodes| && Above(nodes, b, i) && says(nodes[b].content) ==> b <= a
  {
    NearestIs(nodes, i, says);
  }

  /** An item declares its place in the nearest collection that holds it, if it has a row and fits. */
  predicate DeclaresIn(nodes: seq<Node>, i: nat, a: nat)
    requires Parented(nodes) && i < |nodes| && a < |nodes|
  {
    var item, c := nodes[i].content, nodes[a].content;
    var columns := if c.columns > 1 then c.columns else 1;
    item.row >= 0 && c.rows >= 0 && Above(nodes, a, i) &&
    (forall b :: 0 <= b < |nodes| && Above(nodes, b, i) && nodes[b].content.rows >= 0 ==> b <= a) &&
    item.row * columns + (if item.column > 0 then item.column else 0) < c.rows * columns
  }

  /** That is the place it is given, counted along the rows, and the size of its collection, each in 32 bits. */
  lemma DeclaredExactly(nodes: seq<Node>, i: nat, a: nat)
    requires Parented(nodes) && i < |nodes| && a < |nodes|
    ensures DeclaredIn(nodes, i) == a <==> DeclaresIn(nodes, i, a)
    ensures DeclaresIn(nodes, i, a) ==>
      var item, c := nodes[i].content, nodes[a].content;
      var columns := if c.columns > 1 then c.columns else 1;
      Counted(nodes, i).position ==
        (item.row * columns + (if item.column > 0 then item.column else 0) + 1) % 0x1_0000_0000 &&
      Counted(nodes, i).count == c.rows * columns % 0x1_0000_0000
  {
    hide Parented, NearestFrom, Above, Members, Narrow;
    NearestExactly(nodes, i, a, IsCollection());
    forall b | 0 <= b < |nodes| ensures IsCollection()(nodes[b].content) <==> nodes[b].content.rows >= 0 {
    }
    assert Columns(nodes[a].content) == if nodes[a].content.columns > 1 then nodes[a].content.columns else 1;
    if DeclaresIn(nodes, i, a) { Narrows(nodes, i); }
  }

  lemma Narrows(nodes: seq<Node>, i: nat)
    requires Parented(nodes) && i < |nodes| && DeclaredIn(nodes, i) >= 0
    ensures var c, n := nodes[DeclaredIn(nodes, i)].content, Counted(nodes, i);
            n.position == Position(nodes[i].content, Columns(c)) % 0x1_0000_0000 && n.count == Count(c) % 0x1_0000_0000
  {
    hide DeclaredIn, Parented, Position, Columns, Count;
  }

  /** A row is counted in the list that holds it with no list nor row between them; a tab in such a tab list. */
  predicate CountedIn(nodes: seq<Node>, i: nat, a: nat)
    requires Parented(nodes) && i < |nodes| && a < |nodes|
  {
    (forall c: nat :: c < |nodes| ==> !DeclaresIn(nodes, i, c)) && Above(nodes, a, i) &&
    if nodes[i].content.role.ListItem? then
      nodes[a].content.role.List? &&
      forall b ::
        0 <= b < |nodes| && Above(nodes, b, i) && (nodes[b].content.role.List? || nodes[b].content.role.ListItem?) ==>
          b <= a
    else
      nodes[i].content.role.Tab? && nodes[a].content.role.TabList? &&
      forall b ::
        0 <= b < |nodes| && Above(nodes, b, i) && (nodes[b].content.role.TabList? || nodes[b].content.role.Tab?) ==>
          b <= a
  }

  lemma CountedExactly(nodes: seq<Node>, i: nat, a: nat)
    requires Parented(nodes) && i < |nodes| && a < |nodes|
    ensures GroupOf(nodes, i) == a <==> CountedIn(nodes, i, a)
  {
    hide Parented, DeclaredIn, DeclaresIn;
    forall c: nat | c < |nodes| ensures DeclaredIn(nodes, i) == c <==> DeclaresIn(nodes, i, c) {
      DeclaredExactly(nodes, i, c);
    }
    if DeclaredIn(nodes, i) >= 0 { assert DeclaresIn(nodes, i, DeclaredIn(nodes, i)); }
    NearestExactly(nodes, i, a, IsListOrRow());
    NearestExactly(nodes, i, a, IsTabListOrTab());
    forall b | 0 <= b < |nodes|
      ensures IsListOrRow()(nodes[b].content) <==> nodes[b].content.role.List? || nodes[b].content.role.ListItem?
      ensures IsTabListOrTab()(nodes[b].content) <==> nodes[b].content.role.TabList? || nodes[b].content.role.Tab?
    {
    }
  }

  predicate Increasing(items: seq<nat>) { forall j, k :: 0 <= j < k < |items| ==> items[j] < items[k] }

  lemma {:induction false} MembersAre(nodes: seq<Node>, list: int, n: nat)
    requires Parented(nodes) && n <= |nodes|
    ensures var items := Members(nodes, list, n);
            Increasing(items) && (forall i :: i in items <==> 0 <= i < n && GroupOf(nodes, i) == list)
  {
    hide GroupOf, Parented;
    if n > 0 {
      MembersAre(nodes, list, n - 1);
      var items := Members(nodes, list, n - 1);
      assert forall k :: 0 <= k < |items| ==> items[k] in items;
    }
  }

  lemma {:induction false} MembersPrefix(nodes: seq<Node>, list: int, m: nat, n: nat)
    requires Parented(nodes) && m <= n <= |nodes|
    ensures Members(nodes, list, m) <= Members(nodes, list, n)
    decreases n
  {
    hide GroupOf, Parented;
    if m < n { MembersPrefix(nodes, list, m, n - 1); }
  }

  lemma OnceIn(items: seq<nat>, j: nat, k: nat)
    requires Increasing(items) && j < |items| && k < |items|
    ensures items[j] == items[k] ==> j == k
  {
    if j < k {
      assert items[j] < items[k];
    } else if k < j {
      assert items[k] < items[j];
    }
  }

  /** The k-th of a list's items is its k-th place: its items are numbered 1 to n, in reading order, each once. */
  lemma {:induction false} MemberRank(nodes: seq<Node>, list: int, k: nat)
    requires Parented(nodes) && list >= 0 && k < |Members(nodes, list, |nodes|)|
    ensures var i := Members(nodes, list, |nodes|)[k];
            i < |nodes| && GroupOf(nodes, i) == list && |Members(nodes, list, i + 1)| == k + 1
  {
    hide GroupOf, Parented;
    var items := Members(nodes, list, |nodes|);
    MembersAre(nodes, list, |nodes|);
    var i := items[k];
    assert i in items;
    MembersPrefix(nodes, list, i + 1, |nodes|);
    var upto := Members(nodes, list, i + 1);
    assert upto == Members(nodes, list, i) + [i];
    assert upto[|upto| - 1] == items[|upto| - 1];
    OnceIn(items, |upto| - 1, k);
  }

  /** A declared place is within its collection, in 32 bits as long as the collection's size is. */
  lemma DeclaredWithin(nodes: seq<Node>, i: nat)
    requires Parented(nodes) && i < |nodes| && DeclaredIn(nodes, i) >= 0
    requires Count(nodes[DeclaredIn(nodes, i)].content) < WIDE
    ensures var c, n := nodes[DeclaredIn(nodes, i)].content, Counted(nodes, i);
            1 <= n.position <= n.count == Count(c) && n.position == Position(nodes[i].content, Columns(c))
  {
    var c := nodes[DeclaredIn(nodes, i)].content;
    SmallNarrow(Position(nodes[i].content, Columns(c)));
    SmallNarrow(Count(c));
  }

  lemma SmallNarrow(n: nat)
    requires n < WIDE
    ensures Narrow(n) == n
  {
  }

  /** Row-major: the next column is the next place, and a row starts where the one before it ends. */
  lemma RowMajor(c: Content, columns: nat, column: nat)
    requires c.row >= 0 && column < columns
    ensures Position(c.(column := column), columns) == c.row * columns + column + 1
    ensures Position(c.(row := c.row + 1, column := 0), columns) == Position(c.(column := columns - 1), columns) + 1
  {
  }

  /** An item's place is published as one of its collection's. */
  predicate PublishedWithin(c: Content, item: Content)
    requires c.rows >= 0 && item.row >= 0
  {
    1 <= Narrow(Position(item, Columns(c))) <= Narrow(Count(c))
  }

  /** Every item that fits a collection is, exactly when the collection's size is one in 32 bits. */
  lemma PublishedExactly(c: Content)
    requires c.rows >= 0
    ensures (forall item: Content ::
      item.row >= 0 && Position(item, Columns(c)) <= Count(c) ==> PublishedWithin(c, item)) <==>
            Count(c) < WIDE
  {
    if Count(c) < WIDE {
      forall item: Content | item.row >= 0 && Position(item, Columns(c)) <= Count(c) ensures PublishedWithin(c, item) {
        SmallNarrow(Position(item, Columns(c)));
        SmallNarrow(Count(c));
      }
    } else {
      var r := Narrow(Count(c));
      var item := Content(OtherRole, -1, -1, r / Columns(c), r % Columns(c));
      assert Position(item, Columns(c)) == r + 1 by { DivMod(r, Columns(c)); }
      assert !PublishedWithin(c, item) by { if r + 1 < WIDE { SmallNarrow(r + 1); } }
    }
  }

  lemma DivMod(n: nat, d: nat)
    requires d > 0
    ensures n / d * d + n % d == n && n / d >= 0 && 0 <= n % d < d
  {
  }

  // The pass over the nodes.

  predicate SameShape(a: seq<Node>, b: seq<Node>) {
    |a| == |b| && forall i ::
      0 <= i < |a| ==> a[i].parent == b[i].parent && a[i].depth == b[i].depth && a[i].content == b[i].content
  }

  method Nearest(nodes: seq<Node>, index: nat, says: Content -> bool) returns (found: int)
    requires Parented(nodes) && index < |nodes|
    ensures found == NearestFrom(nodes, nodes[index].parent, says)
  {
    var at := nodes[index].parent;
    while at >= 0
      invariant -1 <= at < |nodes| && NearestFrom(nodes, at, says) == NearestFrom(nodes, nodes[index].parent, says)
      decreases at
    {
      if says(nodes[at].content) { return at; }
      at := nodes[at].parent;
    }
    return -1;
  }

  method FindDeclared(nodes: seq<Node>, i: nat) returns (collection: int)
    requires Parented(nodes) && i < |nodes|
    ensures collection == DeclaredIn(nodes, i)
  {
    if nodes[i].content.row < 0 { return -1; }
    collection := Nearest(nodes, i, IsCollection());
    if collection < 0 ||
      Position(nodes[i].content, Columns(nodes[collection].content)) > Count(nodes[collection].content) {
      return -1;
    }
  }

  method FindGroup(nodes: seq<Node>, i: nat) returns (list: int)
    requires Parented(nodes) && i < |nodes| && DeclaredIn(nodes, i) < 0
    ensures list == GroupOf(nodes, i)
  {
    if nodes[i].content.role.ListItem? {
      list := Nearest(nodes, i, IsListOrRow());
      if list >= 0 && !nodes[list].content.role.List? { list := -1; }
    } else if nodes[i].content.role.Tab? {
      list := Nearest(nodes, i, IsTabListOrTab());
      if list >= 0 && !nodes[list].content.role.TabList? { list := -1; }
    } else {
      list := -1;
    }
  }

  lemma {:induction false} NearestShape(a: seq<Node>, b: seq<Node>, at: int, says: Content -> bool)
    requires Parented(a) && Parented(b) && SameShape(a, b) && -1 <= at < |a|
    ensures NearestFrom(a, at, says) == NearestFrom(b, at, says)
    decreases at
  {
    if at >= 0 && !says(a[at].content) { NearestShape(a, b, a[at].parent, says); }
  }

  lemma GroupShape(a: seq<Node>, b: seq<Node>, i: nat)
    requires Parented(a) && Parented(b) && SameShape(a, b) && i < |a|
    ensures DeclaredIn(a, i) == DeclaredIn(b, i) && GroupOf(a, i) == GroupOf(b, i)
  {
    NearestShape(a, b, a[i].parent, IsCollection());
    NearestShape(a, b, a[i].parent, IsListOrRow());
    NearestShape(a, b, a[i].parent, IsTabListOrTab());
  }

  lemma ShapeParented(a: seq<Node>, b: seq<Node>)
    requires Parented(a) && SameShape(a, b)
    ensures Parented(b)
  {
  }

  ghost predicate RowsAre(nodes: seq<Node>, rows: map<int, seq<nat>>, n: nat)
    requires Parented(nodes) && n <= |nodes|
  {
    forall list :: (if list in rows then rows[list] else []) == if list >= 0 then Members(nodes, list, n) else []
  }

  /** placeItems: every node with its place. */
  method PlaceItems(nodes: seq<Node>) returns (placed: seq<Node>)
    requires Parented(nodes) && forall i :: 0 <= i < |nodes| ==> nodes[i].count == 0
    ensures |placed| == |nodes| && forall i :: 0 <= i < |nodes| ==> placed[i] == Counted(nodes, i)
  {
    var rows;
    placed, rows := PlaceDeclared(nodes);
    placed := CountRows(nodes, placed, rows);
  }

  /** The first pass: declared places, and every list's items. */
  method PlaceDeclared(nodes: seq<Node>) returns (placed: seq<Node>, rows: map<int, seq<nat>>)
    requires Parented(nodes)
    ensures |placed| == |nodes| && forall i :: 0 <= i < |nodes| ==> placed[i] == Declared(nodes, i)
    ensures RowsAre(nodes, rows, |nodes|)
  {
    hide DeclaredIn, GroupOf, RowsAre, Declared, Parented, SameShape;
    placed, rows := nodes, map[];
    NoRows(nodes);
    OwnShape(nodes);
    for i := 0 to |nodes|
      invariant Declaring(nodes, placed, i) && RowsAre(nodes, rows, i)
    {
      var collection;
      placed, collection := PlaceOne(nodes, placed, i);
      if collection >= 0 {
        RowsSkip(nodes, rows, i);
      } else {
        ShapeParented(nodes, placed);
        GroupShape(nodes, placed, i);
        var list := FindGroup(placed, i);
        RowsGrow(nodes, rows, i);
        if list >= 0 { rows := rows[list := (if list in rows then rows[list] else []) + [i]]; }
      }
    }
  }

  ghost predicate Declaring(nodes: seq<Node>, placed: seq<Node>, i: nat)
    requires Parented(nodes) && i <= |nodes|
  {
    |placed| == |nodes| && SameShape(nodes, placed) && (forall k :: 0 <= k < i ==> placed[k] == Declared(nodes, k)) &&
    forall k :: i <= k < |nodes| ==> placed[k] == nodes[k]
  }

  /** An item's declared place, if it has one that fits its collection. */
  method PlaceOne(nodes: seq<Node>, before: seq<Node>, i: nat) returns (placed: seq<Node>, collection: int)
    requires Parented(nodes) && i < |nodes| && Declaring(nodes, before, i)
    ensures Declaring(nodes, placed, i + 1) && collection == DeclaredIn(nodes, i)
  {
    hide DeclaredIn, GroupOf, Declared, Declaring, Parented, SameShape, Narrow, Position, Count, Columns;
    placed := before;
    DeclaringShape(nodes, placed, i);
    ShapeParented(nodes, placed);
    ShapeAt(nodes, placed, i);
    GroupShape(nodes, placed, i);
    collection := FindDeclared(placed, i);
    DeclaredIs(nodes, i);
    if collection >= 0 {
      var c := placed[collection].content;
      ShapeAt(nodes, placed, collection);
      var position, count := Narrow(Position(placed[i].content, Columns(c))), Narrow(Count(c));
      DeclaringPut(nodes, placed, i, position, count);
      placed := placed[i := placed[i].(position := position, count := count)];
    } else {
      DeclaringSkip(nodes, placed, i);
    }
  }

  lemma DeclaringShape(nodes: seq<Node>, placed: seq<Node>, i: nat)
    requires Parented(nodes) && i < |nodes| && Declaring(nodes, placed, i)
    ensures SameShape(nodes, placed)
  {
  }

  lemma DeclaringSkip(nodes: seq<Node>, placed: seq<Node>, i: nat)
    requires Parented(nodes) && i < |nodes| && Declaring(nodes, placed, i) && Declared(nodes, i) == nodes[i]
    ensures Declaring(nodes, placed, i + 1)
  {
    hide Declared, Parented, SameShape;
  }

  lemma DeclaringPut(nodes: seq<Node>, placed: seq<Node>, i: nat, position: nat, count: nat)
    requires Parented(nodes) && i < |nodes| && Declaring(nodes, placed, i)
    requires Declared(nodes, i) == nodes[i].(position := position, count := count)
    ensures |placed| == |nodes| &&
            Declaring(nodes, placed[i := placed[i].(position := position, count := count)], i + 1)
  {
    hide Declared, Parented, SameShape;
    ShapeKept(nodes, placed, i, position, count);
  }

  lemma OwnShape(nodes: seq<Node>)
    ensures SameShape(nodes, nodes)
  {
  }

  lemma ShapeAt(a: seq<Node>, b: seq<Node>, i: nat)
    requires SameShape(a, b) && i < |a|
    ensures |b| == |a| && b[i].content == a[i].content && b[i].parent == a[i].parent
  {
  }

  lemma ShapeKept(a: seq<Node>, b: seq<Node>, i: nat, position: nat, count: nat)
    requires SameShape(a, b) && i < |b|
    ensures SameShape(a, b[i := b[i].(position := position, count := count)])
  {
  }

  lemma NoRows(nodes: seq<Node>)
    requires Parented(nodes)
    ensures RowsAre(nodes, map[], 0)
  {
  }

  lemma RowsSkip(nodes: seq<Node>, rows: map<int, seq<nat>>, i: nat)
    requires Parented(nodes) && i < |nodes| && RowsAre(nodes, rows, i) && DeclaredIn(nodes, i) >= 0
    ensures RowsAre(nodes, rows, i + 1)
  {
    assert GroupOf(nodes, i) == -1;
    hide GroupOf, DeclaredIn, Parented;
  }

  lemma RowsGrow(nodes: seq<Node>, rows: map<int, seq<nat>>, i: nat)
    requires Parented(nodes) && i < |nodes| && RowsAre(nodes, rows, i)
    ensures var list := GroupOf(nodes, i);
            RowsAre(nodes, if list < 0 then rows
              else rows[list := (if list in rows then rows[list] else []) + [i]], i + 1)
  {
    hide GroupOf, Parented;
  }

  lemma DeclaredIs(nodes: seq<Node>, i: nat)
    requires Parented(nodes) && i < |nodes|
    ensures var collection := DeclaredIn(nodes, i);
            Declared(nodes, i) ==
              if collection < 0 then nodes[i]
              else nodes[i].(position := Narrow(Position(nodes[i].content, Columns(nodes[collection].content))),
                             count := Narrow(Count(nodes[collection].content)))
  {
  }

  lemma GroupedUndeclared(nodes: seq<Node>, i: nat)
    requires Parented(nodes) && i < |nodes| && GroupOf(nodes, i) >= 0
    ensures Declared(nodes, i) == nodes[i]
  {
  }

  /** Which nodes have their place: those of the lists counted, and of `list`, those before its `at`-th. */
  ghost predicate CountedSoFar(nodes: seq<Node>, placed: seq<Node>, left: set<int>)
    requires Parented(nodes)
  {
    |placed| == |nodes| &&
    forall i :: 0 <= i < |nodes| ==>
      placed[i] == if GroupOf(nodes, i) >= 0 && GroupOf(nodes, i) !in left then Counted(nodes, i)
        else Declared(nodes, i)
  }

  /** The second pass: each list's items numbered in order. */
  method CountRows(nodes: seq<Node>, before: seq<Node>, rows: map<int, seq<nat>>) returns (placed: seq<Node>)
    requires Parented(nodes) && forall i :: 0 <= i < |nodes| ==> nodes[i].count == 0
    requires |before| == |nodes| && forall i :: 0 <= i < |nodes| ==> before[i] == Declared(nodes, i)
    requires RowsAre(nodes, rows, |nodes|)
    ensures |placed| == |nodes| && forall i :: 0 <= i < |nodes| ==> placed[i] == Counted(nodes, i)
  {
    hide CountedSoFar;
    placed := before;
    var left := rows.Keys;
    NoneCounted(nodes, before, rows);
    while left != {}
      invariant left <= rows.Keys && CountedSoFar(nodes, placed, left)
    {
      Inhabited(left);
      var list :| list in left;
      placed := CountList(nodes, placed, left, list, rows[list]);
      left := left - {list};
    }
    AllCounted(nodes, placed);
  }

  lemma NoneCounted(nodes: seq<Node>, before: seq<Node>, rows: map<int, seq<nat>>)
    requires Parented(nodes) && RowsAre(nodes, rows, |nodes|)
    requires |before| == |nodes| && forall i :: 0 <= i < |nodes| ==> before[i] == Declared(nodes, i)
    ensures CountedSoFar(nodes, before, rows.Keys)
  {
    forall i | 0 <= i < |nodes| && GroupOf(nodes, i) >= 0 ensures GroupOf(nodes, i) in rows {
      var list := GroupOf(nodes, i);
      MembersAre(nodes, list, |nodes|);
      assert i in Members(nodes, list, |nodes|);
    }
  }

  lemma AllCounted(nodes: seq<Node>, placed: seq<Node>)
    requires Parented(nodes) && CountedSoFar(nodes, placed, {})
    ensures |placed| == |nodes| && forall i :: 0 <= i < |nodes| ==> placed[i] == Counted(nodes, i)
  {
  }

  method CountList(nodes: seq<Node>, before: seq<Node>, ghost left: set<int>, list: int, items: seq<nat>)
      returns (placed: seq<Node>)
    requires Parented(nodes) && forall i :: 0 <= i < |nodes| ==> nodes[i].count == 0
    requires CountedSoFar(nodes, before, left) && list in left
    requires items == if list >= 0 then Members(nodes, list, |nodes|) else []
    ensures CountedSoFar(nodes, placed, left - {list})
  {
    hide GroupOf, DeclaredIn, Counted, Declared, CountedSoFar, Parented;
    placed := before;
    ListUncounted(nodes, before, left, list, items);
    for at := 0 to |items|
      invariant |placed| == |nodes| && forall i :: i in items ==> i < |nodes|
      invariant forall i :: 0 <= i < |nodes| ==> placed[i] == if i in items[..at] then Counted(nodes, i) else before[i]
    {
      var i := items[at];
      assert i in items;
      ListUncountedAt(nodes, list, items, at);
      if placed[i].count == 0 {
        placed := placed[i := placed[i].(position := at + 1, count := |items|)];
      }
      assert items[..at + 1] == items[..at] + [i];
    }
    assert items[..|items|] == items;
    ListCounted(nodes, before, placed, left, list, items);
  }

  lemma {:induction false} ListUncounted(
    nodes: seq<Node>, before: seq<Node>, left: set<int>, list: int, items: seq<nat>)
    requires Parented(nodes) && CountedSoFar(nodes, before, left) && list in left
    requires items == if list >= 0 then Members(nodes, list, |nodes|) else []
    ensures |before| == |nodes| && forall i :: i in items ==> i < |nodes| && before[i] == nodes[i]
  {
    if list >= 0 { MembersAre(nodes, list, |nodes|); }
    forall i | i in items ensures i < |nodes| && before[i] == nodes[i] {
      GroupedUndeclared(nodes, i);
    }
  }

  lemma {:induction false} ListUncountedAt(nodes: seq<Node>, list: int, items: seq<nat>, at: nat)
    requires Parented(nodes) && items == (if list >= 0 then Members(nodes, list, |nodes|) else []) && at < |items|
    ensures items[at] !in items[..at] && items[at] < |nodes|
    ensures Counted(nodes, items[at]) == nodes[items[at]].(position := at + 1, count := |items|)
  {
    hide GroupOf, DeclaredIn, Counted, Declared, Parented;
    MembersAre(nodes, list, |nodes|);
    forall k | 0 <= k < at ensures items[k] != items[at] {
      OnceIn(items, k, at);
    }
    MemberRank(nodes, list, at);
    CountedIs(nodes, items[at]);
  }

  lemma {:induction false} ListCounted(
    nodes: seq<Node>, before: seq<Node>, placed: seq<Node>, left: set<int>, list: int, items: seq<nat>)
    requires Parented(nodes) && CountedSoFar(nodes, before, left) && list in left
    requires items == if list >= 0 then Members(nodes, list, |nodes|) else []
    requires |placed| == |nodes| &&
      forall i :: 0 <= i < |nodes| ==> placed[i] == if i in items then Counted(nodes, i) else before[i]
    ensures CountedSoFar(nodes, placed, left - {list})
  {
    hide GroupOf, DeclaredIn, Counted, Declared, Parented;
    if list >= 0 { MembersAre(nodes, list, |nodes|); }
  }

  lemma {:induction false} CountedIs(nodes: seq<Node>, i: nat)
    requires Parented(nodes) && i < |nodes| && GroupOf(nodes, i) >= 0
    ensures var list := GroupOf(nodes, i);
            Counted(nodes, i) ==
              nodes[i].(position := |Members(nodes, list, i + 1)|, count := |Members(nodes, list, |nodes|)|)
  {
  }
}
