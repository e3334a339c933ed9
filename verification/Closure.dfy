/** Why each package of an image is installed: what was asked for, and everything its dependencies lead to. */
module Closure {
  import opened Optional
  import opened Sets

  type Name = int

  /** A package's relations, each a list of alternatives, and the virtual packages it provides. */
  datatype Fields = Fields(relations: seq<seq<Name>>, virtuals: seq<Name>)

  type Packages = map<Name, Fields>

  datatype Reason = Asked(why: int) | DependencyOf(name: Name)

  /** A package provides itself, and what it says. */
  predicate Provides(packages: Packages, installed: Name, name: Name) {
    installed in packages && (installed == name || name in packages[installed].virtuals)
  }

  /** One package leads to another: the other provides an alternative of one of its relations. */
  predicate LeadsTo(packages: Packages, name: Name, installed: Name) {
    name in packages &&
    exists g, a :: 0 <= g < |packages[name].relations| && a in packages[name].relations[g] &&
      Provides(packages, installed, a)
  }

  // Who provides what.

  predicate Has(provided: map<Name, set<Name>>, name: Name, installed: Name) {
    name in provided && installed in provided[name]
  }

  ghost predicate ProvidedBy(packages: Packages, provided: map<Name, set<Name>>, counted: set<Name>) {
    forall name, installed ::
      Has(provided, name, installed) <==> installed in counted && Provides(packages, installed, name)
  }

  function WithProvider(provided: map<Name, set<Name>>, name: Name, installed: Name): map<Name, set<Name>> {
    provided[name := (if name in provided then provided[name] else {}) + {installed}]
  }

  lemma WithHas(provided: map<Name, set<Name>>, name: Name, installed: Name)
    ensures forall n, i ::
      Has(WithProvider(provided, name, installed), n, i) <==> Has(provided, n, i) || (n == name && i == installed)
  {
    forall n, i ensures Has(WithProvider(provided, name, installed), n, i) <==>
      Has(provided, n, i) || (n == name && i == installed) {
    }
  }

  /** providers */
  method Providers(packages: Packages) returns (provided: map<Name, set<Name>>)
    ensures ProvidedBy(packages, provided, packages.Keys)
  {
    provided := map[];
    var left := packages.Keys;
    ghost var counted: set<Name> := {};
    while left != {}
      invariant left <= packages.Keys && counted == packages.Keys - left
      invariant ProvidedBy(packages, provided, counted)
    {
      Inhabited(left);
      var installed :| installed in left;
      provided := CountProvider(packages, provided, counted, installed);
      left, counted := left - {installed}, counted + {installed};
    }
    assert counted == packages.Keys;
  }

  method CountProvider(packages: Packages, before: map<Name, set<Name>>, ghost counted: set<Name>, installed: Name)
    returns (provided: map<Name, set<Name>>)
    requires installed in packages && installed !in counted && ProvidedBy(packages, before, counted)
    ensures ProvidedBy(packages, provided, counted + {installed})
  {
    provided := WithProvider(before, installed, installed);
    WithHas(before, installed, installed);
    var virtuals := packages[installed].virtuals;
    for i := 0 to |virtuals|
      invariant forall name, other ::
        Has(provided, name, other) <==>
          Has(before, name, other) || (other == installed && (name == installed || name in virtuals[..i]))
    {
      assert virtuals[..i + 1] == virtuals[..i] + [virtuals[i]];
      WithHas(provided, virtuals[i], installed);
      provided := WithProvider(provided, virtuals[i], installed);
    }
    assert virtuals[..|virtuals|] == virtuals;
  }

  // What the roots lead to.

  predicate Root(packages: Packages, reasons: map<Name, int>, name: Name) { name in packages && name in reasons }

  /** A path of dependencies from a root. */
  predicate Path(packages: Packages, reasons: map<Name, int>, path: seq<Name>) {
    path != [] && Root(packages, reasons, path[0]) &&
      forall i :: 0 < i < |path| ==> LeadsTo(packages, path[i - 1], path[i])
  }

  ghost predicate Reached(packages: Packages, reasons: map<Name, int>, name: Name) {
    exists path :: Path(packages, reasons, path) && path[|path| - 1] == name
  }

  /** Each package explained: asked for, or led to by one explained before it. */
  predicate Explains(packages: Packages, reasons: map<Name, int>, explained: map<Name, Reason>, order: seq<Name>,
      i: nat)
    requires i < |order|
  {
    var name := order[i];
    name in explained && name in packages &&
    match explained[name]
    case Asked(why) => name in reasons && reasons[name] == why
    case DependencyOf(via) => name !in reasons && via in order[..i] && LeadsTo(packages, via, name)
  }

  ghost predicate Explained(packages: Packages, reasons: map<Name, int>, explained: map<Name, Reason>,
      order: seq<Name>) {
    (forall name :: name in explained <==> name in order) &&
    (forall i, j :: 0 <= i < j < |order| ==> order[i] != order[j]) &&
    forall i :: 0 <= i < |order| ==> Explains(packages, reasons, explained, order, i)
  }

  lemma ExplainedMore(packages: Packages, reasons: map<Name, int>, explained: map<Name, Reason>, order: seq<Name>,
      via: Name, name: Name)
    requires Explained(packages, reasons, explained, order) && via in explained && name !in explained &&
      name !in reasons
    requires LeadsTo(packages, via, name) && name in packages
    ensures Explained(packages, reasons, explained[name := DependencyOf(via)], order + [name])
  {
    var after, more := explained[name := DependencyOf(via)], order + [name];
    forall i | 0 <= i < |more| ensures Explains(packages, reasons, after, more, i) {
      if i < |order| {
        assert Explains(packages, reasons, explained, order, i);
        assert more[..i] == order[..i] && more[i] in order;
      } else {
        assert more[..i] == order;
      }
    }
  }

  /** Everything explained that is not queued has led to what it leads to. */
  ghost predicate Followed(packages: Packages, explained: map<Name, Reason>, queue: seq<Name>) {
    forall name, installed ::
      name in explained && name !in queue && LeadsTo(packages, name, installed) ==> installed in explained
  }

  /** closure: what is explained, and the order it was explained in. */
  method ClosureOf(packages: Packages, reasons: map<Name, int>)
      returns (explained: map<Name, Reason>, ghost order: seq<Name>)
    ensures Explained(packages, reasons, explained, order)
    ensures forall name :: name in explained <==> Reached(packages, reasons, name)
  {
    var provided := Providers(packages);
    var queue: seq<Name>;
    explained, queue := Start(packages, reasons);
    order := queue;
    forall name | name in explained.Keys ensures name in packages.Keys { assert Root(packages, reasons, name); }
    while queue != []
      invariant Explained(packages, reasons, explained, order) && explained.Keys <= packages.Keys
      invariant forall name :: Root(packages, reasons, name) ==> name in explained
      invariant forall name :: name in queue ==> name in explained
      invariant Followed(packages, explained, queue)
      decreases packages.Keys - explained.Keys, |queue|
    {
      var name := queue[|queue| - 1];
      assert name in queue;
      queue := queue[..|queue| - 1];
      explained, queue, order := Follow(packages, reasons, provided, name, explained, queue, order);
    }
    ExactlyReached(packages, reasons, explained, order);
  }

  /** What is installed of what was asked for. */
  method Start(packages: Packages, reasons: map<Name, int>) returns (explained: map<Name, Reason>, queue: seq<Name>)
    ensures Explained(packages, reasons, explained, queue)
    ensures forall name :: name in explained <==> Root(packages, reasons, name)
  {
    explained, queue := map[], [];
    var left := reasons.Keys;
    while left != {}
      invariant left <= reasons.Keys
      invariant forall name :: name in explained <==> name in reasons && name !in left && name in packages
      invariant Explained(packages, reasons, explained, queue)
      invariant forall name :: name in explained ==> explained[name] == Asked(reasons[name])
    {
      Inhabited(left);
      var name :| name in left;
      if name in packages {
        AskedMore(packages, reasons, explained, queue, name);
        explained, queue := explained[name := Asked(reasons[name])], queue + [name];
      }
      left := left - {name};
    }
  }

  lemma AskedMore(packages: Packages, reasons: map<Name, int>, explained: map<Name, Reason>, order: seq<Name>,
      name: Name)
    requires Explained(packages, reasons, explained, order) && name !in explained && name in packages && name in reasons
    ensures Explained(packages, reasons, explained[name := Asked(reasons[name])], order + [name])
  {
    var after, more := explained[name := Asked(reasons[name])], order + [name];
    forall i | 0 <= i < |more| ensures Explains(packages, reasons, after, more, i) {
      if i < |order| {
        assert Explains(packages, reasons, explained, order, i);
        assert more[..i] == order[..i] && more[i] in order;
      }
    }
  }

  /** A queue grown by what one package leads to, and the rest as it was. */
  ghost predicate Grown(
      packages: Packages, reasons: map<Name, int>, was: map<Name, Reason>, earlier: seq<Name>, before: seq<Name>,
      explained: map<Name, Reason>, queue: seq<Name>, order: seq<Name>) {
    Explained(packages, reasons, explained, order) && was.Keys <= explained.Keys <= packages.Keys &&
    before <= order && queue == earlier + order[|before|..] &&
    (forall name :: name in explained ==> name in was || name in queue)
  }

  /**
   One package's relations followed: everything that provides an alternative of one is explained, and queued if it is
   new.
   */
  method Follow(
    packages: Packages, reasons: map<Name, int>, provided: map<Name, set<Name>>, name: Name, was: map<Name, Reason>,
    earlier: seq<Name>, ghost before: seq<Name>)
    returns (explained: map<Name, Reason>, queue: seq<Name>, ghost order: seq<Name>)
    requires ProvidedBy(packages, provided, packages.Keys) && name in was
    requires Explained(packages, reasons, was, before) && was.Keys <= packages.Keys
    requires forall name :: Root(packages, reasons, name) ==> name in was
    ensures Grown(packages, reasons, was, earlier, before, explained, queue, order)
    ensures forall installed :: LeadsTo(packages, name, installed) ==> installed in explained
    ensures if queue == earlier then explained.Keys == was.Keys else was.Keys < explained.Keys
  {
    hide Explained;
    explained, queue, order := was, earlier, before;
    var groups := packages[name].relations;
    for g := 0 to |groups|
      invariant Grown(packages, reasons, was, earlier, before, explained, queue, order)
      invariant forall h, a, installed ::
        0 <= h < g && a in groups[h] && Provides(packages, installed, a) ==> installed in explained
    {
      var alternatives := groups[g];
      for k := 0 to |alternatives|
        invariant Grown(packages, reasons, was, earlier, before, explained, queue, order)
        invariant forall h, a, installed ::
          0 <= h < g && a in groups[h] && Provides(packages, installed, a) ==> installed in explained
        invariant forall a, installed ::
          a in alternatives[..k] && Provides(packages, installed, a) ==> installed in explained
      {
        var found := if alternatives[k] in provided then provided[alternatives[k]] else {};
        LedTo(packages, provided, name, g, alternatives[k], found);
        assert alternatives[..k + 1] == alternatives[..k] + [alternatives[k]];
        explained, queue, order :=
          FollowAll(packages, reasons, name, found, was, earlier, before, explained, queue, order);
      }
      assert alternatives[..|alternatives|] == alternatives;
    }
    GrownSame(packages, reasons, was, earlier, before, explained, queue, order);
  }

  lemma GrownSame(
      packages: Packages, reasons: map<Name, int>, was: map<Name, Reason>, earlier: seq<Name>, before: seq<Name>,
      explained: map<Name, Reason>, queue: seq<Name>, order: seq<Name>)
    requires Grown(packages, reasons, was, earlier, before, explained, queue, order)
    requires Explained(packages, reasons, was, before)
    ensures if queue == earlier then explained.Keys == was.Keys else was.Keys < explained.Keys
  {
    var more := order[|before|..];
    assert order == before + more;
    if queue == earlier {
      assert more == [] by { assert |queue| == |earlier| + |more|; }
      assert order == before;
      forall name ensures name in explained <==> name in was { assert name in order <==> name in before; }
    } else {
      assert more == [] ==> queue == earlier;
      var name := more[0];
      assert name == order[|before|] && name in explained;
      assert name !in before by {
        forall i | 0 <= i < |before| ensures before[i] != name { assert order[i] != order[|before|]; }
      }
      assert name !in was;
    }
  }

  lemma LedTo(packages: Packages, provided: map<Name, set<Name>>, name: Name, g: nat, alternative: Name,
      found: set<Name>)
    requires ProvidedBy(packages, provided, packages.Keys) && name in packages && g < |packages[name].relations|
    requires alternative in packages[name].relations[g]
    requires found == if alternative in provided then provided[alternative] else {}
    ensures forall installed :: installed in found <==> Provides(packages, installed, alternative)
    ensures forall installed :: installed in found ==> installed in packages && LeadsTo(packages, name, installed)
  {
    forall installed ensures installed in found <==> Provides(packages, installed, alternative) {
      assert installed in found <==> Has(provided, alternative, installed);
    }
  }

  method FollowAll(
    packages: Packages, reasons: map<Name, int>, name: Name, found: set<Name>, ghost was: map<Name, Reason>,
    ghost earlier: seq<Name>, ghost before: seq<Name>, held: map<Name, Reason>, queued: seq<Name>,
    ghost ordered: seq<Name>)
    returns (explained: map<Name, Reason>, queue: seq<Name>, ghost order: seq<Name>)
    requires Grown(packages, reasons, was, earlier, before, held, queued, ordered) && name in held
    requires forall installed :: installed in found ==> installed in packages && LeadsTo(packages, name, installed)
    requires forall name :: Root(packages, reasons, name) ==> name in held
    ensures Grown(packages, reasons, was, earlier, before, explained, queue, order)
    ensures held.Keys <= explained.Keys && found <= explained.Keys
  {
    hide Explained;
    explained, queue, order := held, queued, ordered;
    var left := found;
    while left != {}
      invariant left <= found && Grown(packages, reasons, was, earlier, before, explained, queue, order)
      invariant held.Keys <= explained.Keys && found - left <= explained.Keys
    {
      Inhabited(left);
      var installed :| installed in left;
      if installed !in explained {
        ExplainedMore(packages, reasons, explained, order, name, installed);
        assert (order + [installed])[|before|..] == order[|before|..] + [installed];
        explained, queue := explained[installed := DependencyOf(name)], queue + [installed];
        order := order + [installed];
      }
      left := left - {installed};
    }
  }

  lemma {:induction false} OrderReached(packages: Packages, reasons: map<Name, int>, explained: map<Name, Reason>,
      order: seq<Name>, i: nat)
    requires Explained(packages, reasons, explained, order) && i < |order|
    ensures Reached(packages, reasons, order[i])
  {
    assert Explains(packages, reasons, explained, order, i);
    match explained[order[i]]
    case Asked(_) =>
      assert Path(packages, reasons, [order[i]]);
    case DependencyOf(via) =>
      var j :| 0 <= j < i && order[j] == via;
      OrderReached(packages, reasons, explained, order, j);
      var path :| Path(packages, reasons, path) && path[|path| - 1] == via;
      var longer := path + [order[i]];
      forall k | 0 < k < |longer| ensures LeadsTo(packages, longer[k - 1], longer[k]) {
        if k < |path| { assert LeadsTo(packages, path[k - 1], path[k]); }
      }
      assert Path(packages, reasons, longer);
  }

  lemma {:induction false} PathExplained(packages: Packages, reasons: map<Name, int>, explained: map<Name, Reason>,
      path: seq<Name>, i: nat)
    requires forall name :: Root(packages, reasons, name) ==> name in explained
    requires Followed(packages, explained, []) && Path(packages, reasons, path) && i < |path|
    ensures path[i] in explained
  {
    if i > 0 {
      PathExplained(packages, reasons, explained, path, i - 1);
      assert LeadsTo(packages, path[i - 1], path[i]);
    }
  }

  lemma ExactlyReached(packages: Packages, reasons: map<Name, int>, explained: map<Name, Reason>, order: seq<Name>)
    requires Explained(packages, reasons, explained, order) && Followed(packages, explained, [])
    requires forall name :: Root(packages, reasons, name) ==> name in explained
    ensures forall name :: name in explained <==> Reached(packages, reasons, name)
  {
    forall name ensures name in explained <==> Reached(packages, reasons, name) {
      if name in explained {
        var i :| 0 <= i < |order| && order[i] == name;
        OrderReached(packages, reasons, explained, order, i);
      }
      if Reached(packages, reasons, name) {
        var path :| Path(packages, reasons, path) && path[|path| - 1] == name;
        PathExplained(packages, reasons, explained, path, |path| - 1);
      }
    }
  }

  // What a chain of reasons says.

  const LINKS := 20

  /** From a package, the reasons of its reasons. */
  predicate Chain(explained: map<Name, Reason>, links: seq<Name>) {
    links != [] && forall i :: 0 <= i < |links| - 1 ==>
      links[i] in explained && explained[links[i]] == DependencyOf(links[i + 1])
  }

  predicate AtRoot(explained: map<Name, Reason>, name: Name) { name in explained && explained[name].Asked? }

  /** How many reasons away from what was asked for a package is. */
  function Distance(packages: Packages, reasons: map<Name, int>, explained: map<Name, Reason>, order: seq<Name>,
      i: nat): nat
    requires i < |order| && Explained(packages, reasons, explained, order)
  {
    assert Explains(packages, reasons, explained, order, i);
    match explained[order[i]]
    case Asked(_) => 0
    case DependencyOf(via) =>
      var j := IndexIn(order[..i], via);
      1 + Distance(packages, reasons, explained, order, j)
  }

  function IndexIn(order: seq<Name>, name: Name): (i: nat)
    requires name in order
    ensures i < |order| && order[i] == name
  {
    if order[0] == name then 0 else 1 + IndexIn(order[1..], name)
  }

  /** chain: why a package is installed, twenty packages of it at most. */
  method ChainOf(packages: Packages, reasons: map<Name, int>, explained: map<Name, Reason>, ghost order: seq<Name>,
      name: Name)
    returns (links: seq<Name>)
    requires Explained(packages, reasons, explained, order)
    ensures Chain(explained, links) && links[0] == name && |links| <= LINKS
    ensures name !in explained ==> links == [name]
    ensures name in explained ==>
      exists i :: 0 <= i < |order| && order[i] == name &&
        (AtRoot(explained, links[|links| - 1]) <==> Distance(packages, reasons, explained, order, i) < LINKS)
  {
    links := [name];
    ghost var i := 0;
    if name in explained { i :| 0 <= i < |order| && order[i] == name; }
    ghost var start, at := i, i;
    while links[|links| - 1] in explained && explained[links[|links| - 1]].DependencyOf? && |links| < LINKS
      invariant Chain(explained, links) && links[0] == name && |links| <= LINKS
      invariant name in explained ==>
        0 <= start < |order| && order[start] == name && 0 <= at < |order| && order[at] == links[|links| - 1]
      invariant name in explained ==>
        Distance(packages, reasons, explained, order, at) + |links| - 1 ==
          Distance(packages, reasons, explained, order, start)
      invariant name !in explained ==> links == [name]
      decreases LINKS - |links|
    {
      assert Explains(packages, reasons, explained, order, at);
      at := IndexIn(order[..at], explained[order[at]].name);
      links := links + [explained[links[|links| - 1]].name];
    }
    if name in explained {
      assert Explains(packages, reasons, explained, order, at);
      assert AtRoot(explained, links[|links| - 1]) <==> Distance(packages, reasons, explained, order, start) < LINKS;
    }
  }

  // A chain as long as one likes.

  /** Packages 0 to `n`, each but the last asking for the next, and no other in them. */
  function Line(n: nat): Packages { map i | 0 <= i <= n :: NextOf(i, n) }

  function NextOf(i: Name, n: nat): Fields { Fields(if i < n then [[i + 1]] else [], []) }

  lemma LineLeads(n: nat, a: Name, b: Name)
    ensures LeadsTo(Line(n), a, b) <==> 0 <= a < n && b == a + 1
  {
    var packages := Line(n);
    if 0 <= a < n && b == a + 1 {
      assert b in packages[a].relations[0] && Provides(packages, b, b);
    }
  }

  /** Wherever the first was asked for, each is as many steps from it as its number. */
  lemma {:induction false} LineDistance(n: nat, explained: map<Name, Reason>, order: seq<Name>, i: nat)
    requires Explained(Line(n), map[0 := 0], explained, order) && i < |order|
    ensures Distance(Line(n), map[0 := 0], explained, order, i) == order[i]
  {
    hide Line;
    assert Explains(Line(n), map[0 := 0], explained, order, i);
    match explained[order[i]]
    case Asked(_) =>
    case DependencyOf(via) =>
      LineLeads(n, via, order[i]);
      LineDistance(n, explained, order, IndexIn(order[..i], via));
  }

  lemma LineReached(n: nat)
    ensures Reached(Line(n), map[0 := 0], n)
  {
    var path := seq(n + 1, i => i);
    forall i | 0 < i < |path| ensures LeadsTo(Line(n), path[i - 1], path[i]) { LineLeads(n, i - 1, i); }
    assert Path(Line(n), map[0 := 0], path) && path[|path| - 1] == n;
  }

  /**
   The last package of such a line, audited: its chain ends at the one asked for exactly if that is under twenty steps
   away.
   */
  method LineChain(n: nat) returns (explained: map<Name, Reason>, links: seq<Name>)
    ensures Chain(explained, links) && links[0] == n && n in explained
    ensures AtRoot(explained, links[|links| - 1]) <==> n < LINKS
  {
    hide Line;
    ghost var order;
    explained, order := ClosureOf(Line(n), map[0 := 0]);
    LineReached(n);
    links := ChainOf(Line(n), map[0 := 0], explained, order, n);
    ghost var i :| 0 <= i < |order| && order[i] == n &&
                   (AtRoot(explained, links[|links| - 1]) <==>
                     Distance(Line(n), map[0 := 0], explained, order, i) < LINKS);
    LineDistance(n, explained, order, i);
  }
}
