/** The descendant tree of src/profile.c:230-355: stacks are folded into it with recursion
    taken out while they are walked. */
module DescendantTree {
  import opened Ledger
  import opened Events
  import opened Recursion
  import ProfileTree

  type Symbol = ProfileTree.Symbol

  /** ProfileDescendantTreeNode. */
  class DescendantNode {
    const symbol: Symbol
    const parent: DescendantNode?
    var children: seq<DescendantNode>
    var self: nat
    var non_recursion: nat
    var total: nat
    var marked_non_recursive: int
    var marked_total: bool

    ghost const path: Path<Symbol>
    /** Where the node is in the array of its parent's children. */
    ghost const index: nat

    constructor (symbol: Symbol, parent: DescendantNode?, ghost index: nat)
      ensures this.symbol == symbol && this.parent == parent
      ensures children == [] && self == non_recursion == total == 0
      ensures marked_non_recursive == 0 && !marked_total
      ensures path == Frame(PathOf(parent), symbol) && this.index == index
    {
      this.symbol, this.parent, children := symbol, parent, [];
      self, non_recursion, total := 0, 0, 0;
      marked_non_recursive, marked_total := 0, false;
      path, this.index := Frame(PathOf(parent), symbol), index;
    }
  }

  ghost function PathOf(n: DescendantNode?): Path<Symbol> {
    if n == null then Root else n.path
  }

  // ----- The shape of the tree

  ghost predicate Placed(nodes: set<DescendantNode>, at: map<Path<Symbol>, DescendantNode>, n: DescendantNode) {
    && n.path in at && at[n.path] == n
    && n.path == Frame(PathOf(n.parent), n.symbol)
    && (n.parent != null ==> n.parent in nodes)
    && Simple(n.path)
  }

  /** Every path has one node, and no path repeats a function. */
  ghost predicate Tree(nodes: set<DescendantNode>, at: map<Path<Symbol>, DescendantNode>) {
    && (forall p :: p in at ==> at[p] in nodes && at[p].path == p)
    && (forall n {:trigger n.parent} {:trigger n.path} :: n in nodes ==> Placed(nodes, at, n))
  }

  ghost predicate KidAt(kids: map<DescendantNode?, seq<DescendantNode>>, n: DescendantNode) {
    n.parent in kids && n.index < |kids[n.parent]| && kids[n.parent][n.index] == n
  }

  ghost predicate KidsOf(nodes: set<DescendantNode>, kids: map<DescendantNode?, seq<DescendantNode>>,
          k: DescendantNode?) {
    k in kids && forall i :: 0 <= i < |kids[k]| ==>
              kids[k][i] in nodes && kids[k][i].parent == k && kids[k][i].index == i
  }

  ghost predicate Arrays(nodes: set<DescendantNode>, kids: map<DescendantNode?, seq<DescendantNode>>) {
    && kids.Keys == nodes + {null}
    && (forall n {:trigger KidAt(kids, n)} :: n in nodes ==> KidAt(kids, n))
    && KidsOf(nodes, kids, null)
    && (forall k {:trigger KidsOf(nodes, kids, k)} :: k in nodes ==> KidsOf(nodes, kids, k))
  }

  lemma ArraysGrow(nodes: set<DescendantNode>, kids: map<DescendantNode?, seq<DescendantNode>>, n: DescendantNode)
    requires Arrays(nodes, kids)
    requires n !in nodes && n.parent in kids && n.index == |kids[n.parent]|
    ensures Arrays(nodes + {n}, kids[n.parent := kids[n.parent] + [n]][n := []])
  {
    var grown := kids[n.parent := kids[n.parent] + [n]][n := []];
    forall m | m in nodes + {n} ensures KidAt(grown, m) {
      assert m in nodes ==> KidAt(kids, m);
    }
    assert KidsOf(nodes, kids, null);
    assert KidsOf(nodes + {n}, grown, null);
    forall k | k in nodes + {n} ensures KidsOf(nodes + {n}, grown, k) {
      assert k in nodes ==> KidsOf(nodes, kids, k);
    }
  }

  // ----- The walks so far

  /** The places where the walks of all traces have been. */
  ghost function AllVisited(log: Log<Symbol>): set<Path<Symbol>> {
    match log
    case Empty => {}
    case Add(rest, path, _) => AllVisited(rest) + Visited(path)
  }

  ghost function Passing(log: Log<Symbol>, p: Path<Symbol>): int {
    Weight(log, Along(Visits(p)))
  }

  ghost function Stopping(log: Log<Symbol>, p: Path<Symbol>): int {
    Weight(log, Along(StopsAmong({p})))
  }

  ghost function StoppingBelow(log: Log<Symbol>, p: Path<Symbol>): int {
    Weight(log, Along(StopsBelow(p)))
  }

  lemma {:induction false} AllVisitedTraces(log: Log<Symbol>)
    ensures forall t :: t in Traces(log) ==> Visited(t) <= AllVisited(log)
  {
    if log.Add? {
      AllVisitedTraces(log.rest);
    }
  }

  lemma {:induction false} VisitedByTrace(log: Log<Symbol>, p: Path<Symbol>) returns (t: Path<Symbol>)
    requires p in AllVisited(log)
    ensures t in Traces(log) && p in Visited(t)
  {
    if p in Visited(log.path) {
      t := log.path;
    } else {
      t := VisitedByTrace(log.rest, p);
    }
  }

  /** A place where no walk has been weighs nothing. */
  lemma NowhereWeighsNothing(log: Log<Symbol>, p: Path<Symbol>)
    requires p.Frame? && p !in AllVisited(log)
    ensures Passing(log, p) == Stopping(log, p) == StoppingBelow(log, p) == 0
  {
    AllVisitedTraces(log);
    forall t | t in Traces(log) ensures p !in Visited(t) && !Starts(p, Collapse(t)) {
      if Starts(p, Collapse(t)) {
        VisitedUpwards(t, Collapse(t), p);
      }
    }
    WeightNone(log, Along(Visits(p)));
    WeightNone(log, Along(StopsAmong({p})));
    WeightNone(log, Along(StopsBelow(p)));
  }

  lemma NotNegative(log: Log<Symbol>, p: Path<Symbol>)
    requires NonNegative(log)
    ensures StoppingBelow(log, p) >= 0
  {
    WeightMonotone(log, Along(StopsBelow(p)), Everything);
  }

  /** seen_symbols: the functions on the current path, each with its node there. */
  ghost predicate Seen(nodes: set<DescendantNode>, seen: map<Symbol, DescendantNode>, cur: Path<Symbol>) {
    && (forall s :: s in seen <==> Has(cur, s))
    && (forall s :: s in seen ==> seen[s] in nodes && seen[s].path == UpTo(cur, s))
  }

  lemma SeenGoesOn(nodes: set<DescendantNode>, seen: map<Symbol, DescendantNode>, cur: Path<Symbol>,
      node: DescendantNode)
    requires Seen(nodes, seen, cur) && node in nodes && node.path.Frame? && node.path.up == cur &&
              !Has(cur, node.path.last)
    ensures Seen(nodes, seen[node.path.last := node], node.path)
  {
  }

  /** The nodes on the way to cur are listed to be unmarked. */
  ghost predicate Listed(nodes: set<DescendantNode>, list: List<DescendantNode>, cur: Path<Symbol>) {
    && Elements(list) <= nodes
    && (forall n {:trigger Starts(n.path, cur)} :: n in nodes && Starts(n.path, cur) ==> n in Elements(list))
  }

  ghost predicate ListedTotals(nodes: set<DescendantNode>, list: List<DescendantNode>, been: set<Path<Symbol>>) {
    && Elements(list) <= nodes
    && (forall n {:trigger n.path in been} :: n in nodes && n.path in been ==> n in Elements(list))
  }

  /** The place the walk moves to from cur. */
  ghost function Next(cur: Path<Symbol>, s: Symbol): Path<Symbol> {
    if Has(cur, s) then UpTo(cur, s) else Frame(cur, s)
  }

  /** The trace made of the functions of a list of nodes, outermost first, after p. */
  ghost function Traced(p: Path<Symbol>, list: List<ProfileTree.ProfileNode>): Path<Symbol>
    decreases list
  {
    if list.Nil? then p else Traced(Frame(p, list.head.symbol), list.tail)
  }

  class DescendantTree {
    var roots: seq<DescendantNode>

    ghost var nodes: set<DescendantNode>
    ghost var at: map<Path<Symbol>, DescendantNode>
    ghost var kids: map<DescendantNode?, seq<DescendantNode>>
    /** Every trace added so far, with its size. */
    ghost var log: Log<Symbol>

    constructor ()
      ensures Valid() && log == Empty && nodes == {}
    {
      roots := [];
      nodes, at, kids, log := {}, map[], map[null := []], Empty;
    }

    function Children(parent: DescendantNode?): seq<DescendantNode>
      reads this, parent
    {
      if parent == null then roots else parent.children
    }

    ghost predicate Kids()
      reads this`roots, this`kids, this`nodes, nodes`children
    {
      && kids.Keys == nodes + {null} && roots == kids[null]
      && (forall n {:trigger n.children} :: n in nodes ==> n.children == kids[n])
    }

    ghost predicate Shape()
      reads this`roots, this`kids, this`nodes, this`at, nodes`children
    {
      Tree(nodes, at) && Arrays(nodes, kids) && Kids()
    }

    /** non_recursion while a walk of the given size is at cur: it counts there and above. */
    ghost predicate NonRecursion(cur: Path<Symbol>, size: nat)
      reads this`nodes, this`log, nodes`non_recursion
    {
      forall n {:trigger n.non_recursion} :: n in nodes ==>
        n.non_recursion == StoppingBelow(log, n.path) + if Starts(n.path, cur) then size else 0
    }

    ghost predicate Marks(cur: Path<Symbol>)
      reads this`nodes, nodes`marked_non_recursive
    {
      forall n {:trigger n.marked_non_recursive} :: n in nodes ==>
        n.marked_non_recursive == if Starts(n.path, cur) then 1 else 0
    }

    /** total while a walk of the given size has been at the places in been: it counts there,
        once. */
    ghost predicate Totals(been: set<Path<Symbol>>, size: nat)
      reads this`nodes, this`log, nodes`total
    {
      forall n {:trigger n.total} :: n in nodes ==>
        n.total == Passing(log, n.path) + if n.path in been then size else 0
    }

    ghost predicate TotalMarks(been: set<Path<Symbol>>)
      reads this`nodes, nodes`marked_total
    {
      forall n {:trigger n.marked_total} :: n in nodes ==> n.marked_total == (n.path in been)
    }

    ghost predicate Selfs(end: Path<Symbol>, size: nat)
      reads this`nodes, this`log, nodes`self
    {
      forall n {:trigger n.self} :: n in nodes ==>
        n.self == Stopping(log, n.path) + if n.path == end then size else 0
    }

    /** The tree has a node exactly where a walk has been. */
    ghost predicate Grown(been: set<Path<Symbol>>)
      reads this`at, this`log
    {
      at.Keys == AllVisited(log) + been && NonNegative(log)
    }

    ghost predicate Valid()
      reads this, nodes
    {
      && Shape() && Grown({})
      && NonRecursion(Root, 0) && Totals({}, 0) && Selfs(Root, 0)
      && Marks(Root) && TotalMarks({})
    }

    /** The state while a walk of the given size is at cur and has been at been. */
    ghost predicate Walking(cur: Path<Symbol>, been: set<Path<Symbol>>, size: nat)
      reads this, nodes
    {
      && Shape() && Grown(been)
      && NonRecursion(cur, size) && Totals(been, size) && Selfs(Root, 0)
      && Marks(cur) && TotalMarks(been)
    }

    /** The loop at src/profile.c:259-265. */
    method FindMatch(list: seq<DescendantNode>, symbol: Symbol,
            ghost parent: DescendantNode?) returns (found: DescendantNode?)
      requires Shape() && list == Children(parent)
      requires parent != null ==> parent in nodes
      ensures found == null ==> Frame(PathOf(parent), symbol) !in at
      ensures found != null ==> found in nodes && found.path == Frame(PathOf(parent), symbol)
    {
      ghost var path := Frame(PathOf(parent), symbol);
      assert list == kids[parent];
      assert KidsOf(nodes, kids, parent);
      if path in at {
        assert Placed(nodes, at, at[path]);
        assert at[path].parent == parent && at[path].symbol == symbol;
        assert KidAt(kids, at[path]);
      }
      found := null;
      for i := 0 to |list|
        invariant found != null ==> found in nodes && found.path == path
        invariant found == null ==> forall k :: 0 <= k < i ==> list[k].symbol != symbol
      {
        if list[i].symbol == symbol {
          found := list[i];
          assert Placed(nodes, at, found);
        }
      }
    }

    /** src/profile.c:279-283: the walk leaves every node from parent up to the one it goes
        back to; their sizes never drop below zero. */
    method JumpBack(parent: DescendantNode, seen_tree_node: DescendantNode, size: nat)
      requires Shape() && NonNegative(log) && NonRecursion(parent.path, size) && Marks(parent.path)
      requires parent in nodes && seen_tree_node in nodes && Starts(seen_tree_node.path, parent.path)
      modifies nodes`non_recursion, nodes`marked_non_recursive
      ensures NonRecursion(PathOf(seen_tree_node.parent), size) && Marks(PathOf(seen_tree_node.parent))
    {
      hide Shape, NonRecursion, Marks, NonNegative;
      var node: DescendantNode? := parent;
      while node != seen_tree_node.parent
        invariant node != null ==> node in nodes
        invariant NonRecursion(PathOf(node), size) && Marks(PathOf(node))
        invariant node == seen_tree_node.parent || Starts(seen_tree_node.path, PathOf(node))
        decreases PathOf(node)
      {
        OneUp(node, seen_tree_node);
        Leave(node, size);
        node := node.parent;
      }
    }

    lemma PlacedAt(n: DescendantNode)
      requires Shape() && n in nodes
      ensures n.path == Frame(PathOf(n.parent), n.symbol) && Simple(n.path)
      ensures n.parent != null ==> n.parent in nodes
    {
      assert Placed(nodes, at, n);
    }

    lemma OneUp(node: DescendantNode?, seen: DescendantNode)
      requires Shape() && seen in nodes && (node != null ==> node in nodes) && node != seen.parent
      requires Starts(seen.path, PathOf(node))
      ensures node != null && node.path == Frame(PathOf(node.parent), node.symbol)
      ensures node.parent != null ==> node.parent in nodes
      ensures node.parent == seen.parent || Starts(seen.path, PathOf(node.parent))
    {
      assert Placed(nodes, at, seen);
      if node != null {
        assert Placed(nodes, at, node);
        if seen.parent != null {
          assert Placed(nodes, at, seen.parent);
        }
      }
    }

    method Leave(node: DescendantNode, size: nat)
      requires Shape() && NonNegative(log) && NonRecursion(node.path, size) && Marks(node.path) && node in nodes
      modifies node`non_recursion, node`marked_non_recursive
      ensures NonRecursion(PathOf(node.parent), size) && Marks(PathOf(node.parent))
    {
      OnlyLast(node);
      NotNegative(log, node.path);
      node.non_recursion := node.non_recursion - size;
      node.marked_non_recursive := node.marked_non_recursive - 1;
    }

    /** Going from a node to its parent only the node itself is left. */
    lemma OnlyLast(node: DescendantNode)
      requires Shape() && node in nodes
      ensures node.path.Frame? && node.path.up == PathOf(node.parent)
      ensures forall n :: n in nodes && n != node ==> Starts(n.path, node.path) == Starts(n.path, node.path.up)
      ensures Starts(node.path, node.path) && !Starts(node.path, node.path.up)
    {
      assert Placed(nodes, at, node);
      if Starts(node.path, node.path.up) {
        StartsLength(node.path, node.path.up);
      }
      forall n | n in nodes && n != node ensures n.path != node.path {
        assert Placed(nodes, at, n);
      }
    }

    /** src/profile.c:313-318: a node that the walk comes to is never marked yet. */
    method Mark(node: DescendantNode, size: nat,
            nodes_to_unmark: List<DescendantNode>) returns (list: List<DescendantNode>)
      requires Shape() && node in nodes && NonRecursion(PathOf(node.parent), size) && Marks(PathOf(node.parent))
      modifies node`non_recursion, node`marked_non_recursive
      ensures NonRecursion(node.path, size) && Marks(node.path)
      ensures list == Cons(node, nodes_to_unmark)
    {
      OnlyLast(node);
      list := nodes_to_unmark;
      if node.marked_non_recursive == 0 {
        list := Cons(node, list);
        node.non_recursion := node.non_recursion + size;
        node.marked_non_recursive := node.marked_non_recursive + 1;
      }
    }

    /** src/profile.c:320-327: a trace is counted at most once in the total of a node. */
    method MarkTotal(node: DescendantNode, size: nat, nodes_to_unmark_recursive: List<DescendantNode>,
            ghost been: set<Path<Symbol>>)
      returns (list: List<DescendantNode>)
      requires Tree(nodes, at) && node in nodes && Totals(been, size) && TotalMarks(been)
      modifies node`total, node`marked_total
      ensures Totals(been + {node.path}, size) && TotalMarks(been + {node.path})
      ensures Elements(list) == Elements(nodes_to_unmark_recursive) + if node.path in been then {} else {node}
    {
      assert Placed(nodes, at, node);
      list := nodes_to_unmark_recursive;
      if !node.marked_total {
        list := Cons(node, list);
        node.total := node.total + size;
        node.marked_total := true;
      }
    }

    /** src/profile.c:287-292: the table of the functions on the path of match. */
    method RebuildSeen(top: DescendantNode) returns (seen: map<Symbol, DescendantNode>)
      requires Shape() && top in nodes
      ensures Seen(nodes, seen, top.path)
    {
      hide Shape, Simple;
      PlacedAt(top);
      seen := map[];
      var node: DescendantNode? := top;
      while node != null
        invariant node != null ==> node in nodes
        invariant Starts(PathOf(node), top.path)
        invariant forall s :: Has(top.path, s) <==> s in seen || Has(PathOf(node), s)
        invariant forall s :: s in seen ==> seen[s] in nodes && seen[s].path == UpTo(top.path, s)
        decreases PathOf(node)
      {
        PlacedAt(node);
        SimpleUpTo(node.path, top.path);
        StartsIsTransitive(PathOf(node.parent), node.path, top.path);
        seen := seen[node.symbol := node];
        node := node.parent;
      }
    }

    /** Puts a new node at the end of its parent's array. */
    method Link(parent: DescendantNode?, node: DescendantNode)
      requires Kids() && node !in nodes && node.children == []
      requires parent != null ==> parent in nodes
      modifies this`roots, this`nodes, this`at, this`kids, nodes`children
      ensures Kids()
      ensures nodes == old(nodes) + {node} && at == old(at)[node.path := node]
      ensures kids == old(kids)[parent := old(kids)[parent] + [node]][node := []]
    {
      if parent == null {
        roots := roots + [node];
      } else {
        parent.children := parent.children + [node];
      }
      nodes, at := nodes + {node}, at[node.path := node];
      kids := kids[parent := kids[parent] + [node]][node := []];
    }

    /** src/profile.c:297-311 */
    method Insert(parent: DescendantNode?, symbol: Symbol) returns (node: DescendantNode)
      requires Shape() && Simple(Frame(PathOf(parent), symbol))
      requires parent != null ==> parent in nodes
      requires Frame(PathOf(parent), symbol) !in at
      modifies this`roots, this`nodes, this`at, this`kids, nodes`children
      ensures Shape()
      ensures fresh(node) && nodes == old(nodes) + {node} && at == old(at)[node.path := node]
      ensures node.path == Frame(PathOf(parent), symbol) && node.parent == parent
      ensures node.self == node.non_recursion == node.total == 0
      ensures node.marked_non_recursive == 0 && !node.marked_total
    {
      node := new DescendantNode(symbol, parent, |kids[parent]|);
      ArraysGrow(nodes, kids, node);
      Link(parent, node);
      assert Tree(nodes, at) by {
        forall n | n in nodes ensures Placed(nodes, at, n) {
          assert n in old(nodes) ==> Placed(old(nodes), old(at), n);
        }
      }
    }

    lemma NothingThere(p: Path<Symbol>, been: set<Path<Symbol>>)
      requires Grown(been) && p.Frame? && p !in at
      ensures Passing(log, p) == Stopping(log, p) == StoppingBelow(log, p) == 0
      ensures p !in been && !Starts(p, p.up)
    {
      NowhereWeighsNothing(log, p);
      if Starts(p, p.up) {
        StartsLength(p, p.up);
      }
    }

    /** A new node with nothing counted keeps the books right. */
    method AddNode(parent: DescendantNode?, symbol: Symbol, ghost been: set<Path<Symbol>>, ghost size: nat)
      returns (node: DescendantNode)
      requires Walking(PathOf(parent), been, size)
      requires (parent != null ==> parent in nodes) && Simple(Frame(PathOf(parent), symbol))
      requires Frame(PathOf(parent), symbol) !in at
      modifies this`roots, this`nodes, this`at, this`kids, nodes`children
      ensures Shape() && Grown(been + {node.path})
      ensures NonRecursion(PathOf(parent), size) && Totals(been, size) && Selfs(Root, 0)
      ensures Marks(PathOf(parent)) && TotalMarks(been)
      ensures node in nodes && node.path == Frame(PathOf(parent), symbol) && node.parent == parent
      ensures nodes == old(nodes) + {node} && fresh(node) && node.path !in been
    {
      hide Shape, Simple, PathOf, Passing, Stopping, StoppingBelow, Starts, Visited, AllVisited, NonNegative;
      NothingThere(Frame(PathOf(parent), symbol), been);
      node := Insert(parent, symbol);
      assert at.Keys == AllVisited(log) + (been + {node.path});
    }

    /** The state once the next node of a walk is known and before it is counted there. */
    ghost predicate Arriving(node: DescendantNode, been: set<Path<Symbol>>, size: nat)
      reads this, nodes
    {
      && Shape() && node in nodes && Grown(been + {node.path})
      && NonRecursion(PathOf(node.parent), size) && Totals(been, size) && Selfs(Root, 0)
      && Marks(PathOf(node.parent)) && TotalMarks(been)
    }

    lemma ArrivingAtChild(node: DescendantNode, been: set<Path<Symbol>>, size: nat)
      requires Walking(PathOf(node.parent), been, size) && node in nodes
      ensures Arriving(node, been, size)
    {
      assert Placed(nodes, at, node);
    }

    /** A walk that goes back: src/profile.c:269-294. */
    method GoBack(parent: DescendantNode, seen_tree_node: DescendantNode, ghost been: set<Path<Symbol>>, size: nat)
      returns (seen: map<Symbol, DescendantNode>)
      requires Walking(parent.path, been, size) && parent in nodes && seen_tree_node in nodes
      requires Starts(seen_tree_node.path, parent.path)
      modifies nodes`non_recursion, nodes`marked_non_recursive
      ensures Arriving(seen_tree_node, been, size) && Seen(nodes, seen, seen_tree_node.path)
    {
      hide Arrays, NonRecursion, Marks, Totals, TotalMarks, Selfs, NonNegative;
      JumpBack(parent, seen_tree_node, size);
      seen := RebuildSeen(seen_tree_node);
      assert Placed(nodes, at, seen_tree_node);
    }

    lemma WhereNext(parent: DescendantNode?, symbol: Symbol, found: DescendantNode?, seen: map<Symbol, DescendantNode>)
      requires Shape() && (parent != null ==> parent in nodes) && Seen(nodes, seen, PathOf(parent))
      requires found != null ==> found in nodes && found.path == Frame(PathOf(parent), symbol)
      ensures found != null ==> symbol !in seen && PathOf(found.parent) == PathOf(parent)
      ensures symbol in seen ==>
                && parent != null && seen[symbol].path == Next(PathOf(parent), symbol)
                && Starts(seen[symbol].path, parent.path)
      ensures symbol !in seen ==>
                Simple(Frame(PathOf(parent), symbol)) && Next(PathOf(parent), symbol) == Frame(PathOf(parent), symbol)
    {
      if found != null {
        PlacedAt(found);
      }
      if parent != null {
        PlacedAt(parent);
      }
      if symbol in seen {
        UpToIsPrefix(PathOf(parent), symbol);
      }
    }

    /** src/profile.c:257-311: the node that the walk goes to. */
    method FindPlace(parent: DescendantNode?, symbol: Symbol, seen: map<Symbol, DescendantNode>,
            ghost been: set<Path<Symbol>>, size: nat)
      returns (node: DescendantNode, seen': map<Symbol, DescendantNode>)
      requires Walking(PathOf(parent), been, size) && (parent != null ==> parent in nodes)
      requires Seen(nodes, seen, PathOf(parent))
      modifies this`roots, this`nodes, this`at, this`kids, nodes`children, nodes`non_recursion,
          nodes`marked_non_recursive
      ensures Arriving(node, been, size) && node.path == Next(PathOf(parent), symbol)
      ensures Seen(nodes, seen', node.path)
      ensures old(nodes) <= nodes <= old(nodes) + {node} && fresh(nodes - old(nodes))
      ensures node in old(nodes) || node.path !in been
    {
      hide Tree, Arrays, Kids, NonRecursion, Marks, Totals, TotalMarks, Selfs, Grown, NonNegative, Next, Seen, Simple;
      var found := FindMatch(Children(parent), symbol, parent);
      WhereNext(parent, symbol, found, seen);
      if found != null {
        node := found;
        ArrivingAtChild(node, been, size);
      } else if symbol in seen {
        node := InSeen(seen, symbol, PathOf(parent));
        seen' := GoBack(parent, node, been, size);
        return;
      } else {
        node := AddNode(parent, symbol, been, size);
      }
      SeenOnPath(seen, PathOf(parent), symbol, node, old(nodes));
      seen' := seen[symbol := node];
    }

    method InSeen(seen: map<Symbol, DescendantNode>, symbol: Symbol,
            ghost cur: Path<Symbol>) returns (node: DescendantNode)
      requires Seen(nodes, seen, cur) && symbol in seen
      ensures node == seen[symbol] && node in nodes
    {
      node := seen[symbol];
    }

    lemma SeenOnPath(seen: map<Symbol, DescendantNode>, cur: Path<Symbol>, symbol: Symbol, node: DescendantNode,
            before: set<DescendantNode>)
      requires Seen(before, seen, cur) && before <= nodes && node in nodes && node.path == Frame(cur, symbol) &&
                symbol !in seen
      ensures Seen(nodes, seen[symbol := node], node.path)
    {
      SeenGoesOn(nodes, seen, cur, node);
    }

    /** src/profile.c:313-330: counts the walk at the node it has come to. */
    method Arrive(node: DescendantNode, last: bool, size: nat, ghost been: set<Path<Symbol>>,
                  unmark: List<DescendantNode>, unmark_recursive: List<DescendantNode>)
      returns (unmark': List<DescendantNode>, unmark_recursive': List<DescendantNode>)
      requires Arriving(node, been, size)
      requires Listed(nodes, unmark, PathOf(node.parent)) && ListedTotals(nodes, unmark_recursive, been)
      modifies node`non_recursion, node`marked_non_recursive, node`total, node`marked_total, node`self
      ensures !last ==> Walking(node.path, been + {node.path}, size)
      ensures last ==> Walked(node.path, been + {node.path}, size)
      ensures Listed(nodes, unmark', node.path) && ListedTotals(nodes, unmark_recursive', been + {node.path})
    {
      hide Tree, Arrays, Kids, NonRecursion, Marks, Totals, TotalMarks, Selfs, NonNegative, Listed, ListedTotals;
      unmark' := Mark(node, size, unmark);
      unmark_recursive' := MarkTotal(node, size, unmark_recursive, been);
      ListedToo(node, been, unmark, unmark_recursive, unmark_recursive');
      if last {
        AddSelf(node, size);
      }
    }

    /** src/profile.c:329-330 */
    method AddSelf(node: DescendantNode, size: nat)
      requires Shape() && node in nodes && Selfs(Root, 0)
      modifies node`self
      ensures Selfs(node.path, size)
    {
      OnlyLast(node);
      node.self := node.self + size;
    }

    lemma ListedToo(node: DescendantNode, been: set<Path<Symbol>>, unmark: List<DescendantNode>,
                    unmark_recursive: List<DescendantNode>, longer: List<DescendantNode>)
      requires Shape() && node in nodes
      requires Listed(nodes, unmark, PathOf(node.parent)) && ListedTotals(nodes, unmark_recursive, been)
      requires Elements(longer) == Elements(unmark_recursive) + if node.path in been then {} else {node}
      ensures Listed(nodes, Cons(node, unmark), node.path) && ListedTotals(nodes, longer, been + {node.path})
    {
      OnlyLast(node);
      forall n | n in nodes && n.path in been + {node.path} ensures n in Elements(longer) {
        assert n.path in been || n == node;
      }
    }

    /** The state at the end of a walk, with the size of the trace added to self there. */
    ghost predicate Walked(cur: Path<Symbol>, been: set<Path<Symbol>>, size: nat)
      reads this, nodes
    {
      && Shape() && Grown(been)
      && NonRecursion(cur, size) && Totals(been, size) && Selfs(cur, size)
      && Marks(cur) && TotalMarks(been)
    }

    /** One round of the loop at src/profile.c:253-336. */
    method Descend(parent: DescendantNode?, symbol: Symbol, last: bool, size: nat, ghost been: set<Path<Symbol>>,
                   seen: map<Symbol, DescendantNode>, unmark: List<DescendantNode>,
                       unmark_recursive: List<DescendantNode>)
      returns (node: DescendantNode, seen': map<Symbol, DescendantNode>,
               unmark': List<DescendantNode>, unmark_recursive': List<DescendantNode>)
      requires Walking(PathOf(parent), been, size) && (parent != null ==> parent in nodes)
      requires Seen(nodes, seen, PathOf(parent))
      requires Listed(nodes, unmark, PathOf(parent)) && ListedTotals(nodes, unmark_recursive, been)
      modifies this`roots, this`nodes, this`at, this`kids, nodes
      ensures node in nodes && node.path == Next(PathOf(parent), symbol)
      ensures !last ==> Walking(node.path, been + {node.path}, size)
      ensures last ==> Walked(node.path, been + {node.path}, size)
      ensures Seen(nodes, seen', node.path)
      ensures Listed(nodes, unmark', node.path) && ListedTotals(nodes, unmark_recursive', been + {node.path})
      ensures old(nodes) <= nodes && fresh(nodes - old(nodes))
    {
      hide Walking, Walked, Shape, Grown, Seen, Next, Listed, ListedTotals;
      ghost var before := nodes;
      node, seen' := FindPlace(parent, symbol, seen, been, size);
      StillListed(before, PathOf(parent), symbol, node, been, size, unmark, unmark_recursive);
      unmark', unmark_recursive' := Arrive(node, last, size, been, unmark, unmark_recursive);
    }

    lemma StillListed(before: set<DescendantNode>, cur: Path<Symbol>, symbol: Symbol, node: DescendantNode,
            been: set<Path<Symbol>>,
                      size: nat, unmark: List<DescendantNode>, unmark_recursive: List<DescendantNode>)
      requires Arriving(node, been, size) && before <= nodes <= before + {node}
      requires node in before || node.path !in been
      requires node.path == Next(cur, symbol)
      requires Listed(before, unmark, cur) && ListedTotals(before, unmark_recursive, been)
      ensures Listed(nodes, unmark, PathOf(node.parent)) && ListedTotals(nodes, unmark_recursive, been)
    {
      OnlyLast(node);
      if Has(cur, symbol) {
        UpToIsPrefix(cur, symbol);
      }
      forall n | n in nodes && Starts(n.path, node.path.up) ensures n in Elements(unmark) {
        StartsIsTransitive(n.path, node.path.up, node.path);
        if Has(cur, symbol) {
          StartsIsTransitive(n.path, node.path, cur);
        }
        assert Starts(n.path, cur);
      }
    }

    /** src/profile.c:340-345 */
    method Unmark(nodes_to_unmark: List<DescendantNode>)
      requires Elements(nodes_to_unmark) <= nodes
      requires forall n :: n in nodes && n.marked_non_recursive != 0 ==> n in Elements(nodes_to_unmark)
      modifies nodes`marked_non_recursive
      ensures forall n :: n in nodes ==> n.marked_non_recursive == 0
    {
      var list := nodes_to_unmark;
      while list.Cons?
        invariant Elements(list) <= nodes
        invariant forall n :: n in nodes && n.marked_non_recursive != 0 ==> n in Elements(list)
        decreases list
      {
        list.head.marked_non_recursive := 0;
        list := list.tail;
      }
    }

    /** src/profile.c:347-352 */
    method UnmarkTotals(nodes_to_unmark_recursive: List<DescendantNode>)
      requires Elements(nodes_to_unmark_recursive) <= nodes
      requires forall n :: n in nodes && n.marked_total ==> n in Elements(nodes_to_unmark_recursive)
      modifies nodes`marked_total
      ensures forall n :: n in nodes ==> !n.marked_total
    {
      var list := nodes_to_unmark_recursive;
      while list.Cons?
        invariant Elements(list) <= nodes
        invariant forall n :: n in nodes && n.marked_total ==> n in Elements(list)
        decreases list
      {
        list.head.marked_total := false;
        list := list.tail;
      }
    }

    /** With the marks gone the whole trace moves into the log. */
    ghost method Record(done: Path<Symbol>, size: nat)
      requires Shape() && Grown(Visited(done)) && Marks(Root) && TotalMarks({})
      requires NonRecursion(Collapse(done), size) && Totals(Visited(done), size) && Selfs(Collapse(done), size)
      modifies this`log
      ensures Valid() && log == Add(old(log), done, size)
    {
      hide Shape, Collapse, Visited;
      assert forall n :: n in nodes ==> n.path.Frame? by {
        forall n | n in nodes ensures n.path.Frame? {
          PlacedAt(n);
        }
      }
      log := Add(log, done, size);
    }

    lemma MarksListed(done: Path<Symbol>, size: nat, unmark: List<DescendantNode>,
        unmark_recursive: List<DescendantNode>)
      requires Walked(Collapse(done), Visited(done), size)
      requires Listed(nodes, unmark, Collapse(done)) && ListedTotals(nodes, unmark_recursive, Visited(done))
      ensures Elements(unmark) <= nodes && Elements(unmark_recursive) <= nodes
      ensures forall n :: n in nodes && n.marked_non_recursive != 0 ==> n in Elements(unmark)
      ensures forall n :: n in nodes && n.marked_total ==> n in Elements(unmark_recursive)
      ensures forall n :: n in nodes ==> n.path.Frame?
    {
      hide Collapse, Visited, Starts;
      forall n | n in nodes ensures n.path.Frame? {
        PlacedAt(n);
      }
    }

    /** src/profile.c:340-354 */
    method Finish(ghost done: Path<Symbol>, size: nat, unmark: List<DescendantNode>,
            unmark_recursive: List<DescendantNode>)
      requires Walked(Collapse(done), Visited(done), size)
      requires Listed(nodes, unmark, Collapse(done)) && ListedTotals(nodes, unmark_recursive, Visited(done))
      modifies this`log, nodes`marked_non_recursive, nodes`marked_total
      ensures Valid() && log == Add(old(log), done, size)
    {
      hide Valid, Tree, Arrays, Kids, Collapse, Visited, NonRecursion, Totals, Selfs, Grown, Listed, ListedTotals;
      MarksListed(done, size, unmark, unmark_recursive);
      Unmark(unmark);
      UnmarkTotals(unmark_recursive);
      Record(done, size);
    }

    lemma NotWalkedYet(size: nat)
      requires Valid()
      ensures Walking(Root, Visited(Root), size) && Walked(Root, Visited(Root), size)
      ensures Seen(nodes, map[], Root) && Listed(nodes, Nil, Root) && ListedTotals(nodes, Nil, Visited(Root))
    {
      forall n | n in nodes ensures n.path.Frame? {
        assert Placed(nodes, at, n);
      }
    }

    /** add_trace_to_tree */
    method AddTrace(trace: List<ProfileTree.ProfileNode>, size: nat)
      requires Valid()
      modifies this, nodes
      ensures Valid() && old(nodes) <= nodes && fresh(nodes - old(nodes))
      ensures log == Add(old(log), Traced(Root, trace), size)
    {
      hide Valid, Walking, Walked, Seen, Listed, ListedTotals;
      NotWalkedYet(size);
      var parent: DescendantNode? := null;
      var seen: map<Symbol, DescendantNode> := map[];
      var unmark: List<DescendantNode>, unmark_recursive: List<DescendantNode> := Nil, Nil;
      ghost var done: Path<Symbol> := Root;
      var list := trace;
      while list.Cons?
        invariant parent != null ==> parent in nodes
        invariant PathOf(parent) == Collapse(done) && Traced(done, list) == Traced(Root, trace)
        invariant list.Cons? ==> Walking(Collapse(done), Visited(done), size)
        invariant list.Nil? ==> Walked(Collapse(done), Visited(done), size)
        invariant Seen(nodes, seen, Collapse(done))
        invariant Listed(nodes, unmark, Collapse(done)) && ListedTotals(nodes, unmark_recursive, Visited(done))
        invariant log == old(log)
        invariant old(nodes) <= nodes && fresh(nodes - old(nodes))
        decreases list
      {
        parent, seen, unmark, unmark_recursive :=
          Descend(parent, list.head.symbol, list.tail.Nil?, size, Visited(done), seen, unmark, unmark_recursive);
        done := Frame(done, list.head.symbol);
        list := list.tail;
      }
      Finish(done, size, unmark, unmark_recursive);
    }
  }
}
