/** The first half of src/profile.c: the call tree that all stacks of a process are folded
    into, keyed by function instead of by address. */
module ProfileTree {
  import opened Ledger
  import Stash = StackStash
  import opened Events

  /** An interned symbol: the pointer is its identity, the name what it spells. */
  datatype Symbol = Symbol(pointer: nat, name: string)

  /** What process_locate_symbol answers, address by address. */
  datatype Symbols = Symbols(table: map<Stash.Addr, Symbol>, unknown: Symbol) {
    function Locate(a: Stash.Addr): Symbol {
      if a in table then table[a] else unknown
    }
  }

  /** A function of a call tree in its context.  Links that are set once are constants. */
  class ProfileNode {
    const symbol: Symbol
    const toplevel: bool
    const parent: ProfileNode?
    const next: ProfileNode?
    var children: seq<ProfileNode>
    var total: nat
    var self: nat

    ghost const path: Path<Symbol>
    /** Where the node is in the array of its parent's children. */
    ghost const index: nat
    ghost const chain: set<ProfileNode>

    constructor (symbol: Symbol, toplevel: bool, parent: ProfileNode?, next: ProfileNode?, ghost index: nat)
      ensures this.symbol == symbol && this.toplevel == toplevel && this.parent == parent && this.next == next
      ensures children == [] && total == self == 0
      ensures path == Frame(PathOf(parent), symbol) && this.index == index && chain == Chain(next)
    {
      this.symbol, this.toplevel, this.parent, this.next := symbol, toplevel, parent, next;
      children, total, self := [], 0, 0;
      path, this.index, chain := Frame(PathOf(parent), symbol), index, Chain(next);
    }
  }

  /** A row of the profile: one function, or one caller of a function. */
  class ProfileFunc {
    const node: ProfileNode?
    var total: nat
    var self: nat

    constructor (node: ProfileNode?)
      ensures this.node == node && total == self == 0
    {
      this.node, total, self := node, 0, 0;
    }
  }

  ghost function PathOf(n: ProfileNode?): Path<Symbol> {
    if n == null then Root else n.path
  }

  /** The list of nodes with one symbol that starts at n. */
  ghost function Chain(n: ProfileNode?): set<ProfileNode> {
    if n == null then {} else {n} + n.chain
  }

  ghost predicate Linked(n: ProfileNode)
    decreases n.path
  {
    && n.path == Frame(PathOf(n.parent), n.symbol)
    && (n.parent != null ==> Linked(n.parent))
  }

  // ----- The shape of the tree

  ghost predicate Named(nodes: set<ProfileNode>, at: map<Path<Symbol>, ProfileNode>) {
    && (forall p :: p in at ==> at[p] in nodes && at[p].path == p)
    && (forall n :: n in nodes ==> n.path in at && at[n.path] == n && n.path.Frame?)
  }

  ghost predicate Tree(nodes: set<ProfileNode>, at: map<Path<Symbol>, ProfileNode>) {
    && Named(nodes, at)
    && (forall n {:trigger Linked(n)} :: n in nodes ==> Linked(n))
    && (forall n {:trigger n.parent} :: n in nodes ==>
         && n.path == Frame(PathOf(n.parent), n.symbol)
         && (n.parent != null ==> n.parent in nodes))
  }

  /** A node is in the array of its parent, at its index. */
  ghost predicate KidAt(kids: map<ProfileNode?, seq<ProfileNode>>, n: ProfileNode) {
    n.parent in kids && n.index < |kids[n.parent]| && kids[n.parent][n.index] == n
  }

  /** The array of k holds nodes with parent k, each at its index. */
  ghost predicate KidsOf(nodes: set<ProfileNode>, kids: map<ProfileNode?, seq<ProfileNode>>, k: ProfileNode?) {
    k in kids && forall i :: 0 <= i < |kids[k]| ==>
              kids[k][i] in nodes && kids[k][i].parent == k && kids[k][i].index == i
  }

  ghost predicate Arrays(nodes: set<ProfileNode>, kids: map<ProfileNode?, seq<ProfileNode>>) {
    && kids.Keys == nodes + {null}
    && (forall n {:trigger KidAt(kids, n)} :: n in nodes ==> KidAt(kids, n))
    && KidsOf(nodes, kids, null)
    && (forall k {:trigger KidsOf(nodes, kids, k)} :: k in nodes ==> KidsOf(nodes, kids, k))
  }

  /** A node is in the chain of its symbol, and its chain holds nodes with that symbol. */
  ghost predicate IndexAt(nodes: set<ProfileNode>, index: map<Symbol, ProfileNode>, n: ProfileNode) {
    && n.symbol in index && n in Chain(index[n.symbol])
    && n.chain == Chain(n.next)
    && (forall m :: m in n.chain ==> m in nodes && m != n && m.symbol == n.symbol)
    && n.toplevel == Toplevel(n.path)
  }

  ghost predicate Index(nodes: set<ProfileNode>, index: map<Symbol, ProfileNode>) {
    && (forall s :: s in index ==> index[s] in nodes && index[s].symbol == s)
    && (forall n {:trigger IndexAt(nodes, index, n)} :: n in nodes ==> IndexAt(nodes, index, n))
  }

  lemma TreeGrows(nodes: set<ProfileNode>, at: map<Path<Symbol>, ProfileNode>, n: ProfileNode)
    requires Tree(nodes, at)
    requires n !in nodes && n.path !in at && n.path == Frame(PathOf(n.parent), n.symbol)
    requires n.parent != null ==> n.parent in nodes
    ensures Tree(nodes + {n}, at[n.path := n])
  {
    if n.parent != null {
      assert Linked(n.parent);
    }
  }

  lemma ArraysGrow(nodes: set<ProfileNode>, kids: map<ProfileNode?, seq<ProfileNode>>, n: ProfileNode)
    requires Arrays(nodes, kids)
    requires n !in nodes && n.parent in kids && n.index == |kids[n.parent]|
    ensures Arrays(nodes + {n}, kids[n.parent := kids[n.parent] + [n]][n := []])
  {
    var grown := kids[n.parent := kids[n.parent] + [n]][n := []];
    forall m | m in nodes + {n} ensures KidAt(grown, m) {
      assert m in nodes ==> KidAt(kids, m);
    }
    assert KidsOf(nodes, kids, null);
    assert KidsOf(nodes + {n}, grown, null);
    forall k | k in nodes + {n} ensures KidsOf(nodes + {n}, grown, k) {
      assert k in nodes ==> KidsOf(nodes, kids, k);
    }
  }

  lemma IndexGrows(nodes: set<ProfileNode>, index: map<Symbol, ProfileNode>, n: ProfileNode)
    requires Index(nodes, index)
    requires n !in nodes && n.toplevel == Toplevel(n.path)
    requires n.next == (if n.symbol in index then index[n.symbol] else null) && n.chain == Chain(n.next)
    ensures Index(nodes + {n}, index[n.symbol := n])
  {
    var grown := index[n.symbol := n];
    forall m | m in nodes + {n} ensures IndexAt(nodes + {n}, grown, m) {
      assert m in nodes ==> IndexAt(nodes, index, m);
      assert n.next != null ==> IndexAt(nodes, index, n.next);
    }
  }

  // ----- Stacks

  /** The path of a list of frames that continues p; the list has the outermost frame first. */
  ghost function Continue(p: Path<Symbol>, stack: List<Stash.StackNode>, symbols: Symbols): Path<Symbol>
    decreases stack
  {
    if stack.Nil? then p
    else Continue(Frame(p, symbols.Locate(stack.head.address)), stack.tail, symbols)
  }

  /** A trace of addresses as a trace of functions, without those whose name is skipped. */
  ghost function Filtered(p: Path<Stash.Addr>, symbols: Symbols, skip: set<string>): Path<Symbol> {
    if p.Root? then Root
    else
      var s := symbols.Locate(p.last);
      if s.name in skip then Filtered(p.up, symbols, skip) else Frame(Filtered(p.up, symbols, skip), s)
  }

  /** What is kept of a stack is what is kept of its outer part, and inside it what is kept of
      the rest: a skipped frame cuts nothing off. */
  lemma {:induction false} FilteredJoins(p: Path<Stash.Addr>, q: Path<Stash.Addr>, symbols: Symbols, skip: set<string>)
    ensures Filtered(Join(p, q), symbols, skip) == Join(Filtered(p, symbols, skip), Filtered(q, symbols, skip))
  {
    if q.Frame? {
      FilteredJoins(p, q.up, symbols, skip);
    }
  }

  /** One frame is kept, as the symbol of its address, unless the name of that is skipped. */
  lemma FilteredFrame(a: Stash.Addr, symbols: Symbols, skip: set<string>)
    ensures var s := if a in symbols.table then symbols.table[a] else symbols.unknown;
            Filtered(Frame(Root, a), symbols, skip) == if s.name in skip then Root else Frame(Root, s)
  {
  }

  lemma {:induction false} ContinueStarts(p: Path<Symbol>, stack: List<Stash.StackNode>, symbols: Symbols)
    ensures Starts(p, Continue(p, stack, symbols))
    decreases stack
  {
    if stack.Cons? {
      var q := Frame(p, symbols.Locate(stack.head.address));
      ContinueStarts(q, stack.tail, symbols);
      StartsIsTransitive(p, q, Continue(q, stack.tail, symbols));
    }
  }

  /** n is met when climbing from stack. */
  ghost predicate Climbed(stack: Stash.Stack, n: Stash.StackNode)
    decreases Stash.PathOf(stack)
  {
    stack != null && (stack == n || Climbed(stack.parent, n))
  }

  /** The list goes from the outside in. */
  ghost predicate Inward(list: List<Stash.StackNode>) {
    list.Cons? ==>
      && (forall n :: n in Elements(list.tail) ==> Length(list.head.path) < Length(n.path))
      && Inward(list.tail)
  }

  /** block_create_stack_list: from the outermost frame in, exactly the frames of a block that
      are not skipped. */
  method CreateStackList(stack: Stash.Stack, symbols: Symbols, skip: set<string>) returns (list: List<Stash.StackNode>)
    ensures Continue(Root, list, symbols) == Filtered(Stash.PathOf(stack), symbols, skip)
    ensures forall n :: n in Elements(list) <==> Climbed(stack, n) && symbols.Locate(n.address).name !in skip
    ensures Inward(list)
  {
    list := Nil;
    var element: Stash.StackNode? := stack;
    while element != null
      invariant element != null ==> Stash.Linked(element)
      invariant Continue(Filtered(Stash.PathOf(element), symbols, skip), list, symbols) ==
                Filtered(Stash.PathOf(stack), symbols, skip)
      invariant forall n ::
                  n in Elements(list) || (Climbed(element, n) && symbols.Locate(n.address).name !in skip) <==>
                  Climbed(stack, n) && symbols.Locate(n.address).name !in skip
      invariant Inward(list) && forall n :: n in Elements(list) ==> Length(Stash.PathOf(element)) < Length(n.path)
      decreases Stash.PathOf(element)
    {
      var symbol := symbols.Locate(element.address);
      if symbol.name !in skip {
        list := Cons(element, list);
      }
      element := element.parent;
    }
  }

  class Profile {
    const symbols: Symbols
    var roots: seq<ProfileNode>
    var functions: seq<ProfileFunc>
    var n_bytes: nat
    var nodes_by_symbol: map<Symbol, ProfileNode>

    ghost var nodes: set<ProfileNode>
    ghost var at: map<Path<Symbol>, ProfileNode>
    ghost var kids: map<ProfileNode?, seq<ProfileNode>>
    /** The filtered stack and the size of every block added so far. */
    ghost var log: Log<Symbol>

    constructor (symbols: Symbols)
      ensures this.symbols == symbols && Valid() && log == Empty && nodes == {}
      ensures functions == [] && n_bytes == 0
    {
      this.symbols, roots, nodes_by_symbol := symbols, [], map[];
      functions, n_bytes := [], 0;
      nodes, at, kids, log := {}, map[], map[null := []], Empty;
    }

    function Children(parent: ProfileNode?): seq<ProfileNode>
      reads this, parent
    {
      if parent == null then roots else parent.children
    }

    ghost predicate Kids()
      reads this`roots, this`kids, this`nodes, nodes`children
    {
      && kids.Keys == nodes + {null} && roots == kids[null]
      && (forall n {:trigger n.children} :: n in nodes ==> n.children == kids[n])
    }

    ghost predicate Shape()
      reads this`roots, this`kids, this`nodes, this`at, this`nodes_by_symbol, nodes`children
    {
      Tree(nodes, at) && Arrays(nodes, kids) && Index(nodes, nodes_by_symbol) && Kids()
    }

    /** The counters while the first part of a stack, done, has already been counted. */
    ghost predicate Counted(done: Path<Symbol>, size: nat)
      reads this`nodes, this`log, nodes`total, nodes`self
    {
      forall n :: n in nodes ==>
        && n.total == Share(log, n.path, done, size)
        && n.self == Weight(log, Is(n.path))
    }

    ghost predicate Reaches(path: Path<Symbol>)
      reads this`at
    {
      forall p :: Starts(p, path) && p.Frame? ==> p in at
    }

    /** Every beginning of every stack has a node. */
    ghost predicate Covers()
      reads this`at, this`log
    {
      forall t :: t in Traces(log) ==> Reaches(t)
    }

    ghost predicate Valid()
      reads this, nodes
    {
      Shape() && Counted(Root, 0) && Covers()
    }

    /** The loop at src/profile.c:62-68. */
    method FindMatch(list: seq<ProfileNode>, symbol: Symbol, ghost parent: ProfileNode?) returns (found: ProfileNode?)
      requires Shape() && list == Children(parent)
      requires parent != null ==> parent in nodes
      ensures found == null ==> Frame(PathOf(parent), symbol) !in at
      ensures found != null ==> Frame(PathOf(parent), symbol) in at && found == at[Frame(PathOf(parent), symbol)]
    {
      ghost var path := Frame(PathOf(parent), symbol);
      assert list == kids[parent];
      assert KidsOf(nodes, kids, parent);
      if path in at {
        assert at[path].path == Frame(PathOf(at[path].parent), at[path].symbol);
        assert at[path].parent == parent && at[path].symbol == symbol;
        assert KidAt(kids, at[path]);
      }
      found := null;
      for i := 0 to |list|
        invariant found != null ==> found in nodes && found.path == path
        invariant found == null ==> forall k :: 0 <= k < i ==> list[k].symbol != symbol
      {
        if list[i].symbol == symbol {
          found := list[i];
          assert found.path == Frame(PathOf(found.parent), found.symbol);
        }
      }
    }

    /** Puts a new node at the end of its parent's array and at the front of its chain. */
    method Link(parent: ProfileNode?, node: ProfileNode)
      requires Kids() && node !in nodes && node.children == []
      requires parent != null ==> parent in nodes
      modifies this`roots, this`nodes_by_symbol, this`nodes, this`at, this`kids, nodes`children
      ensures Kids()
      ensures nodes_by_symbol == old(nodes_by_symbol)[node.symbol := node]
      ensures nodes == old(nodes) + {node} && at == old(at)[node.path := node]
      ensures kids == old(kids)[parent := old(kids)[parent] + [node]][node := []]
    {
      if parent == null {
        roots := roots + [node];
      } else {
        parent.children := parent.children + [node];
      }
      nodes_by_symbol := nodes_by_symbol[node.symbol := node];
      nodes, at := nodes + {node}, at[node.path := node];
      kids := kids[parent := kids[parent] + [node]][node := []];
    }

    /** src/profile.c:70-96; seen are the functions further out on the stack. */
    method Insert(parent: ProfileNode?, symbol: Symbol, seen: set<Symbol>) returns (node: ProfileNode)
      requires Shape()
      requires parent != null ==> parent in nodes
      requires forall s :: s in seen <==> Has(PathOf(parent), s)
      requires Frame(PathOf(parent), symbol) !in at
      modifies this`roots, this`nodes_by_symbol, this`nodes, this`at, this`kids, nodes`children
      ensures Shape()
      ensures fresh(node) && nodes == old(nodes) + {node}
      ensures node.path == Frame(PathOf(parent), symbol) && at == old(at)[node.path := node]
      ensures node.total == node.self == 0
    {
      var toplevel := symbol !in seen;
      var next := if symbol in nodes_by_symbol then nodes_by_symbol[symbol] else null;
      node := new ProfileNode(symbol, toplevel, parent, next, |kids[parent]|);
      TreeGrows(nodes, at, node);
      ArraysGrow(nodes, kids, node);
      IndexGrows(nodes, nodes_by_symbol, node);
      Link(parent, node);
    }

    lemma AbsentWeighsNothing(p: Path<Symbol>, size: int)
      requires Covers() && p.Frame? && p !in at
      ensures Weight(log, Begins(p)) == 0 && Weight(log, Is(p)) == 0
      ensures Share(log, p, p.up, size) == 0
    {
      WeightNone(log, Begins(p));
      WeightNone(log, Is(p));
      if Starts(p, p.up) {
        StartsLength(p, p.up);
      }
    }

    /** src/profile.c:62-96: the child of parent for the symbol, made if missing. */
    method FindOrInsert(parent: ProfileNode?, symbol: Symbol, seen: set<Symbol>,
            ghost size: nat) returns (node: ProfileNode)
      requires Shape() && Counted(PathOf(parent), size) && Covers()
      requires parent != null ==> parent in nodes
      requires forall s :: s in seen <==> Has(PathOf(parent), s)
      modifies this`roots, this`nodes_by_symbol, this`nodes, this`at, this`kids, nodes`children
      ensures Shape() && Counted(PathOf(parent), size) && Covers()
      ensures node in nodes && node.path == Frame(PathOf(parent), symbol)
      ensures old(nodes) <= nodes && fresh(nodes - old(nodes))
    {
      var found := FindMatch(Children(parent), symbol, parent);
      if found == null {
        AbsentWeighsNothing(Frame(PathOf(parent), symbol), size);
        node := Insert(parent, symbol, seen);
      } else {
        node := found;
      }
    }

    /** src/profile.c:100: the next node along the stack takes its share. */
    method Bump(node: ProfileNode, size: nat)
      requires node in nodes && node.path.Frame? && Counted(node.path.up, size)
      requires Named(nodes, at)
      modifies node`total
      ensures Counted(node.path, size)
    {
      ShareStep(log, node.path, size);
      node.total := node.total + size;
    }

    /** src/profile.c:101-102: the innermost node also gets the size of its own. */
    method Finish(node: ProfileNode, size: nat)
      requires Named(nodes, at) && Counted(node.path, size) && Covers()
      requires node in nodes && Reaches(node.path)
      modifies this`log, node`self
      ensures log == Add(old(log), node.path, size)
      ensures Counted(Root, 0) && Covers()
    {
      node.self := node.self + size;
      log := Add(log, node.path, size);
    }

    /** One round of the loop at src/profile.c:54-106. */
    method Descend(parent: ProfileNode?, symbol: Symbol, seen: set<Symbol>, size: nat) returns (node: ProfileNode)
      requires Shape() && Counted(PathOf(parent), size) && Covers()
      requires (parent != null ==> parent in nodes) && Reaches(PathOf(parent))
      requires forall s :: s in seen <==> Has(PathOf(parent), s)
      modifies this`roots, this`nodes_by_symbol, this`nodes, this`at, this`kids, nodes`children, nodes`total
      ensures Shape() && Counted(node.path, size) && Covers()
      ensures node in nodes && node.path == Frame(PathOf(parent), symbol) && Reaches(node.path)
      ensures old(nodes) <= nodes && fresh(nodes - old(nodes))
    {
      hide Arrays, Index, Kids, Covers;
      node := FindOrInsert(parent, symbol, seen, size);
      Bump(node, size);
    }

    lemma BeforeTrace(size: nat)
      requires Valid()
      ensures Shape() && Counted(Root, size) && Covers()
      ensures PathOf(null) == Root && Reaches(Root)
    {
    }

    /** profile_add_stack_trace: a stack of which every frame was skipped changes nothing. */
    method AddStackTrace(stack: List<Stash.StackNode>, size: nat)
      requires Valid()
      modifies this`roots, this`nodes_by_symbol, this`nodes, this`at, this`kids, this`log, nodes
      ensures Valid() && old(nodes) <= nodes && fresh(nodes - old(nodes))
      ensures log == Add(old(log), Continue(Root, stack, symbols), size)
    {
      hide Valid, Shape, Counted, Covers, Reaches;
      BeforeTrace(size);
      var parent: ProfileNode? := null;
      var seen: set<Symbol> := {};
      var list := stack;
      while list.Cons?
        invariant parent != null ==> parent in nodes
        invariant Shape() && Counted(PathOf(parent), size) && Covers() && Reaches(PathOf(parent))
        invariant forall s :: s in seen <==> Has(PathOf(parent), s)
        invariant Continue(PathOf(parent), list, symbols) == Continue(Root, stack, symbols)
        invariant log == old(log)
        invariant old(nodes) <= nodes && fresh(nodes - old(nodes))
        decreases list
      {
        var symbol := symbols.Locate(list.head.address);
        parent := Descend(parent, symbol, seen, size);
        seen := seen + {symbol};
        list := list.tail;
      }
      FinishTrace(parent, size);
    }

    method FinishTrace(parent: ProfileNode?, size: nat)
      requires Shape() && Counted(PathOf(parent), size) && Covers() && Reaches(PathOf(parent))
      requires parent != null ==> parent in nodes
      modifies this`log, nodes`self
      ensures Valid() && log == Add(old(log), PathOf(parent), size)
    {
      if parent != null {
        Finish(parent, size);
      } else {
        log := Add(log, Root, size);
      }
    }
  }
}
