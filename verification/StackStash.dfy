/** src/stackstash.c: a trie of stack traces, shared by all blocks of a process. */
module StackStash {
  import opened Ledger

  /** A pointer of the traced program; 0 is NULL. */
  type Addr = int

  /** The bit fields of a stash node wrap: total has 32 bits, size has 31. */
  function Wrap32(x: int): nat { x % 0x1_0000_0000 }

  function Wrap31(x: int): nat { x % 0x8000_0000 }

  /** A wrapped number is the one in range that differs by a multiple of 2^32 or 2^31. */
  lemma WrapRange(x: int, k: int)
    ensures 0 <= x - k * 0x1_0000_0000 < 0x1_0000_0000 <==> Wrap32(x) == x - k * 0x1_0000_0000
    ensures 0 <= x - k * 0x8000_0000 < 0x8000_0000 <==> Wrap31(x) == x - k * 0x8000_0000
  {
    WrapShift(x, k, k);
  }

  /** Wrapping at every step is the same as wrapping once at the end. */
  lemma WrapOnce(x: int, y: int)
    ensures Wrap32(Wrap32(x) + y) == Wrap32(x + y)
    ensures Wrap31(Wrap31(x) + y) == Wrap31(x + y)
  {
    WrapShift(x + y, x / 0x1_0000_0000, x / 0x8000_0000);
  }

  lemma WrapShift(x: int, p: int, q: int)
    ensures Wrap32(x - p * 0x1_0000_0000) == Wrap32(x)
    ensures Wrap31(x - q * 0x8000_0000) == Wrap31(x)
  {
  }

  /** One frame of a trie.  The links that the source never reassigns after decorating a
      node are constants; children, total and size change. */
  class StackNode {
    const address: Addr
    const toplevel: bool
    const parent: StackNode?
    const siblings: StackNode?
    const next: StackNode?
    var children: StackNode?
    var total: nat
    var size: nat
    /** What total and size would be if they had room for it. */
    ghost var inclusive: int
    ghost var exclusive: int

    /** The addresses from the outermost frame down to this one. */
    ghost const path: Path<Addr>
    /** The number of the stash that the node is freed with. */
    ghost const home: nat
    /** The nodes that follow this one in its sibling list and in its address chain. */
    ghost const level: set<StackNode>
    ghost const chain: set<StackNode>

    constructor (address: Addr, toplevel: bool, parent: StackNode?, siblings: StackNode?, next: StackNode?,
                 ghost home: nat)
      ensures this.address == address && this.toplevel == toplevel
      ensures this.parent == parent && this.siblings == siblings && this.next == next && this.home == home
      ensures children == null && total == size == inclusive == exclusive == 0
      ensures path == Frame(PathOf(parent), address)
      ensures level == Level(siblings) && chain == Chain(next)
    {
      this.address, this.toplevel := address, toplevel;
      this.parent, this.siblings, this.next := parent, siblings, next;
      children, total, size := null, 0, 0;
      inclusive, exclusive := 0, 0;
      path := Frame(PathOf(parent), address);
      level, chain, this.home := Level(siblings), Chain(next), home;
    }
  }

  ghost function PathOf(n: StackNode?): Path<Addr> {
    if n == null then Root else n.path
  }

  /** The sibling list that starts at n. */
  ghost function Level(n: StackNode?): set<StackNode> {
    if n == null then {} else {n} + n.level
  }

  /** The list of nodes with one address that starts at n. */
  ghost function Chain(n: StackNode?): set<StackNode> {
    if n == null then {} else {n} + n.chain
  }

  /** The parent links from n spell out n.path.  All links here are constants, so this
      stays true of a node for ever. */
  ghost predicate Linked(n: StackNode)
    decreases n.path
  {
    && n.path == Frame(PathOf(n.parent), n.address)
    && (n.parent != null ==> Linked(n.parent))
  }

  /** The stack of a block: a node whose parent links can be followed, or none. */
  type Stack = n: StackNode? | n == null || Linked(n) witness null

  /** The addresses met when climbing from n along the parent links. */
  ghost function Climb(n: StackNode?): seq<Addr>
    requires n != null ==> Linked(n)
    decreases PathOf(n)
  {
    if n == null then [] else [n.address] + Climb(n.parent)
  }

  // ----- The shape of a trie.  The triggers keep the solver from following links it was
  // not asked about.

  /** at finds the node of each path. */
  ghost predicate Named(nodes: set<StackNode>, at: map<Path<Addr>, StackNode>) {
    && (forall p :: p in at ==> at[p] in nodes && at[p].path == p)
    && (forall n :: n in nodes ==> n.path in at && at[n.path] == n && n.path.Frame?)
  }

  /** Paths grow along the child links. */
  ghost predicate Tree(nodes: set<StackNode>, at: map<Path<Addr>, StackNode>) {
    && Named(nodes, at)
    && (forall n {:trigger Linked(n)} :: n in nodes ==> Linked(n))
    && (forall n {:trigger n.parent} :: n in nodes ==>
         && n.path == Frame(PathOf(n.parent), n.address)
         && (n.parent != null ==> n.parent in nodes))
  }

  /** A node is in the sibling list of its parent, and its list holds that parent's nodes. */
  ghost predicate LevelAt(nodes: set<StackNode>, heads: map<StackNode?, StackNode?>, n: StackNode) {
    && n.parent in heads && n in Level(heads[n.parent])
    && n.level == Level(n.siblings)
    && (forall m :: m in n.level ==> m in nodes && m != n && m.parent == n.parent)
  }

  ghost predicate Levels(nodes: set<StackNode>, heads: map<StackNode?, StackNode?>) {
    && heads.Keys == nodes + {null}
    && (forall n {:trigger heads[n]} :: n in heads && heads[n] != null ==> heads[n] in nodes && heads[n].parent == n)
    && (forall n {:trigger LevelAt(nodes, heads, n)} :: n in nodes ==> LevelAt(nodes, heads, n))
  }

  /** A node is in the chain of its address, and its chain holds nodes with that address. */
  ghost predicate IndexAt(nodes: set<StackNode>, index: map<Addr, StackNode>, n: StackNode) {
    && n.address in index && n in Chain(index[n.address])
    && n.chain == Chain(n.next)
    && (forall m :: m in n.chain ==> m in nodes && m != n && m.address == n.address)
    && n.toplevel == Toplevel(n.path)
  }

  /** The chain of an address lists each node with that address once, and no other. */
  ghost predicate Index(nodes: set<StackNode>, index: map<Addr, StackNode>) {
    && (forall a :: a in index ==> index[a] in nodes && index[a].address == a)
    && (forall n {:trigger IndexAt(nodes, index, n)} :: n in nodes ==> IndexAt(nodes, index, n))
  }

  lemma TreeGrows(nodes: set<StackNode>, at: map<Path<Addr>, StackNode>, n: StackNode)
    requires Tree(nodes, at)
    requires n !in nodes && n.path !in at && n.path == Frame(PathOf(n.parent), n.address)
    requires n.parent != null ==> n.parent in nodes
    ensures Tree(nodes + {n}, at[n.path := n])
  {
    if n.parent != null {
      assert Linked(n.parent);
    }
  }

  lemma LevelAtGrows(nodes: set<StackNode>, heads: map<StackNode?, StackNode?>, n: StackNode, m: StackNode)
    requires n !in nodes && n.parent in heads && heads.Keys == nodes + {null}
    requires n.siblings == heads[n.parent] && n.level == Level(n.siblings)
    requires n.siblings != null ==>
              n.siblings in nodes && n.siblings.parent == n.parent && LevelAt(nodes, heads, n.siblings)
    requires m == n || (m in nodes && LevelAt(nodes, heads, m))
    ensures LevelAt(nodes + {n}, heads[n.parent := n][n := null], m)
  {
  }

  lemma LevelsGrow(nodes: set<StackNode>, heads: map<StackNode?, StackNode?>, n: StackNode)
    requires Levels(nodes, heads)
    requires n !in nodes && n.parent in heads
    requires n.siblings == heads[n.parent] && n.level == Level(n.siblings)
    ensures Levels(nodes + {n}, heads[n.parent := n][n := null])
  {
    hide LevelAt;
    assert n.siblings != null ==> LevelAt(nodes, heads, n.siblings);
    forall m | m in nodes + {n} ensures LevelAt(nodes + {n}, heads[n.parent := n][n := null], m) {
      assert m in nodes ==> LevelAt(nodes, heads, m);
      LevelAtGrows(nodes, heads, n, m);
    }
  }

  lemma IndexGrows(nodes: set<StackNode>, index: map<Addr, StackNode>, n: StackNode)
    requires Index(nodes, index)
    requires n !in nodes && n.toplevel == Toplevel(n.path)
    requires n.next == (if n.address in index then index[n.address] else null) && n.chain == Chain(n.next)
    ensures Index(nodes + {n}, index[n.address := n])
  {
    var grown := index[n.address := n];
    forall m | m in nodes + {n} ensures IndexAt(nodes + {n}, grown, m) {
      assert m in nodes ==> IndexAt(nodes, index, m);
      assert n.next != null ==> IndexAt(nodes, index, n.next);
    }
  }

  ghost predicate Extends(before: map<Path<Addr>, StackNode>, after: map<Path<Addr>, StackNode>) {
    forall p :: p in before ==> p in after && after[p] == before[p]
  }

  /** Nodes keep their paths, so whatever had a node before still has the same one. */
  lemma NamesLast(nodes: set<StackNode>, at: map<Path<Addr>, StackNode>, nodes': set<StackNode>,
          at': map<Path<Addr>, StackNode>)
    requires Named(nodes, at) && Named(nodes', at') && nodes <= nodes'
    ensures Extends(at, at')
  {
  }

  class StackStash {
    /** Stashes are told apart by their numbers. */
    ghost const id: nat
    var ref_count: nat
    var root: StackNode?
    var nodes_by_data: map<Addr, StackNode>

    ghost var nodes: set<StackNode>
    /** The node of every path in the trie. */
    ghost var at: map<Path<Addr>, StackNode>
    /** The first child of every node, and of null the first outermost node. */
    ghost var heads: map<StackNode?, StackNode?>
    /** Every nonempty trace added so far. */
    ghost var log: Log<Addr>

    /** create_stack_stash */
    constructor (ghost id: nat)
      ensures Valid() && log == Empty && nodes == {} && this.id == id && ref_count == 1
    {
      this.id, ref_count := id, 1;
      root, nodes_by_data := null, map[];
      nodes, at, heads, log := {}, map[], map[null := null], Empty;
    }

    function Head(parent: StackNode?): StackNode?
      reads this, parent
    {
      if parent == null then root else parent.children
    }

    ghost predicate Heads()
      reads this`root, this`heads, this`nodes, nodes`children
    {
      && heads.Keys == nodes + {null} && root == heads[null]
      && (forall n {:trigger n.children} :: n in nodes ==> n.children == heads[n])
    }

    ghost predicate Homes()
      reads this`nodes
    {
      forall n {:trigger n.home} :: n in nodes ==> n.home == id
    }

    ghost predicate Shape()
      reads this`root, this`heads, this`nodes, this`at, this`nodes_by_data, nodes`children
    {
      Tree(nodes, at) && Levels(nodes, heads) && Index(nodes, nodes_by_data) && Heads() && Homes()
    }

    /** The counters while the first part of a trace, done, has already been counted. */
    ghost predicate Counted(done: Path<Addr>, size: int)
      reads this`nodes, this`log, nodes`inclusive, nodes`exclusive
    {
      forall n :: n in nodes ==>
        && n.inclusive == Share(log, n.path, done, size)
        && n.exclusive == Weight(log, Is(n.path))
    }

    /** The bit fields hold the counters as far as they fit. */
    ghost predicate Wrapped()
      reads this`nodes, nodes
    {
      forall n {:trigger n.total} {:trigger n.size} :: n in nodes ==>
        n.total == Wrap32(n.inclusive) && n.size == Wrap31(n.exclusive)
    }

    /** Every beginning of every trace has a node. */
    ghost predicate Covers()
      reads this`at, this`log
    {
      forall t :: t in Traces(log) ==> Reaches(t)
    }

    /** Every beginning of path has a node. */
    ghost predicate Reaches(path: Path<Addr>)
      reads this`at
    {
      forall p :: Starts(p, path) && p.Frame? ==> p in at
    }

    ghost predicate Valid()
      reads this, nodes
    {
      ref_count > 0 && Shape() && Counted(Root, 0) && Covers() && Wrapped()
    }

    /** stack_stash_unref: with the last reference the stash is freed, and all its nodes. */
    method Unref()
      requires Valid()
      modifies this`ref_count
      ensures ref_count == old(ref_count) - 1
      ensures Valid() <==> old(ref_count) > 1
    {
      ref_count := ref_count - 1;
    }

    /** The loop at src/stackstash.c:170-177. */
    method FindInLevel(head: StackNode?, address: Addr, ghost parent: StackNode?) returns (found: StackNode?)
      requires Shape()
      requires parent != null ==> parent in nodes
      requires head == Head(parent)
      ensures found == null ==> Frame(PathOf(parent), address) !in at
      ensures found != null ==> Frame(PathOf(parent), address) in at && found == at[Frame(PathOf(parent), address)]
    {
      ghost var path := Frame(PathOf(parent), address);
      if path in at {
        assert at[path].parent == parent;
        assert LevelAt(nodes, heads, at[path]);
      }
      var n := head;
      while n != null
        invariant n != null ==> n in nodes && n.parent == parent
        invariant path in at ==> at[path] in Level(n)
        decreases Level(n)
      {
        if n.address == address {
          return n;
        }
        assert LevelAt(nodes, heads, n);
        n := n.siblings;
      }
      found := null;
    }

    /** The first loop of decorate_node, src/stackstash.c:129-144: no ancestor has the address. */
    method IsToplevel(parent: StackNode?, address: Addr) returns (toplevel: bool)
      requires Shape()
      requires parent != null ==> parent in nodes
      ensures toplevel == Toplevel(Frame(PathOf(parent), address))
    {
      var n := parent;
      while n != null
        invariant n != null ==> n in nodes
        invariant Has(PathOf(parent), address) <==> Has(PathOf(n), address)
        decreases PathOf(n)
      {
        assert n.path == Frame(PathOf(n.parent), n.address);
        if n.address == address {
          return false;
        }
        n := n.parent;
      }
      return true;
    }

    /** Puts a new node at the front of its parent's sibling list and address chain. */
    method Link(parent: StackNode?, node: StackNode)
      requires Heads() && node !in nodes && node.children == null
      requires parent != null ==> parent in nodes
      modifies this`root, this`nodes_by_data, this`nodes, this`at, this`heads, nodes`children
      ensures Heads()
      ensures nodes_by_data == old(nodes_by_data)[node.address := node]
      ensures nodes == old(nodes) + {node} && at == old(at)[node.path := node]
      ensures heads == old(heads)[parent := node][node := null]
    {
      if parent == null {
        root := node;
      } else {
        parent.children := node;
      }
      nodes_by_data := nodes_by_data[node.address := node];
      nodes, at := nodes + {node}, at[node.path := node];
      heads := heads[parent := node][node := null];
    }

    /** src/stackstash.c:179-188 with decorate_node. */
    method Insert(parent: StackNode?, address: Addr) returns (node: StackNode)
      requires Shape()
      requires parent != null ==> parent in nodes
      requires Frame(PathOf(parent), address) !in at
      modifies this`root, this`nodes_by_data, this`nodes, this`at, this`heads, nodes`children
      ensures Shape()
      ensures fresh(node) && nodes == old(nodes) + {node} && node.home == id
      ensures node.path == Frame(PathOf(parent), address)
      ensures at == old(at)[node.path := node]
      ensures node.total == node.size == node.inclusive == node.exclusive == 0
    {
      var toplevel := IsToplevel(parent, address);
      var next := if address in nodes_by_data then nodes_by_data[address] else null;
      node := new StackNode(address, toplevel, parent, Head(parent), next, id);
      TreeGrows(nodes, at, node);
      LevelsGrow(nodes, heads, node);
      IndexGrows(nodes, nodes_by_data, node);
      Link(parent, node);
    }

    /** src/stackstash.c:190: the next node along the trace takes its share. */
    method Bump(node: StackNode, size: int)
      requires node in nodes && node.path.Frame? && Counted(node.path.up, size) && Wrapped()
      requires Named(nodes, at)
      modifies node`total, node`inclusive
      ensures Counted(node.path, size) && Wrapped()
    {
      hide Wrap32, Wrap31;
      ShareStep(log, node.path, size);
      WrapOnce(node.inclusive, size);
      node.inclusive := node.inclusive + size;
      node.total := Wrap32(node.total + size);
    }

    /** A path that is not in the trie has not been counted. */
    lemma AbsentWeighsNothing(p: Path<Addr>, size: int)
      requires Covers() && p.Frame? && p !in at
      ensures Weight(log, Begins(p)) == 0 && Weight(log, Is(p)) == 0
      ensures Share(log, p, p.up, size) == 0
    {
      WeightNone(log, Begins(p));
      WeightNone(log, Is(p));
      if Starts(p, p.up) {
        StartsLength(p, p.up);
      }
    }

    /** src/stackstash.c:170-188: the child of parent for the address, made if missing. */
    method FindOrInsert(parent: StackNode?, address: Addr, ghost size: int) returns (node: StackNode)
      requires Shape() && Counted(PathOf(parent), size) && Covers() && Wrapped()
      requires parent != null ==> parent in nodes
      modifies this`root, this`nodes_by_data, this`nodes, this`at, this`heads, nodes`children
      ensures Shape() && Counted(PathOf(parent), size) && Covers() && Wrapped()
      ensures node in nodes && node.path == Frame(PathOf(parent), address)
      ensures log == old(log) && old(nodes) <= nodes && fresh(nodes - old(nodes))
    {
      var found := FindInLevel(Head(parent), address, parent);
      if found == null {
        AbsentWeighsNothing(Frame(PathOf(parent), address), size);
        node := Insert(parent, address);
      } else {
        node := found;
      }
    }

    /** src/stackstash.c:196: the innermost node also gets the size of its own. */
    method Finish(node: StackNode, size: int)
      requires Named(nodes, at) && Counted(node.path, size) && Covers() && Wrapped()
      requires node in nodes
      requires Reaches(node.path)
      modifies this`log, node`size, node`exclusive
      ensures log == Add(old(log), node.path, size)
      ensures Counted(Root, 0) && Covers() && Wrapped()
    {
      hide Wrap32, Wrap31;
      WrapOnce(node.exclusive, size);
      node.exclusive := node.exclusive + size;
      node.size := Wrap31(node.size + size);
      log := Add(log, node.path, size);
    }

    /** One round of the loop at src/stackstash.c:165-194. */
    method Descend(parent: StackNode?, address: Addr, size: int) returns (node: StackNode)
      requires Shape() && Counted(PathOf(parent), size) && Covers() && Wrapped()
      requires (parent != null ==> parent in nodes) && Reaches(PathOf(parent))
      modifies this`root, this`nodes_by_data, this`nodes, this`at, this`heads, nodes`children,
               nodes`total, nodes`inclusive
      ensures Shape() && Counted(node.path, size) && Covers() && Wrapped()
      ensures node in nodes && node.path == Frame(PathOf(parent), address) && Reaches(node.path)
      ensures log == old(log) && old(nodes) <= nodes && fresh(nodes - old(nodes))
    {
      hide Levels, Index, Heads, Covers, Wrapped;
      node := FindOrInsert(parent, address, size);
      Bump(node, size);
    }

    /** Before its first frame, nothing of a trace has been counted. */
    lemma BeforeTrace(size: int)
      requires Valid()
      ensures Shape() && Counted(Root, size) && Covers() && Wrapped()
      ensures PathOf(null) == Root && Reaches(Root)
    {
    }

    /** The loop at src/stackstash.c:165-194, from the outermost address to the innermost. */
    method Walk(addrs: seq<Addr>, size: int) returns (node: StackNode)
      requires Valid() && addrs != []
      modifies this`root, this`nodes_by_data, this`nodes, this`at, this`heads, nodes`children,
               nodes`total, nodes`inclusive
      ensures Shape() && Counted(node.path, size) && Covers() && Wrapped()
      ensures node in nodes && node.path == FromList(addrs, 0) && Reaches(node.path)
      ensures log == old(log) && old(nodes) <= nodes && fresh(nodes - old(nodes))
    {
      hide Valid, Shape, Counted, Covers, Wrapped, Reaches;
      BeforeTrace(size);
      node := Descend(null, addrs[|addrs| - 1], size);
      var i := |addrs| - 1;
      while i > 0
        invariant 0 <= i < |addrs|
        invariant node in nodes && node.path == FromList(addrs, i) && Reaches(node.path)
        invariant old(nodes) <= nodes && fresh(nodes - old(nodes))
        invariant log == old(log)
        invariant Shape() && Counted(node.path, size) && Covers() && Wrapped()
      {
        i := i - 1;
        node := Descend(node, addrs[i], size);
      }
    }

    method AddTrace(addrs: seq<Addr>, size: int) returns (result: StackNode?)
      requires Valid()
      modifies this`root, this`nodes_by_data, this`nodes, this`at, this`heads, this`log, nodes
      ensures Valid() && old(nodes) <= nodes && fresh(nodes - old(nodes))
      ensures Extends(old(at), at)
      ensures addrs == [] ==> result == null && log == old(log)
      ensures addrs != [] ==> log == Add(old(log), FromList(addrs, 0), size)
      ensures addrs != [] ==> FromList(addrs, 0) in at && result == at[FromList(addrs, 0)]
    {
      if addrs == [] {
        return null;
      }
      var node := Walk(addrs, size);
      NamesLast(old(nodes), old(at), nodes, at);
      Finish(node, size);
      result := node;
    }

    /** stack_stash_find_node: from the node it returns, the links lead to every node with the
        address, and to no other. */
    method FindNode(address: Addr) returns (node: StackNode?)
      requires Valid()
      ensures Chain(node) == set n | n in nodes && n.address == address
    {
      forall n | n in nodes && n.address == address ensures address in nodes_by_data &&
          n in Chain(nodes_by_data[address]) {
        assert IndexAt(nodes, nodes_by_data, n);
      }
      node := null;
      if address in nodes_by_data {
        node := nodes_by_data[address];
        assert IndexAt(nodes, nodes_by_data, node);
      }
    }
  }
}
