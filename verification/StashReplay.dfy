/** stack_stash_foreach and what its callbacks are enough for: filling an empty stash. */
module StashReplay {
  import opened Ledger
  import opened StackStash
  import opened StashTheorems

  /** The calls made to the callback so far, the latest one outermost.  A trace has its
      innermost address first. */
  datatype Calls = NoCalls | Called(before: Calls, trace: seq<Addr>, size: nat)

  ghost function PathsCalled(calls: Calls): set<Path<Addr>> {
    match calls
    case NoCalls => {}
    case Called(before, trace, _) => PathsCalled(before) + {FromList(trace, 0)}
  }

  /** Every call is for another path of the stash, with the size that is stored there. */
  ghost predicate Faithful(calls: Calls, stash: StackStash)
    reads stash`at, stash.at.Values
  {
    match calls
    case NoCalls => true
    case Called(before, trace, size) =>
      var p := FromList(trace, 0);
      && Faithful(before, stash)
      && p !in PathsCalled(before) && p in stash.at && size == stash.at[p].size && size != 0
  }

  /** The paths with a size at or below the nodes of ns. */
  ghost function Sized(stash: StackStash, ns: set<StackNode>): set<Path<Addr>>
    reads stash`at, stash.at.Values
  {
    set p | p in stash.at && stash.at[p].size != 0 && Holds(Below(PathsOf(ns)), p)
  }

  lemma FromListCons(a: Addr, s: seq<Addr>, i: nat)
    requires i <= |s|
    ensures FromList([a] + s, i + 1) == FromList(s, i)
    decreases |s| - i
  {
    if i < |s| {
      FromListCons(a, s, i + 1);
      assert ([a] + s)[i + 1] == s[i];
    }
  }

  ghost predicate Shallow(stash: StackStash, height: nat)
    reads stash`at
  {
    forall p :: p in stash.at ==> Length(p) <= height
  }

  lemma {:induction false} HeightExists(ps: set<Path<Addr>>) returns (height: nat)
    ensures forall p :: p in ps ==> Length(p) <= height
  {
    if p :| p in ps {
      height := HeightExists(ps - {p});
      height := if Length(p) <= height then height else Length(p);
    } else {
      height := 0;
    }
  }

  /** What is at or below a node: itself, what is below its children; and beside it, what
      is at or below its later siblings. */
  lemma SizedStep(stash: StackStash, n: StackNode)
    requires stash.Shape() && n in stash.nodes
    ensures Sized(stash, Level(n)) == Sized(stash, {n}) + Sized(stash, Level(n.siblings))
    ensures Sized(stash, {n}) !! Sized(stash, Level(n.siblings))
  {
    assert LevelAt(stash.nodes, stash.heads, n);
    assert PathsOf(Level(n)) == PathsOf({n}) + PathsOf(Level(n.siblings));
    forall p | p in Sized(stash, {n})
      ensures p !in Sized(stash, Level(n.siblings))
    {
      if m :| m in Level(n.siblings) && Starts(m.path, p) {
        StartsCompare(n.path, m.path, p);
        SiblingsDisjoint(stash, n, m);
      }
    }
  }

  lemma SizedBelow(stash: StackStash, n: StackNode)
    requires stash.Valid() && n in stash.nodes
    ensures n.path !in Sized(stash, Level(n.children))
    ensures Sized(stash, {n}) == (if n.size != 0 then {n.path} else {}) + Sized(stash, Level(n.children))
  {
    assert n.path in PathsOf({n});
    forall p | p in stash.at
      ensures Starts(n.path, p) == (p == n.path || Holds(Below(PathsOf(Level(n.children))), p))
      ensures !(p == n.path && Holds(Below(PathsOf(Level(n.children))), p))
    {
      BelowChildren(stash, n, p);
    }
  }

  lemma BelowChildren(stash: StackStash, n: StackNode, p: Path<Addr>)
    requires stash.Valid() && n in stash.nodes && p in stash.at
    ensures Starts(n.path, p) == (p == n.path || Holds(Below(PathsOf(Level(n.children))), p))
    ensures !(p == n.path && Holds(Below(PathsOf(Level(n.children))), p))
  {
    var kids := Level(n.children);
    assert n.children == stash.heads[n];
    if Starts(n.path, p) && p != n.path {
      var c := PrefixNode(stash, n, stash.at[p]);
    }
    if c :| c in kids && Starts(c.path, p) {
      assert LevelAt(stash.nodes, stash.heads, n.children);
      assert c.parent == n && c.path.up == n.path;
      StartsIsTransitive(n.path, c.path, p);
      StartsLength(c.path, p);
    }
  }

  /** Between a node and one further down there is a child of the upper one. */
  lemma {:induction false} PrefixNode(stash: StackStash, n: StackNode?, m: StackNode) returns (c: StackNode)
    requires stash.Shape() && (n != null ==> n in stash.nodes) && m in stash.nodes
    requires Starts(PathOf(n), m.path) && m != n
    ensures c in Level(stash.Head(n)) && c.path in PathsOf(Level(stash.Head(n))) && Starts(c.path, m.path)
    decreases m.path
  {
    assert LevelAt(stash.nodes, stash.heads, m) && Linked(m);
    assert stash.Head(n) == stash.heads[n];
    if m.parent == n {
      c := m;
    } else {
      assert n != null ==> Linked(n);
      c := PrefixNode(stash, n, m.parent);
    }
  }

  /** do_callback, src/stackstash.c:201-229, over a sibling list. */
  method DoCallback(stash: StackStash, first: StackNode?, trace: seq<Addr>, before: Calls,
                    ghost parent: StackNode?, ghost height: nat)
    returns (calls: Calls)
    requires stash.Valid() && Shallow(stash, height)
    requires parent != null ==> parent in stash.nodes
    requires first == stash.Head(parent) && PathOf(parent) == FromList(trace, 0)
    requires Faithful(before, stash) && PathsCalled(before) !! Sized(stash, Level(first))
    ensures Faithful(calls, stash)
    ensures PathsCalled(calls) == PathsCalled(before) + Sized(stash, Level(first))
    decreases height - Length(PathOf(parent)), 0
  {
    hide Faithful, Sized, PathsCalled, FromList, Shallow;
    calls := before;
    var node := first;
    assert node != null ==> node in stash.nodes && node.parent == parent by {
      assert node == stash.heads[parent];
    }
    assert Sized(stash, Level(null)) == {} by {
      SizedNothing(stash);
    }
    while node != null
      invariant node != null ==> node in stash.nodes && node.parent == parent
      invariant Faithful(calls, stash) && PathsCalled(calls) !! Sized(stash, Level(node))
      invariant PathsCalled(calls) + Sized(stash, Level(node)) == PathsCalled(before) + Sized(stash, Level(first))
      decreases Level(node)
    {
      SizedStep(stash, node);
      assert LevelAt(stash.nodes, stash.heads, node);
      LengthOf(stash, node, height);
      calls := VisitNode(stash, node, trace, calls, height);
      node := node.siblings;
    }
  }

  /** The body of its loop: a call for the node itself, then for everything below it. */
  method VisitNode(stash: StackStash, node: StackNode, trace: seq<Addr>, before: Calls, ghost height: nat)
    returns (calls: Calls)
    requires stash.Valid() && Shallow(stash, height)
    requires node in stash.nodes && PathOf(node.parent) == FromList(trace, 0)
    requires Faithful(before, stash) && PathsCalled(before) !! Sized(stash, {node})
    ensures Faithful(calls, stash)
    ensures PathsCalled(calls) == PathsCalled(before) + Sized(stash, {node})
    decreases height - Length(node.path), 1
  {
    hide Sized, Shallow;
    SizedBelow(stash, node);
    assert node.path == Frame(PathOf(node.parent), node.address);
    FromListCons(node.address, trace, 0);
    calls := before;
    var link := [node.address] + trace;
    assert FromList(link, 0) == node.path;
    if node.size != 0 {
      calls := Called(calls, link, node.size);
    }
    calls := DoCallback(stash, node.children, link, calls, node, height);
  }

  lemma SizedNothing(stash: StackStash)
    ensures Sized(stash, Level(null)) == {}
  {
  }

  lemma LengthOf(stash: StackStash, n: StackNode, height: nat)
    requires stash.Shape() && n in stash.nodes && Shallow(stash, height)
    ensures Length(n.path) == Length(PathOf(n.parent)) + 1 <= height
  {
    assert Linked(n);
  }

  lemma AllBelowRoot(stash: StackStash)
    requires stash.Valid()
    ensures Sized(stash, Level(stash.root)) == set p | p in stash.at && stash.at[p].size != 0
  {
    forall p | p in stash.at ensures Holds(Below(PathsOf(Level(stash.root))), p) {
      RootStarts(p);
      var c := PrefixNode(stash, null, stash.at[p]);
    }
  }

  /** stack_stash_foreach: one call for each trace with a size, and no other call. */
  method Foreach(stash: StackStash) returns (calls: Calls)
    requires stash.Valid()
    ensures Faithful(calls, stash)
    ensures PathsCalled(calls) == set p | p in stash.at && stash.at[p].size != 0
  {
    ghost var height := HeightExists(stash.at.Keys);
    AllBelowRoot(stash);
    calls := DoCallback(stash, stash.root, [], NoCalls, null, height);
  }

  // ----- Replaying the calls

  ghost function Replayed(calls: Calls): Log<Addr> {
    match calls
    case NoCalls => Empty
    case Called(before, trace, size) => Add(Replayed(before), FromList(trace, 0), size)
  }

  lemma {:induction false} ReplayedWeight(calls: Calls, stash: StackStash, p: Path<Addr>)
    requires Faithful(calls, stash)
    ensures p in PathsCalled(calls) ==> p in stash.at
    ensures Weight(Replayed(calls), Is(p)) == if p in PathsCalled(calls) then stash.at[p].size else 0
  {
    match calls
    case NoCalls =>
    case Called(before, trace, size) =>
      ReplayedWeight(before, stash, p);
  }

  /** Adds the calls to an empty stash, in the order in which they were made. */
  method Replay(calls: Calls, ghost stash: StackStash) returns (copy: StackStash)
    requires Faithful(calls, stash)
    requires stash.Valid()
    ensures fresh(copy) && fresh(copy.nodes)
    ensures copy.Valid() && copy.log == Replayed(calls)
    decreases calls
  {
    match calls
    case NoCalls =>
      copy := new StackStash(0);
    case Called(before, trace, size) =>
      copy := Replay(before, stash);
      assert trace != [] by {
        assert Linked(stash.at[FromList(trace, 0)]);
      }
      var node := copy.AddTrace(trace, size);
  }

  /** The copy holds the same size for every trace, as far as a stash can tell. */
  method CopyStash(stash: StackStash) returns (copy: StackStash)
    requires stash.Valid()
    ensures fresh(copy) && fresh(copy.nodes) && copy.Valid()
    ensures forall p: Path<Addr> :: p.Frame? ==>
              Wrap31(Weight(copy.log, Is(p))) == Wrap31(Weight(stash.log, Is(p)))
  {
    var calls := Foreach(stash);
    forall p: Path<Addr> | p.Frame?
      ensures Wrap31(Weight(Replayed(calls), Is(p))) == Wrap31(Weight(stash.log, Is(p)))
    {
      SameSizes(stash, calls, p);
    }
    copy := Replay(calls, stash);
  }

  lemma SameSizes(stash: StackStash, calls: Calls, p: Path<Addr>)
    requires stash.Valid() && p.Frame?
    requires Faithful(calls, stash)
    requires PathsCalled(calls) == set p | p in stash.at && stash.at[p].size != 0
    ensures Wrap31(Weight(Replayed(calls), Is(p))) == Wrap31(Weight(stash.log, Is(p)))
  {
    ReplayedWeight(calls, stash, p);
    if p in stash.at {
      assert stash.at[p].size == Wrap31(Weight(stash.log, Is(p)));
    } else {
      stash.AbsentWeighsNothing(p, 0);
    }
  }
}
