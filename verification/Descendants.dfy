/** profile_func_create_descendant_tree, src/profile.c:230-240 and 357-401: the stacks below a
    function, from its outermost call on, folded into one tree without recursion. */
module Descendants {
  import opened Ledger
  import opened Events
  import opened ProfileTree
  import opened Profiles
  import opened ProfileTheorems
  import D = DescendantTree

  // ----- Parts of stacks

  /** What follows p on a path that starts with it. */
  ghost function After<T>(t: Path<T>, p: Path<T>): (r: Path<T>)
    requires Starts(p, t)
    ensures Join(p, r) == t
  {
    if t == p then Root else Frame(After(t.up, p), t.last)
  }

  /** A stack from its outermost call of s on. */
  ghost function From<T>(t: Path<T>, s: T): (r: Path<T>)
    requires Has(t, s)
    ensures UpTo(t, s).Frame? && Join(UpTo(t, s).up, r) == t
  {
    UpToIsToplevel(t, s);
    StartsIsTransitive(UpTo(t, s).up, UpTo(t, s), t);
    After(t, UpTo(t, s).up)
  }

  /** What follows is all there is: a path is cut in only one way. */
  lemma {:induction false} JoinCancels<T>(p: Path<T>, q: Path<T>, r: Path<T>)
    ensures Join(p, q) == Join(p, r) <==> q == r
  {
    if q.Frame? && r.Frame? {
      JoinCancels(p, q.up, r.up);
    } else if q != r {
      JoinLength(p, q);
      JoinLength(p, r);
    }
  }

  lemma {:induction false} JoinLength<T>(p: Path<T>, q: Path<T>)
    ensures Length(Join(p, q)) == Length(p) + Length(q)
  {
    if q.Frame? {
      JoinLength(p, q.up);
    }
  }

  /** A stack from its outermost call of s on is the only path that gives the whole stack once
      it is put inside of what is outside that call: no frame is lost. */
  lemma FromIsRest<T>(t: Path<T>, s: T, r: Path<T>)
    requires Has(t, s)
    ensures Toplevel(UpTo(t, s)) && UpTo(t, s).last == s && Starts(UpTo(t, s), t)
    ensures r == From(t, s) <==> Join(UpTo(t, s).up, r) == t
  {
    UpToIsToplevel(t, s);
    JoinCancels(UpTo(t, s).up, r, From(t, s));
  }

  lemma {:induction false} AfterStarts<T>(t: Path<T>, p: Path<T>)
    requires p.Frame? && Starts(p, t) && Starts(p.up, t)
    ensures Starts(Frame(Root, p.last), After(t, p.up))
  {
    StartsLength(p, t);
    assert t != p.up;
    if t == p {
      assert After(t.up, p.up) == Root;
    } else {
      assert Starts(p.up, p);
      StartsIsTransitive(p.up, p, t.up);
      AfterStarts(t.up, p);
    }
  }

  lemma FromStarts<T>(t: Path<T>, s: T)
    requires Has(t, s)
    ensures Starts(Frame(Root, s), From(t, s))
  {
    UpToIsToplevel(t, s);
    StartsIsTransitive(UpTo(t, s).up, UpTo(t, s), t);
    AfterStarts(t, UpTo(t, s));
  }

  // ----- Leaves

  /** The nodes at or below one of ps that have a size of their own. */
  ghost function Leaves(profile: Profile, ps: set<Path<Symbol>>): set<ProfileNode>
    reads profile`nodes, profile.nodes`self
  {
    set n | n in profile.nodes && n.self > 0 && Holds(Below(ps), n.path)
  }

  /** All nodes at or below p. */
  ghost function Subtree(nodes: set<ProfileNode>, p: Path<Symbol>): set<ProfileNode> {
    set n | n in nodes && Starts(p, n.path)
  }

  lemma {:induction false} NodeReached(profile: Profile, n: ProfileNode)
    requires profile.Shape() && n in profile.nodes
    ensures profile.Reaches(n.path)
    decreases n.path
  {
    assert n.path == Frame(PathOf(n.parent), n.symbol);
    if n.parent != null {
      NodeReached(profile, n.parent);
    }
  }

  lemma LeavesAtNode(profile: Profile, n: ProfileNode)
    requires profile.Valid() && n in profile.nodes
    ensures n !in Leaves(profile, KidPaths(n.children, |n.children|))
    ensures Leaves(profile, {n.path}) ==
            Leaves(profile, KidPaths(n.children, |n.children|)) + if n.self > 0 then {n} else {}
  {
    hide Profile.Valid, Starts;
    assert n.path in {n.path};
    forall m | m in profile.nodes
      ensures Holds(Below({n.path}), m.path) == (m == n || Holds(Below(KidPaths(n.children, |n.children|)), m.path))
      ensures !(m == n && Holds(Below(KidPaths(n.children, |n.children|)), m.path))
    {
      LeavesAt(profile, n, m);
    }
  }

  lemma LeavesAt(profile: Profile, n: ProfileNode, m: ProfileNode)
    requires profile.Valid() && n in profile.nodes && m in profile.nodes
    ensures Holds(Below({n.path}), m.path) == (m == n || Holds(Below(KidPaths(n.children, |n.children|)), m.path))
    ensures !(m == n && Holds(Below(KidPaths(n.children, |n.children|)), m.path))
  {
    NodeReached(profile, m);
    KidsCover(profile, n, m.path);
    assert n.path in {n.path};
  }

  lemma NextKid(profile: Profile, n: ProfileNode, i: nat)
    requires profile.Valid() && n in profile.nodes && i < |n.children|
    ensures n.children[i] in profile.nodes
    ensures Subtree(profile.nodes, n.children[i].path) < Subtree(profile.nodes, n.path)
    ensures Leaves(profile, KidPaths(n.children, i + 1)) ==
              Leaves(profile, KidPaths(n.children, i)) + Leaves(profile, {n.children[i].path})
    ensures Leaves(profile, KidPaths(n.children, i)) !! Leaves(profile, {n.children[i].path})
    ensures Leaves(profile, {n.children[i].path}) <= Leaves(profile, KidPaths(n.children, |n.children|))
  {
    hide Profile.Valid;
    var kid := n.children[i];
    KidOf(profile, n, i);
    assert KidPaths(n.children, i + 1) == KidPaths(n.children, i) + {kid.path};
    assert kid.path in KidPaths(n.children, |n.children|);
    forall m | m in Subtree(profile.nodes, kid.path) ensures m in Subtree(profile.nodes, n.path) {
      StartsIsTransitive(n.path, kid.path, m.path);
    }
    if Starts(kid.path, n.path) {
      StartsLength(kid.path, n.path);
    }
    assert n in Subtree(profile.nodes, n.path);
    forall m | m in Leaves(profile, KidPaths(n.children, i)) ensures m !in Leaves(profile, {kid.path}) {
      var q :| q in KidPaths(n.children, i) && Starts(q, m.path);
      if Starts(kid.path, m.path) {
        StartsCompare(q, kid.path, m.path);
      }
    }
  }

  lemma KidOf(profile: Profile, n: ProfileNode, i: nat)
    requires profile.Valid() && n in profile.nodes && i < |n.children|
    ensures n.children[i] in profile.nodes && n.children[i].path.Frame? && n.children[i].path.up == n.path
    ensures forall q :: q in KidPaths(n.children, i) ==>
              !Starts(q, n.children[i].path) && !Starts(n.children[i].path, q)
  {
    assert n.children == profile.kids[n];
    assert KidsOf(profile.nodes, profile.kids, n);
    var kid := n.children[i];
    assert kid.path == Frame(PathOf(kid.parent), kid.symbol);
    forall q | q in KidPaths(n.children, i) ensures !Starts(q, kid.path) && !Starts(kid.path, q) {
      var j :| 0 <= j < i && n.children[j].path == q;
      KidsDisjoint(profile, n.children[j], kid);
    }
  }

  /** node_list_leaves: puts every leaf at or below a node on the list, once. */
  method NodeListLeaves(profile: Profile, node: ProfileNode,
          leaves: List<ProfileNode>) returns (leaves': List<ProfileNode>)
    requires profile.Valid() && node in profile.nodes
    requires NoRepeats(leaves) && Elements(leaves) !! Leaves(profile, {node.path})
    ensures NoRepeats(leaves') && Elements(leaves') == Elements(leaves) + Leaves(profile, {node.path})
    decreases Subtree(profile.nodes, node.path)
  {
    hide Profile.Valid, Leaves, KidPaths, Subtree;
    LeavesAtNode(profile, node);
    NoKids(profile, node.children);
    leaves' := leaves;
    if node.self > 0 {
      leaves' := Cons(node, leaves');
    }
    for i := 0 to |node.children|
      invariant NoRepeats(leaves')
      invariant Elements(leaves') ==
                Elements(leaves) + (if node.self > 0 then {node} else {}) + Leaves(profile, KidPaths(node.children, i))
    {
      NextKid(profile, node, i);
      leaves' := NodeListLeaves(profile, node.children[i], leaves');
    }
  }

  lemma NoKids(profile: Profile, kids: seq<ProfileNode>)
    ensures Leaves(profile, KidPaths(kids, 0)) == {}
  {
  }

  // ----- Traces

  /** A leaf, seen from a node above it: src/profile.c:370-371 */
  method TraceOf(profile: Profile, leaf: ProfileNode, top: ProfileNode) returns (trace: List<ProfileNode>)
    requires profile.Shape() && leaf in profile.nodes && top in profile.nodes && Starts(top.path, leaf.path)
    ensures Starts(PathOf(top.parent), leaf.path)
    ensures D.Traced(Root, trace) == After(leaf.path, PathOf(top.parent))
    ensures Join(PathOf(top.parent), D.Traced(Root, trace)) == leaf.path
  {
    assert top.path == Frame(PathOf(top.parent), top.symbol);
    StartsIsTransitive(PathOf(top.parent), top.path, leaf.path);
    ghost var base := PathOf(top.parent);
    SamePath(profile, top, top.parent);
    trace := Nil;
    var node: ProfileNode? := leaf;
    while node != null && node != top.parent
      invariant node != null ==> node in profile.nodes
      invariant Starts(base, PathOf(node))
      invariant D.Traced(After(PathOf(node), base), trace) == After(leaf.path, base)
      decreases PathOf(node)
    {
      assert node.path == Frame(PathOf(node.parent), node.symbol);
      SamePath(profile, node, top.parent);
      trace := Cons(node, trace);
      node := node.parent;
    }
  }

  lemma SamePath(profile: Profile, n: ProfileNode, m: ProfileNode?)
    requires profile.Shape() && n in profile.nodes && (m != null ==> m in profile.nodes)
    ensures n.path == PathOf(m) <==> n == m
    ensures PathOf(m) == Root <==> m == null
  {
    assert n.path.Frame?;
  }

  /** add_leaf_to_tree */
  method AddLeafToTree(tree: D.DescendantTree, profile: Profile, leaf: ProfileNode, top: ProfileNode)
    requires tree.Valid() && profile.Shape() && leaf in profile.nodes && top in profile.nodes &&
              Starts(top.path, leaf.path)
    modifies tree, tree.nodes
    ensures tree.Valid() && fresh(tree.nodes - old(tree.nodes))
    ensures Starts(PathOf(top.parent), leaf.path)
    ensures tree.log == Add(old(tree.log), After(leaf.path, PathOf(top.parent)), leaf.self)
  {
    hide D.DescendantTree.Valid, Profile.Shape;
    var trace := TraceOf(profile, leaf, top);
    tree.AddTrace(trace, leaf.self);
  }

  // ----- What the tree counts

  /** The stacks of ps with s on them that satisfy q from the outermost s on. */
  ghost function Pick(ps: set<Path<Symbol>>, s: Symbol, q: Query<Symbol>): set<Path<Symbol>> {
    set p | p in ps && Has(p, s) && Holds(q, From(p, s))
  }

  /** The tree has been given, for the stacks in ends, exactly their sizes in the profile. */
  ghost predicate Mirrors(tree: Log<Symbol>, log: Log<Symbol>, ends: set<Path<Symbol>>, s: Symbol) {
    forall q :: Weight(tree, q) == Weight(log, Among(Pick(ends, s, q)))
  }

  /** Only traces that start with s and have a size were added. */
  ghost predicate AllFrom(tree: Log<Symbol>, s: Symbol) {
    tree.Add? ==> tree.size > 0 && Starts(Frame(Root, s), tree.path) && AllFrom(tree.rest, s)
  }

  lemma MirrorsNothing(log: Log<Symbol>, s: Symbol)
    ensures Mirrors(Empty, log, {}, s)
  {
    forall q ensures Weight(Empty, q) == Weight(log, Among(Pick({}, s, q))) {
      WeightNone(log, Among(Pick({}, s, q)));
    }
  }

  lemma MirrorsMore(tree: Log<Symbol>, log: Log<Symbol>, ends: set<Path<Symbol>>, s: Symbol, p: Path<Symbol>, size: int)
    requires Mirrors(tree, log, ends, s) && p !in ends && Has(p, s) && size == Weight(log, Is(p))
    ensures Mirrors(Add(tree, From(p, s), size), log, ends + {p}, s)
  {
    forall q
      ensures Weight(Add(tree, From(p, s), size), q) == Weight(log, Among(Pick(ends + {p}, s, q)))
    {
      if Holds(q, From(p, s)) {
        assert Pick(ends + {p}, s, q) == Pick(ends, s, q) + {p};
        AmongExtend(log, Pick(ends, s, q), p);
      } else {
        assert Pick(ends + {p}, s, q) == Pick(ends, s, q);
      }
    }
  }

  /** A stack below an outermost call of a function, seen from that call. */
  lemma FromTop(profile: Profile, leaf: ProfileNode, top: ProfileNode, s: Symbol)
    requires profile.Valid() && leaf in profile.nodes && top in profile.nodes && Starts(top.path, leaf.path)
    requires top.toplevel && top.symbol == s
    ensures Has(leaf.path, s) && Starts(PathOf(top.parent), leaf.path)
    ensures From(leaf.path, s) == After(leaf.path, PathOf(top.parent))
    ensures leaf.self == Weight(profile.log, Is(leaf.path))
  {
    assert IndexAt(profile.nodes, profile.nodes_by_symbol, top);
    assert top.path == Frame(PathOf(top.parent), top.symbol);
    ToplevelIsUpTo(top.path, leaf.path);
    StartsIsTransitive(PathOf(top.parent), top.path, leaf.path);
  }

  lemma DifferentPaths(profile: Profile, n: ProfileNode, added: set<ProfileNode>)
    requires profile.Shape() && n in profile.nodes && n !in added && added <= profile.nodes
    ensures n.path !in AllPaths(added) && AllPaths(added + {n}) == AllPaths(added) + {n.path}
  {
  }

  lemma LeafBelow(profile: Profile, leaf: ProfileNode, top: ProfileNode)
    requires profile.Valid() && leaf in Leaves(profile, {top.path})
    ensures leaf in profile.nodes && Starts(top.path, leaf.path) && leaf.self > 0 && profile.Shape()
  {
  }

  /** One leaf goes into the tree. */
  method AddLeaf(tree: D.DescendantTree, profile: Profile, leaf: ProfileNode, top: ProfileNode, s: Symbol,
          ghost added: set<ProfileNode>)
    requires tree.Valid() && profile.Valid() && leaf in Leaves(profile, {top.path}) && leaf !in added
    requires top in profile.nodes && top.toplevel && top.symbol == s && added <= profile.nodes
    requires Mirrors(tree.log, profile.log, AllPaths(added), s) && AllFrom(tree.log, s)
    modifies tree, tree.nodes
    ensures tree.Valid() && fresh(tree.nodes - old(tree.nodes))
    ensures Mirrors(tree.log, profile.log, AllPaths(added + {leaf}), s) && AllFrom(tree.log, s)
  {
    hide D.DescendantTree.Valid, Profile.Valid, Profile.Shape, Mirrors, Starts, From, After, Has, Leaves, AllPaths;
    LeafBelow(profile, leaf, top);
    DifferentPaths(profile, leaf, added);
    FromTop(profile, leaf, top, s);
    FromStarts(leaf.path, s);
    MirrorsMore(tree.log, profile.log, AllPaths(added), s, leaf.path, leaf.self);
    AddLeafToTree(tree, profile, leaf, top);
  }

  /** src/profile.c:392-395: all leaves below one node of the function. */
  method AddLeaves(tree: D.DescendantTree, profile: Profile, top: ProfileNode, s: Symbol, ghost added: set<ProfileNode>)
    requires tree.Valid() && profile.Valid() && top in profile.nodes && top.toplevel && top.symbol == s
    requires Mirrors(tree.log, profile.log, AllPaths(added), s) && AllFrom(tree.log, s)
    requires added <= profile.nodes && added !! Leaves(profile, {top.path})
    modifies tree, tree.nodes
    ensures tree.Valid() && fresh(tree.nodes - old(tree.nodes))
    ensures Mirrors(tree.log, profile.log, AllPaths(added + Leaves(profile, {top.path})), s) && AllFrom(tree.log, s)
  {
    hide D.DescendantTree.Valid, Profile.Valid, Mirrors, AllFrom, AllPaths, Leaves;
    var leaves := NodeListLeaves(profile, top, Nil);
    ghost var below, done := Leaves(profile, {top.path}), added;
    LeavesAreNodes(profile, {top.path});
    var list := leaves;
    while list.Cons?
      invariant tree.Valid() && fresh(tree.nodes - old(tree.nodes))
      invariant NoRepeats(list) && Elements(list) <= below && Elements(list) !! done
      invariant done <= profile.nodes && done + Elements(list) == added + below
      invariant Mirrors(tree.log, profile.log, AllPaths(done), s) && AllFrom(tree.log, s)
      decreases list
    {
      AddLeaf(tree, profile, list.head, top, s, done);
      done := done + {list.head};
      list := list.tail;
    }
    assert done == added + below;
  }

  lemma LeavesAreNodes(profile: Profile, ps: set<Path<Symbol>>)
    ensures Leaves(profile, ps) <= profile.nodes
  {
  }

  lemma LeavesApart(profile: Profile, n: ProfileNode, done: set<ProfileNode>, l: ProfileNode)
    requires profile.Shape() && n in profile.nodes && n !in done && done <= profile.nodes && n.toplevel
    requires forall m :: m in done ==> m.symbol == n.symbol
    requires l in Leaves(profile, ToplevelPaths(done))
    ensures l !in Leaves(profile, {n.path})
  {
    hide Profile.Shape;
    var q :| q in ToplevelPaths(done) && Starts(q, l.path);
    var m :| m in done && m.toplevel && m.path == q;
    NodesApart(profile, n, m);
    if Starts(n.path, l.path) {
      StartsCompare(n.path, q, l.path);
    }
  }

  lemma NodesApart(profile: Profile, n: ProfileNode, m: ProfileNode)
    requires profile.Shape() && n in profile.nodes && m in profile.nodes && m != n
    requires n.toplevel && m.toplevel && m.symbol == n.symbol
    ensures !Starts(m.path, n.path) && !Starts(n.path, m.path)
  {
    SameSymbolDisjoint(profile.nodes, profile.at, profile.nodes_by_symbol, n, m);
  }

  /** Leaves below different outermost calls of a function are different. */
  lemma NextTop(profile: Profile, n: ProfileNode, done: set<ProfileNode>)
    requires profile.Valid() && n in profile.nodes && n !in done && done <= profile.nodes
    requires forall m :: m in done ==> m.symbol == n.symbol
    ensures Leaves(profile, ToplevelPaths(done)) <= profile.nodes
    ensures n.toplevel ==>
              && Leaves(profile, ToplevelPaths(done)) !! Leaves(profile, {n.path})
              && Leaves(profile, ToplevelPaths(done + {n})) ==
                  Leaves(profile, ToplevelPaths(done)) + Leaves(profile, {n.path})
    ensures !n.toplevel ==> Leaves(profile, ToplevelPaths(done + {n})) == Leaves(profile, ToplevelPaths(done))
  {
    hide Profile.Shape, Profile.Counted, Profile.Covers, Starts;
    if n.toplevel {
      assert ToplevelPaths(done + {n}) == ToplevelPaths(done) + {n.path};
      forall l | l in Leaves(profile, ToplevelPaths(done)) ensures l !in Leaves(profile, {n.path}) {
        LeavesApart(profile, n, done, l);
      }
    } else {
      assert ToplevelPaths(done + {n}) == ToplevelPaths(done);
    }
  }

  method CreateDescendantTree(profile: Profile, func: ProfileFunc) returns (tree: D.DescendantTree)
    requires profile.Valid() && func.node != null && func.node in profile.nodes
    requires func.node.symbol in profile.nodes_by_symbol && profile.nodes_by_symbol[func.node.symbol] == func.node
    ensures fresh(tree) && tree.Valid()
    ensures Mirrors(tree.log, profile.log, Traces(profile.log), func.node.symbol) && AllFrom(tree.log, func.node.symbol)
  {
    hide D.DescendantTree.Valid, Profile.Valid, Mirrors, AllFrom, AllPaths, Leaves, ToplevelPaths;
    ghost var s := func.node.symbol;
    tree := new D.DescendantTree();
    NothingAdded(profile, s);
    ghost var done: set<ProfileNode> := {};
    var node: ProfileNode? := func.node;
    while node != null
      invariant tree.Valid() && profile.Valid() && fresh(tree) && fresh(tree.nodes)
      invariant node != null ==> node in profile.nodes && node.symbol == s
      invariant forall m :: m in done ==> m.symbol == s
      invariant done !! Chain(node) && done + Chain(node) == Chain(func.node) && done <= profile.nodes
      invariant Mirrors(tree.log, profile.log, AllPaths(Leaves(profile, ToplevelPaths(done))), s) &&
                AllFrom(tree.log, s)
      decreases Chain(node)
    {
      NextInChain(profile, node);
      NextTop(profile, node, done);
      if node.toplevel {
        AddLeaves(tree, profile, node, node.symbol, Leaves(profile, ToplevelPaths(done)));
      }
      done := done + {node};
      node := node.next;
    }
    MirrorsAll(tree.log, profile, func.node, Leaves(profile, ToplevelPaths(done)));
  }

  lemma NothingAdded(profile: Profile, s: Symbol)
    ensures Mirrors(Empty, profile.log, AllPaths(Leaves(profile, ToplevelPaths({}))), s) && AllFrom(Empty, s)
  {
    assert ToplevelPaths({}) == {} && Leaves(profile, {}) == {};
    assert AllPaths({}) == {};
    MirrorsNothing(profile.log, s);
  }

  /** Stacks that no leaf stands for have no size. */
  lemma MirrorsAll(tree: Log<Symbol>, profile: Profile, first: ProfileNode, added: set<ProfileNode>)
    requires profile.Valid() && first in profile.nodes
    requires first.symbol in profile.nodes_by_symbol && profile.nodes_by_symbol[first.symbol] == first
    requires added == Leaves(profile, ToplevelPaths(Chain(first)))
    requires Mirrors(tree, profile.log, AllPaths(added), first.symbol)
    ensures Mirrors(tree, profile.log, Traces(profile.log), first.symbol)
  {
    var log, s := profile.log, first.symbol;
    forall t | t in Traces(log) && Has(t, s) && t !in AllPaths(added) ensures Weight(log, Is(t)) == 0 {
      NotALeaf(profile, first, t);
    }
    forall q ensures Weight(tree, q) == Weight(log, Among(Pick(Traces(log), s, q))) {
      MissingWeighNothing(log, AllPaths(added), s, q);
    }
  }

  lemma NotALeaf(profile: Profile, first: ProfileNode, t: Path<Symbol>)
    requires profile.Valid() && first in profile.nodes
    requires first.symbol in profile.nodes_by_symbol && profile.nodes_by_symbol[first.symbol] == first
    requires t in Traces(profile.log) && Has(t, first.symbol)
    requires t !in AllPaths(Leaves(profile, ToplevelPaths(Chain(first))))
    ensures Weight(profile.log, Is(t)) == 0
  {
    var s := first.symbol;
    UpToIsToplevel(t, s);
    assert profile.Reaches(t);
    var top := profile.at[UpTo(t, s)];
    assert Linked(top) && IndexAt(profile.nodes, profile.nodes_by_symbol, top);
    assert top.path in ToplevelPaths(Chain(first));
    assert Starts(t, t);
    var n := profile.at[t];
    assert n.self == Weight(profile.log, Is(t));
  }

  lemma MissingWeighNothing(log: Log<Symbol>, ends: set<Path<Symbol>>, s: Symbol, q: Query<Symbol>)
    requires forall t :: t in Traces(log) && Has(t, s) && t !in ends ==> Weight(log, Is(t)) == 0
    ensures Weight(log, Among(Pick(Traces(log), s, q))) == Weight(log, Among(Pick(ends, s, q)))
  {
    var all, kept := Pick(Traces(log), s, q), Pick(ends, s, q);
    WeightSplit(log, Among(all), Among(all * kept), Among(all - kept));
    WeightlessSet(log, all - kept);
    WeightAgree(log, Among(all * kept), Among(kept));
  }
}
