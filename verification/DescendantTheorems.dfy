/** What the numbers of a descendant tree mean. */
module DescendantTheorems {
  import opened Ledger
  import opened Recursion
  import opened Process
  import opened BlockSets
  import opened ProfileTree
  import opened Profiles
  import opened Descendants

  // ----- Sums inside the tree

  ghost function SelfSum(ns: set<D.DescendantNode>): int
    reads ns
  {
    if ns == {} then 0 else
      var n := AnyOf(ns);
      SelfSum(ns - {n}) + n.self
  }

  ghost function SubtreeOf(nodes: set<D.DescendantNode>, p: Path<Symbol>): set<D.DescendantNode> {
    set n | n in nodes && Starts(p, n.path)
  }

  ghost function Places(ns: set<D.DescendantNode>): set<Path<Symbol>> {
    set n | n in ns :: n.path
  }

  lemma StopsAmongExtend(log: Log<Symbol>, ps: set<Path<Symbol>>, p: Path<Symbol>)
    requires p !in ps
    ensures Weight(log, Along(StopsAmong(ps + {p}))) ==
              Weight(log, Along(StopsAmong(ps))) + Weight(log, Along(StopsAmong({p})))
  {
    WeightSplit(log, Along(StopsAmong(ps + {p})), Along(StopsAmong(ps)), Along(StopsAmong({p})));
  }

  lemma {:induction false} SelfSumIsWeight(tree: D.DescendantTree, ns: set<D.DescendantNode>)
    requires tree.Valid() && ns <= tree.nodes
    ensures SelfSum(ns) == Weight(tree.log, Along(StopsAmong(Places(ns))))
    decreases ns
  {
    if ns == {} {
      WeightNone(tree.log, Along(StopsAmong(Places(ns))));
    } else {
      var n := AnyOf(ns);
      SelfSumIsWeight(tree, ns - {n});
      OtherPlaces(tree, ns, n);
      StopsAmongExtend(tree.log, Places(ns - {n}), n.path);
    }
  }

  lemma OtherPlaces(tree: D.DescendantTree, ns: set<D.DescendantNode>, n: D.DescendantNode)
    requires tree.Valid() && ns <= tree.nodes && n in ns
    ensures n.path !in Places(ns - {n}) && Places(ns) == Places(ns - {n}) + {n.path}
    ensures n.self == Weight(tree.log, Along(StopsAmong({n.path})))
  {
    forall m | m in ns ensures m.path == n.path ==> m == n {
      assert D.Placed(tree.nodes, tree.at, m) && D.Placed(tree.nodes, tree.at, n);
    }
    tree.PlacedAt(n);
  }

  /** However often walks went down and back, a node's non_recursion is the sum of the self
      values at and below it. */
  lemma NonRecursionIsSubtree(tree: D.DescendantTree, n: D.DescendantNode)
    requires tree.Valid() && n in tree.nodes
    ensures n.non_recursion == SelfSum(SubtreeOf(tree.nodes, n.path))
  {
    hide SelfSum, D.DescendantTree.Valid;
    var log, places := tree.log, Places(SubtreeOf(tree.nodes, n.path));
    SelfSumIsWeight(tree, SubtreeOf(tree.nodes, n.path));
    forall t | t in Traces(log) ensures Collapse(t) in places <==> Starts(n.path, Collapse(t)) {
      StopHasNode(tree, n, t);
    }
    WeightAgree(log, Along(StopsAmong(places)), Along(StopsBelow(n.path)));
    CountersAt(tree, n);
  }

  lemma StopHasNode(tree: D.DescendantTree, n: D.DescendantNode, t: Path<Symbol>)
    requires tree.Valid() && n in tree.nodes && t in Traces(tree.log)
    ensures Collapse(t) in Places(SubtreeOf(tree.nodes, n.path)) <==> Starts(n.path, Collapse(t))
  {
    tree.PlacedAt(n);
    if Starts(n.path, Collapse(t)) {
      D.AllVisitedTraces(tree.log);
      assert Collapse(t) in tree.at;
      assert tree.at[Collapse(t)] in SubtreeOf(tree.nodes, n.path);
    }
  }

  lemma CountersAt(tree: D.DescendantTree, n: D.DescendantNode)
    requires tree.Valid() && n in tree.nodes
    ensures n.self == Weight(tree.log, Along(StopsAmong({n.path})))
    ensures n.non_recursion == Weight(tree.log, Along(StopsBelow(n.path)))
    ensures n.total == Weight(tree.log, Along(Visits(n.path)))
    ensures NonNegative(tree.log) && n.path.Frame?
  {
    tree.PlacedAt(n);
  }

  /** No node has more than its parent, nor counts more stacks that stop below it than
      stacks that pass it. */
  lemma TotalsShrink(tree: D.DescendantTree, n: D.DescendantNode)
    requires tree.Valid() && n in tree.nodes
    ensures n.self <= n.non_recursion <= n.total
    ensures n.parent != null ==> n.total <= n.parent.total && n.non_recursion <= n.parent.non_recursion
    ensures Simple(n.path)
  {
    hide D.DescendantTree.Valid;
    var log, p := tree.log, n.path;
    NodeAt(tree, n);
    CountersAt(tree, n);
    WeightMonotone(log, Along(StopsAmong({p})), Along(StopsBelow(p)));
    forall t | t in Traces(log) && Starts(p, Collapse(t)) ensures p in Visited(t) {
      VisitedUpwards(t, Collapse(t), p);
    }
    WeightMonotone(log, Along(StopsBelow(p)), Along(Visits(p)));
    if n.parent != null {
      CountersAt(tree, n.parent);
      forall t | t in Traces(log)
        ensures p in Visited(t) ==> p.up in Visited(t)
        ensures Starts(p, Collapse(t)) ==> Starts(p.up, Collapse(t))
      {
        if p in Visited(t) {
          VisitedUpwards(t, p, p.up);
        }
        if Starts(p, Collapse(t)) {
          StartsIsTransitive(p.up, p, Collapse(t));
        }
      }
      WeightMonotone(log, Along(Visits(p)), Along(Visits(p.up)));
      WeightMonotone(log, Along(StopsBelow(p)), Along(StopsBelow(p.up)));
    }
  }

  lemma NodeAt(tree: D.DescendantTree, n: D.DescendantNode)
    requires tree.Valid() && n in tree.nodes
    ensures n.path == Frame(D.PathOf(n.parent), n.symbol) && Simple(n.path)
    ensures n.parent != null ==> n.parent in tree.nodes
  {
    tree.PlacedAt(n);
  }

  // ----- The root

  lemma {:induction false} AllFromFacts(log: Log<Symbol>, s: Symbol)
    requires AllFrom(log, s)
    ensures NonNegative(log) && (log.Add? ==> Weight(log, Everything) > 0)
    ensures forall t :: t in Traces(log) ==> Starts(Frame(Root, s), t)
  {
    if log.Add? {
      AllFromFacts(log.rest, s);
      WeightMonotone(log.rest, Everything, Everything);
    }
  }

  /** Every place in the tree is below the function. */
  lemma AllBelowFunction(tree: D.DescendantTree, s: Symbol, n: D.DescendantNode)
    requires tree.Valid() && AllFrom(tree.log, s) && n in tree.nodes
    ensures Starts(Frame(Root, s), n.path) && tree.log.Add?
  {
    tree.PlacedAt(n);
    AllFromFacts(tree.log, s);
    var t := D.VisitedByTrace(tree.log, n.path);
    FirstFrame(t, n.path, s);
  }

  lemma RootAt(tree: D.DescendantTree, s: Symbol, i: nat)
    requires tree.Valid() && AllFrom(tree.log, s) && i < |tree.roots|
    ensures tree.roots[i] in tree.nodes && tree.roots[i].path == Frame(Root, s) && tree.log.Add?
    ensures Frame(Root, s) in tree.at && tree.at[Frame(Root, s)] == tree.roots[i] && tree.roots[i].index == i
  {
    assert D.KidsOf(tree.nodes, tree.kids, null);
    assert D.Placed(tree.nodes, tree.at, tree.roots[i]);
    AllBelowFunction(tree, s, tree.roots[i]);
  }

  lemma RootExists(tree: D.DescendantTree, s: Symbol)
    requires tree.Valid() && AllFrom(tree.log, s) && tree.log.Add?
    ensures tree.roots != []
  {
    VisitsFirstFrame(tree.log.path, s);
    var root := tree.at[Frame(Root, s)];
    tree.PlacedAt(root);
    assert root.parent != null ==> D.Placed(tree.nodes, tree.at, root.parent);
    assert D.KidAt(tree.kids, root);
  }

  lemma RootNode(tree: D.DescendantTree, s: Symbol)
    requires tree.Valid() && AllFrom(tree.log, s)
    ensures tree.log.Empty? ==> tree.roots == []
    ensures tree.log.Add? ==> |tree.roots| == 1 && tree.roots[0] in tree.nodes && tree.roots[0].path == Frame(Root, s)
  {
    hide D.DescendantTree.Valid;
    if tree.roots != [] {
      RootAt(tree, s, 0);
      RootAt(tree, s, |tree.roots| - 1);
    }
    if tree.log.Add? {
      RootExists(tree, s);
    }
  }

  lemma EverythingPassesRoot(log: Log<Symbol>, s: Symbol)
    requires AllFrom(log, s)
    ensures Weight(log, Along(Visits(Frame(Root, s)))) == Weight(log, Everything)
    ensures Weight(log, Along(StopsBelow(Frame(Root, s)))) == Weight(log, Everything)
  {
    AllFromFacts(log, s);
    forall t | t in Traces(log)
      ensures Frame(Root, s) in Visited(t) && Starts(Frame(Root, s), Collapse(t))
    {
      VisitsFirstFrame(t, s);
    }
    WeightAgree(log, Along(Visits(Frame(Root, s))), Everything);
    WeightAgree(log, Along(StopsBelow(Frame(Root, s))), Everything);
  }

  lemma EverythingIsTotal(tree: Log<Symbol>, log: Log<Symbol>, s: Symbol)
    requires Mirrors(tree, log, Traces(log), s)
    ensures Weight(tree, Everything) == Weight(log, Mentions(s))
  {
    assert Weight(tree, Everything) == Weight(log, Among(Pick(Traces(log), s, Everything)));
    WeightAgree(log, Among(Pick(Traces(log), s, Everything)), Mentions(s));
  }

  /** The descendant tree of a function with a total has one root, the function itself, which
      carries that total in both its counters; that of any other function is empty. */
  lemma OneRoot(tree: D.DescendantTree, profile: Profile, func: ProfileFunc)
    requires tree.Valid() && func.node != null && Sums(func, profile.log, func.node.symbol)
    requires Mirrors(tree.log, profile.log, Traces(profile.log), func.node.symbol) &&
              AllFrom(tree.log, func.node.symbol)
    ensures func.total == 0 ==> tree.roots == []
    ensures func.total > 0 ==>
              && |tree.roots| == 1 && tree.roots[0].symbol == func.node.symbol
              && tree.roots[0].total == tree.roots[0].non_recursion == func.total
  {
    hide D.DescendantTree.Valid, Mirrors;
    var s := func.node.symbol;
    RootNode(tree, s);
    AllFromFacts(tree.log, s);
    EverythingIsTotal(tree.log, profile.log, s);
    EverythingPassesRoot(tree.log, s);
    if tree.log.Add? {
      CountersAt(tree, tree.roots[0]);
      NodeAt(tree, tree.roots[0]);
    }
  }

  // ----- Blocks

  /** The blocks with s on their stack for whose stack, from the outermost s on, q holds. */
  ghost function BlocksFrom(blocks: set<Block>, s: Symbol, q: Query<Symbol>, symbols: Symbols,
          skip: set<string>): set<Block> {
    set b | b in blocks && Has(StackOf(b, symbols, skip), s) && Holds(q, From(StackOf(b, symbols, skip), s))
  }

  /** The sum of the sizes of the picked stacks is the size of the blocks that have them. */
  lemma PickedBlocks(log: Log<Symbol>, blocks: set<Block>, s: Symbol, q: Query<Symbol>, symbols: Symbols,
          skip: set<string>)
    requires SumsUp(log, blocks, symbols, skip)
    ensures Weight(log, Among(Pick(Traces(log), s, q))) == SetBytes(BlocksFrom(blocks, s, q, symbols, skip))
  {
    hide SetBytes;
    var stacks := set b | b in blocks :: StackOf(b, symbols, skip);
    var all, picked := Pick(Traces(log) + stacks, s, q), Pick(Traces(log), s, q);
    WeightAgree(log, Among(all), Among(picked));
    assert Weight(log, Among(all)) == BytesWhere(blocks, Among(all), symbols, skip);
    assert Matching(blocks, Among(all), symbols, skip) == BlocksFrom(blocks, s, q, symbols, skip);
  }

  /** What every node of a descendant tree means in terms of the blocks of the process: its
      total counts each block once whose stack, walked from the outermost call of the
      function with recursion taken out, comes through the node; self those that stop there. */
  lemma NodeTotals(tree: D.DescendantTree, profile: Profile, n: D.DescendantNode, s: Symbol, blocks: set<Block>,
          skip: set<string>)
    requires tree.Valid() && n in tree.nodes && Mirrors(tree.log, profile.log, Traces(profile.log), s)
    requires SumsUp(profile.log, blocks, profile.symbols, skip)
    ensures n.total == SetBytes(set b | b in blocks && Has(StackOf(b, profile.symbols, skip), s)
                                  && n.path in Visited(From(StackOf(b, profile.symbols, skip), s)))
    ensures n.self == SetBytes(set b | b in blocks && Has(StackOf(b, profile.symbols, skip), s)
                                 && Collapse(From(StackOf(b, profile.symbols, skip), s)) == n.path)
    ensures n.non_recursion == SetBytes(set b | b in blocks && Has(StackOf(b, profile.symbols, skip), s)
                                          && Starts(n.path, Collapse(From(StackOf(b, profile.symbols, skip), s))))
  {
    hide D.DescendantTree.Valid, Mirrors, SumsUp, SetBytes, Collapse, Visited, Starts, Has, From, StackOf;
    CountersAt(tree, n);
    Bytes(tree.log, profile.log, blocks, s, Along(Visits(n.path)), profile.symbols, skip);
    Bytes(tree.log, profile.log, blocks, s, Along(StopsAmong({n.path})), profile.symbols, skip);
    Bytes(tree.log, profile.log, blocks, s, Along(StopsBelow(n.path)), profile.symbols, skip);
    BlocksAlong(blocks, s, n.path, profile.symbols, skip);
  }

  lemma BlocksAlong(blocks: set<Block>, s: Symbol, p: Path<Symbol>, symbols: Symbols, skip: set<string>)
    ensures BlocksFrom(blocks, s, Along(Visits(p)), symbols, skip) ==
            set b | b in blocks && Has(StackOf(b, symbols, skip), s) && p in Visited(From(StackOf(b, symbols, skip), s))
    ensures BlocksFrom(blocks, s, Along(StopsAmong({p})), symbols, skip) ==
            set b | b in blocks && Has(StackOf(b, symbols, skip), s) &&
                Collapse(From(StackOf(b, symbols, skip), s)) == p
    ensures BlocksFrom(blocks, s, Along(StopsBelow(p)), symbols, skip) ==
            set b | b in blocks && Has(StackOf(b, symbols, skip), s) &&
                Starts(p, Collapse(From(StackOf(b, symbols, skip), s)))
  {
  }

  lemma Bytes(tree: Log<Symbol>, log: Log<Symbol>, blocks: set<Block>, s: Symbol, q: Query<Symbol>,
          symbols: Symbols, skip: set<string>)
    requires Mirrors(tree, log, Traces(log), s) && SumsUp(log, blocks, symbols, skip)
    ensures Weight(tree, q) == SetBytes(BlocksFrom(blocks, s, q, symbols, skip))
  {
    hide SetBytes;
    assert Weight(tree, q) == Weight(log, Among(Pick(Traces(log), s, q)));
    PickedBlocks(log, blocks, s, q, symbols, skip);
  }

  // ----- Steps

  lemma {:induction false} CallsAfter<T>(t: Path<T>, p: Path<T>, caller: T, callee: T)
    requires Starts(p, t) && HasCall(After(t, p), caller, callee)
    ensures HasCall(t, caller, callee)
  {
    if HasCall(After(t.up, p), caller, callee) {
      CallsAfter(t.up, p, caller, callee);
    } else {
      assert IsCall(After(t, p), caller, callee);
      assert t.up != p;
    }
  }

  lemma {:induction false} TraceHasWeight(log: Log<Symbol>, s: Symbol, t: Path<Symbol>)
    requires AllFrom(log, s) && t in Traces(log)
    ensures Weight(log, Is(t)) > 0
  {
    AllFromFacts(log.rest, s);
    WeightMonotone(log.rest, Is(t), Everything);
    if t != log.path {
      TraceHasWeight(log.rest, s, t);
    }
  }

  /** Every node counts something. */
  lemma NodeHasTotal(tree: D.DescendantTree, n: D.DescendantNode, s: Symbol)
    requires tree.Valid() && n in tree.nodes && AllFrom(tree.log, s)
    ensures n.total > 0
  {
    tree.PlacedAt(n);
    AllFromFacts(tree.log, s);
    var t := D.VisitedByTrace(tree.log, n.path);
    TraceHasWeight(tree.log, s, t);
    WeightMonotone(tree.log, Is(t), Along(Visits(n.path)));
    CountersAt(tree, n);
  }

  /** A node hangs below another only where the upper function calls the lower one on some
      stack, and counts no more than the stacks on which it does. */
  lemma StepsAreRealCalls(tree: D.DescendantTree, profile: Profile, n: D.DescendantNode, s: Symbol)
    requires tree.Valid() && n in tree.nodes && n.parent != null && NonNegative(profile.log)
    requires Mirrors(tree.log, profile.log, Traces(profile.log), s) && AllFrom(tree.log, s)
    ensures 0 < n.total <= Weight(profile.log, Calls(n.parent.symbol, n.symbol))
    ensures exists t :: t in Traces(profile.log) && HasCall(t, n.parent.symbol, n.symbol)
  {
    hide D.DescendantTree.Valid, Mirrors, AllFrom;
    var log, caller, callee := profile.log, n.parent.symbol, n.symbol;
    NodeAt(tree, n);
    NodeAt(tree, n.parent);
    CountersAt(tree, n);
    NodeHasTotal(tree, n, s);
    MirrorsAt(tree.log, log, s, Along(Visits(n.path)));
    forall t | t in Pick(Traces(log), s, Along(Visits(n.path))) ensures HasCall(t, caller, callee) {
      StepsAreCalls(From(t, s), n.path, caller, callee);
      UpToIsToplevel(t, s);
      StartsIsTransitive(UpTo(t, s).up, UpTo(t, s), t);
      CallsAfter(t, UpTo(t, s).up, caller, callee);
    }
    WeightMonotone(log, Among(Pick(Traces(log), s, Along(Visits(n.path)))), Calls(caller, callee));
    var t := WeightWitness(log, Calls(caller, callee));
  }

  lemma MirrorsAt(tree: Log<Symbol>, log: Log<Symbol>, s: Symbol, q: Query<Symbol>)
    requires Mirrors(tree, log, Traces(log), s)
    ensures Weight(tree, q) == Weight(log, Among(Pick(Traces(log), s, q)))
  {
  }
}
