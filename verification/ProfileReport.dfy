/** What a user sees of a profile, from the block table of a process to the callers and the
    descendants of one function, all of it in bytes of blocks. */
module ProfileReport {
  import opened Ledger
  import opened StackStash
  import opened Events
  import opened EventTheorems
  import opened TraceView
  import opened World
  import S = Session
  import opened Process
  import opened BlockSets
  import opened ProfileTree
  import opened Profiles
  import opened ProfileTheorems
  import opened Callers
  import opened Descendants
  import opened DescendantTheorems

  ghost predicate FunctionBytes(f: ProfileFunc, blocks: set<Block>, symbols: Symbols, skip: set<string>)
    reads f
  {
    && f.node != null
    && f.total == SetBytes(set b | b in blocks && Has(StackOf(b, symbols, skip), f.node.symbol))
    && f.self == SetBytes(set b | b in blocks && StackOf(b, symbols, skip).Frame? &&
        StackOf(b, symbols, skip).last == f.node.symbol)
  }

  ghost predicate CallersBytes(callers: seq<ProfileFunc>, s: Symbol, blocks: set<Block>, symbols: Symbols,
      skip: set<string>)
    reads callers
  {
    forall f :: f in callers ==>
      && f.total == SetBytes(set b | b in blocks && OnStack(RowKey(f), s, StackOf(b, symbols, skip)))
      && f.self == SetBytes(set b | b in blocks && AtEnd(RowKey(f), s, StackOf(b, symbols, skip)))
  }

  ghost predicate TreeBytes(tree: D.DescendantTree, s: Symbol, blocks: set<Block>, symbols: Symbols, skip: set<string>)
    reads tree, tree.nodes
  {
    forall n :: n in tree.nodes ==>
      && n.total == SetBytes(set b | b in blocks && Has(StackOf(b, symbols, skip), s)
                               && n.path in Visited(From(StackOf(b, symbols, skip), s)))
      && n.self == SetBytes(set b | b in blocks && Has(StackOf(b, symbols, skip), s)
                              && Collapse(From(StackOf(b, symbols, skip), s)) == n.path)
      && n.non_recursion == SetBytes(set b | b in blocks && Has(StackOf(b, symbols, skip), s)
                                       && Starts(n.path, Collapse(From(StackOf(b, symbols, skip), s))))
  }

  /** The tree starts with the function and its total, or is empty if there is none. */
  ghost predicate RootOf(tree: D.DescendantTree, f: ProfileFunc)
    reads tree, tree.nodes, f
  {
    && f.node != null
    && (f.total == 0 ==> tree.roots == [])
    && (f.total > 0 ==>
         && |tree.roots| == 1 && tree.roots[0] in tree.nodes && tree.roots[0].symbol == f.node.symbol
         && tree.roots[0].total == tree.roots[0].non_recursion == f.total)
  }

  /** profile_create, and then the two lists for the row that is selected: everything that is
      shown of it counts the bytes of the process's blocks. */
  method Explain(process: MPProcess, symbols: Symbols, skip: set<string>, selected: nat)
    returns (profile: Profile, callers: seq<ProfileFunc>, tree: D.DescendantTree)
    requires process.Registered() && process.server.Accounted()
    ensures forall f :: f in profile.functions ==> FunctionBytes(f, BlocksOf(process.block_table), symbols, skip)
    ensures profile.n_bytes == SetBytes(BlocksOf(process.block_table))
    ensures selected < |profile.functions| ==>
              var f := profile.functions[selected];
              && f.node != null
              && CallersBytes(callers, f.node.symbol, BlocksOf(process.block_table), symbols, skip)
              && ProfileTheorems.SelfSum(callers, |callers|) == f.self
              && TreeBytes(tree, f.node.symbol, BlocksOf(process.block_table), symbols, skip)
              && RootOf(tree, f)
  {
    hide Profile.Valid, MPServer.Accounted, D.DescendantTree.Valid, SetBytes, SumsUp, RowSymbols, FunctionBytes,
      CallersBytes, TreeBytes, RootOf, CallerRows, Mirrors, AllFrom, Sums;
    profile := CreateProfile(process, symbols, skip);
    ghost var blocks := BlocksOf(process.block_table);
    AllFunctions(profile, blocks, skip);
    callers := [];
    tree := new D.DescendantTree();
    if selected < |profile.functions| {
      var f := profile.functions[selected];
      assert RowOk(profile, f);
      callers := CreateCallerList(profile, f);
      tree := CreateDescendantTree(profile, f);
      AllCallers(profile, f, callers, blocks, skip);
      AllNodes(tree, profile, f, blocks, skip);
    }
  }

  lemma AllFunctions(profile: Profile, blocks: set<Block>, skip: set<string>)
    requires Rows(profile, profile.functions) && SumsUp(profile.log, blocks, profile.symbols, skip)
    ensures forall f :: f in profile.functions ==> FunctionBytes(f, blocks, profile.symbols, skip)
  {
    forall f | f in profile.functions ensures FunctionBytes(f, blocks, profile.symbols, skip) {
      FunctionTotals(profile, f, blocks, skip);
    }
  }

  lemma AllCallers(profile: Profile, f: ProfileFunc, callers: seq<ProfileFunc>, blocks: set<Block>, skip: set<string>)
    requires RowOk(profile, f) && CallerRows(profile.log, f.node.symbol, callers)
    requires SumsUp(profile.log, blocks, profile.symbols, skip)
    ensures CallersBytes(callers, f.node.symbol, blocks, profile.symbols, skip)
    ensures ProfileTheorems.SelfSum(callers, |callers|) == f.self
  {
    hide CallerRows;
    forall g | g in callers
      ensures g.total == SetBytes(set b | b in blocks &&
                OnStack(RowKey(g), f.node.symbol, StackOf(b, profile.symbols, skip)))
      ensures g.self == SetBytes(set b | b in blocks &&
                AtEnd(RowKey(g), f.node.symbol, StackOf(b, profile.symbols, skip)))
    {
      CallerBytes(profile.log, f.node.symbol, callers, g, blocks, profile.symbols, skip);
    }
    CallerSelfValuesAddUp(profile.log, f.node.symbol, f, callers);
  }

  lemma AllNodes(tree: D.DescendantTree, profile: Profile, f: ProfileFunc, blocks: set<Block>, skip: set<string>)
    requires tree.Valid() && RowOk(profile, f) && SumsUp(profile.log, blocks, profile.symbols, skip)
    requires Mirrors(tree.log, profile.log, Traces(profile.log), f.node.symbol) && AllFrom(tree.log, f.node.symbol)
    ensures TreeBytes(tree, f.node.symbol, blocks, profile.symbols, skip) && RootOf(tree, f)
  {
    hide D.DescendantTree.Valid, Mirrors, AllFrom, SumsUp, SetBytes, Collapse, Visited, Starts, Has, From, StackOf;
    forall n | n in tree.nodes
      ensures n.total == SetBytes(set b | b in blocks && Has(StackOf(b, profile.symbols, skip), f.node.symbol)
                                    && n.path in Visited(From(StackOf(b, profile.symbols, skip), f.node.symbol)))
      ensures n.self == SetBytes(set b | b in blocks && Has(StackOf(b, profile.symbols, skip), f.node.symbol)
                                   && Collapse(From(StackOf(b, profile.symbols, skip), f.node.symbol)) == n.path)
      ensures n.non_recursion == SetBytes(set b | b in blocks && Has(StackOf(b, profile.symbols, skip), f.node.symbol)
                                            && Starts(n.path, Collapse(From(StackOf(b, profile.symbols, skip),
                                                f.node.symbol))))
    {
      NodeTotals(tree, profile, n, f.node.symbol, blocks, skip);
    }
    OneRoot(tree, profile, f);
    RootNode(tree, f.node.symbol);
  }

  // ----- Stacks

  /** In a session, the stack of a block that does not dangle lies in a stash that has not been
      freed, and profiles as the trace that was sent with the command that got the block,
      without the skipped functions. */
  lemma StackIsWhatWasSent(session: S.Session, w: World, i: nat, a: Addr, cs: set<Command<Trace>>, symbols: Symbols,
                           skip: set<string>)
    returns (c: Command<Trace>)
    requires session.Valid(w) && Labelled(w, cs)
    requires i < |session.processes| && i < |w.seats| && a in session.processes[i].block_table
    requires a in w.seats[i].state.core.heap && !Dangles(w, w.seats[i].state.core.heap[a].stack)
    ensures var block := session.processes[i].block_table[a];
            && c in cs && Records(Cell(block.size, c.stack), a, c)
            && (block.stack != null ==>
                 forall s :: s in session.stashed && s.id == block.stack.home ==> s.ref_count > 0)
            && StackOf(block, symbols, skip) == Filtered(c.stack, symbols, skip)
  {
    var seat, block := w.seats[i], session.processes[i].block_table[a];
    assert MapState(HeldBy, session.processes[i].View()) == seat.state;
    var st := MapState(TraceView.TraceOf, seat.state);
    assert Recorded(st, cs) && a in st.core.heap;
    c :| c in cs && Records(st.core.heap[a], a, c);
    assert seat.state.core.heap[a].stack == HeldBy(block.stack);
  }

  /** After every run of a session that orphans no stack, this is so of every block. */
  lemma StacksAfterRun(session: S.Session, actions: List<Action>, i: nat, a: Addr, symbols: Symbols, skip: set<string>)
    returns (c: Command<Trace>)
    requires session.Valid(AfterAll(AtFirst(), actions)) && !Orphaning(AtFirst(), actions)
    requires i < |session.processes| && a in session.processes[i].block_table
    ensures c in AllSent(actions) && Records(Cell(session.processes[i].block_table[a].size, c.stack), a, c)
    ensures StackOf(session.processes[i].block_table[a], symbols, skip) == Filtered(c.stack, symbols, skip)
  {
    hide S.Session.Valid, Labelled, Sound, Orphaning, AfterAll, Good, Records, StackOf, Filtered, AllSent;
    FromTheStart(actions);
    var w := AfterAll(AtFirst(), actions);
    SeatHasBlock(session, w, i, a);
    SoundAt(w, i, a);
    c := StackIsWhatWasSent(session, w, i, a, AllSent(actions), symbols, skip);
  }

  lemma SeatHasBlock(session: S.Session, w: World, i: nat, a: Addr)
    requires session.Valid(w) && i < |session.processes| && a in session.processes[i].block_table
    ensures i < |w.seats| && a in w.seats[i].state.core.heap
  {
    assert MapState(HeldBy, session.processes[i].View()) == w.seats[i].state;
  }
}
