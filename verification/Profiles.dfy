/** The second half of building a profile, src/profile.c:111-198: the call tree of a process
    and the totals of its functions. */
module Profiles {
  import opened Ledger
  import opened Events
  import opened Process
  import opened BlockSets
  import opened ProfileTree

  // ----- One function

  /** What a row says: total is the weight of the stacks that pass through the function,
      each counted once, and self the weight of those that end in it. */
  ghost predicate Sums(f: ProfileFunc, log: Log<Symbol>, s: Symbol)
    reads f
  {
    f.total == Weight(log, Mentions(s)) && f.self == Weight(log, EndsIn(s))
  }

  ghost function ToplevelPaths(ns: set<ProfileNode>): set<Path<Symbol>> {
    set n | n in ns && n.toplevel :: n.path
  }

  ghost function AllPaths(ns: set<ProfileNode>): set<Path<Symbol>> {
    set n | n in ns :: n.path
  }

  lemma SameSymbolDisjoint(nodes: set<ProfileNode>, at: map<Path<Symbol>, ProfileNode>,
          index: map<Symbol, ProfileNode>, n: ProfileNode, m: ProfileNode)
    requires Tree(nodes, at) && Index(nodes, index) && n in nodes && m in nodes && m != n
    requires n.toplevel && m.toplevel && m.symbol == n.symbol
    ensures !Starts(m.path, n.path) && !Starts(n.path, m.path)
  {
    assert IndexAt(nodes, index, n) && IndexAt(nodes, index, m);
    assert Linked(n) && Linked(m);
    ToplevelsDisjoint(n.path, m.path);
  }

  /** Adding up one more node of a chain. */
  lemma ChainStep(profile: Profile, n: ProfileNode, done: set<ProfileNode>)
    requires profile.Valid() && n in profile.nodes && n !in done && done <= profile.nodes
    requires forall m :: m in done ==> m.symbol == n.symbol
    ensures Weight(profile.log, Among(AllPaths(done + {n}))) == Weight(profile.log, Among(AllPaths(done))) + n.self
    ensures Weight(profile.log, Below(ToplevelPaths(done + {n}))) ==
            Weight(profile.log, Below(ToplevelPaths(done))) + if n.toplevel then n.total else 0
  {
    var nodes, at, index, log := profile.nodes, profile.at, profile.nodes_by_symbol, profile.log;
    assert AllPaths(done + {n}) == AllPaths(done) + {n.path};
    AmongExtend(log, AllPaths(done), n.path);
    if n.toplevel {
      assert ToplevelPaths(done + {n}) == ToplevelPaths(done) + {n.path};
      forall q | q in ToplevelPaths(done)
        ensures !Starts(q, n.path) && !Starts(n.path, q)
      {
        var m :| m in done && m.toplevel && m.path == q;
        SameSymbolDisjoint(nodes, at, index, n, m);
      }
      BelowExtend(log, ToplevelPaths(done), n.path);
      ShareOfDone(log, n.path);
    } else {
      assert ToplevelPaths(done + {n}) == ToplevelPaths(done);
    }
  }

  lemma ShareOfDone(log: Log<Symbol>, p: Path<Symbol>)
    requires p.Frame?
    ensures Share(log, p, Root, 0) == Weight(log, Begins(p))
  {
  }

  /** The whole chain of a symbol accounts for every stack with the symbol. */
  lemma WholeChain(profile: Profile, first: ProfileNode)
    requires profile.Valid() && first in profile.nodes
    requires first.symbol in profile.nodes_by_symbol && profile.nodes_by_symbol[first.symbol] == first
    ensures Weight(profile.log, Below(ToplevelPaths(Chain(first)))) == Weight(profile.log, Mentions(first.symbol))
    ensures Weight(profile.log, Among(AllPaths(Chain(first)))) == Weight(profile.log, EndsIn(first.symbol))
  {
    var nodes, index, s := profile.nodes, profile.nodes_by_symbol, first.symbol;
    assert IndexAt(nodes, index, first);
    forall m | m in Chain(first)
      ensures m in nodes && m.path.Frame? && m.path.last == s && (m.toplevel ==> Toplevel(m.path))
    {
      assert Linked(m) && IndexAt(nodes, index, m);
    }
    forall p | p in profile.at && p.last == s
      ensures p in AllPaths(Chain(first)) && (Toplevel(p) ==> p in ToplevelPaths(Chain(first)))
    {
      var n := profile.at[p];
      assert Linked(n) && IndexAt(nodes, index, n);
    }
    forall t | t in Traces(profile.log) && Has(t, s) ensures UpTo(t, s) in ToplevelPaths(Chain(first)) {
      UpToIsToplevel(t, s);
      assert profile.Reaches(t);
    }
    forall t | t in Traces(profile.log) && t.Frame? && t.last == s ensures t in AllPaths(Chain(first)) {
      assert profile.Reaches(t);
    }
    ToplevelCover(profile.log, ToplevelPaths(Chain(first)), s);
    EndCover(profile.log, AllPaths(Chain(first)), s);
  }

  /** add_function: adds up one chain. */
  method AddFunction(profile: Profile, first: ProfileNode) returns (func: ProfileFunc)
    requires profile.Valid() && first in profile.nodes
    requires first.symbol in profile.nodes_by_symbol && profile.nodes_by_symbol[first.symbol] == first
    ensures fresh(func) && func.node == first && Sums(func, profile.log, first.symbol)
  {
    hide Profile.Valid;
    func := new ProfileFunc(first);
    ghost var done: set<ProfileNode> := {};
    NoWeight(profile.log);
    var node: ProfileNode? := first;
    while node != null
      invariant profile.Valid() && done <= profile.nodes
      invariant node != null ==> node in profile.nodes && node.symbol == first.symbol
      invariant forall m :: m in done ==> m.symbol == first.symbol
      invariant done !! Chain(node) && done + Chain(node) == Chain(first)
      invariant func.self == Weight(profile.log, Among(AllPaths(done)))
      invariant func.total == Weight(profile.log, Below(ToplevelPaths(done)))
      decreases Chain(node)
    {
      NextInChain(profile, node);
      ChainStep(profile, node, done);
      func.self := func.self + node.self;
      if node.toplevel {
        func.total := func.total + node.total;
      }
      done := done + {node};
      node := node.next;
    }
    WholeChain(profile, first);
  }

  lemma NextInChain(profile: Profile, n: ProfileNode)
    requires profile.Valid() && n in profile.nodes
    ensures Chain(n) == {n} + Chain(n.next) && n !in Chain(n.next)
    ensures n.next != null ==> n.next in profile.nodes && n.next.symbol == n.symbol
  {
    assert IndexAt(profile.nodes, profile.nodes_by_symbol, n);
  }

  lemma NoWeight(log: Log<Symbol>)
    ensures Weight(log, Among(AllPaths({}))) == 0 && Weight(log, Below(ToplevelPaths({}))) == 0
  {
    WeightNone(log, Among(AllPaths({})));
    WeightNone(log, Below(ToplevelPaths({})));
  }

  // ----- All blocks

  /** The stack of a block as the profile sees it. */
  ghost function StackOf(b: Block, symbols: Symbols, skip: set<string>): Path<Symbol> {
    Filtered(Stash.PathOf(b.stack), symbols, skip)
  }

  ghost function Matching(blocks: set<Block>, q: Query<Symbol>, symbols: Symbols, skip: set<string>): set<Block> {
    set b | b in blocks && Holds(q, StackOf(b, symbols, skip))
  }

  /** The bytes of the blocks whose stack satisfies q. */
  ghost function BytesWhere(blocks: set<Block>, q: Query<Symbol>, symbols: Symbols, skip: set<string>): int {
    SetBytes(Matching(blocks, q, symbols, skip))
  }

  /** The log after the blocks of a list, first one first. */
  ghost function Logged(log: Log<Symbol>, blocks: List<Block>, symbols: Symbols, skip: set<string>): Log<Symbol>
    decreases blocks
  {
    if blocks.Nil? then log
    else Logged(Add(log, StackOf(blocks.head, symbols, skip), blocks.head.size), blocks.tail, symbols, skip)
  }

  /** What a query weighs in the log is what it matches among the blocks. */
  lemma {:induction false} LoggedWeight(log: Log<Symbol>, blocks: List<Block>, symbols: Symbols, skip: set<string>,
          q: Query<Symbol>)
    requires NoRepeats(blocks)
    ensures Weight(Logged(log, blocks, symbols, skip), q) ==
            Weight(log, q) + BytesWhere(Elements(blocks), q, symbols, skip)
    decreases blocks
  {
    if blocks.Cons? {
      var b, t := blocks.head, StackOf(blocks.head, symbols, skip);
      LoggedWeight(Add(log, t, b.size), blocks.tail, symbols, skip, q);
      var all, rest := Matching(Elements(blocks), q, symbols, skip), Matching(Elements(blocks.tail), q, symbols, skip);
      if Holds(q, t) {
        assert all - {b} == rest;
        SetBytesWithout(all, b);
      } else {
        assert all == rest;
      }
    } else {
      assert Matching(Elements(blocks), q, symbols, skip) == {};
    }
  }

  lemma {:induction false} LoggedSizes(log: Log<Symbol>, blocks: List<Block>, symbols: Symbols, skip: set<string>)
    requires NonNegative(log)
    ensures NonNegative(Logged(log, blocks, symbols, skip))
    decreases blocks
  {
    if blocks.Cons? {
      LoggedSizes(Add(log, StackOf(blocks.head, symbols, skip), blocks.head.size), blocks.tail, symbols, skip);
    }
  }

  /** process_block_foreach with add_block_to_list. */
  method BlockList(table: BlockTable, ghost known: set<Block>) returns (blocks: List<Block>)
    requires TableOk(table, known)
    ensures NoRepeats(blocks) && Elements(blocks) == BlocksOf(table)
  {
    blocks := Nil;
    var rest := table;
    while rest != map[]
      invariant forall a :: a in rest ==> a in table && rest[a] == table[a]
      invariant NoRepeats(blocks)
      invariant forall b :: b in Elements(blocks) ==> InTable(table, b) && b.addr !in rest
      invariant forall a :: a in table && a !in rest ==> table[a] in Elements(blocks)
      decreases |rest|
    {
      var a := PickKey(rest);
      blocks := Cons(rest[a], blocks);
      rest := rest - {a};
    }
    BlocksOfTable(table, known);
  }

  /** profile_build_tree */
  method BuildTree(profile: Profile, blocks: List<Block>, skip: set<string>)
    requires profile.Valid()
    modifies profile`roots, profile`nodes_by_symbol, profile`nodes, profile`at, profile`kids, profile`log, profile.nodes
    ensures profile.Valid() && fresh(profile.nodes - old(profile.nodes))
    ensures profile.log == Logged(old(profile.log), blocks, profile.symbols, skip)
  {
    hide Profile.Valid;
    var list := blocks;
    while list.Cons?
      invariant profile.Valid() && fresh(profile.nodes - old(profile.nodes))
      invariant Logged(profile.log, list, profile.symbols, skip) ==
                Logged(old(profile.log), blocks, profile.symbols, skip)
      decreases list
    {
      var stack := CreateStackList(list.head.stack, profile.symbols, skip);
      profile.AddStackTrace(stack, list.head.size);
      list := list.tail;
    }
  }

  ghost predicate RowOk(profile: Profile, f: ProfileFunc)
    reads profile, f
  {
    && f.node != null && f.node in profile.nodes && Sums(f, profile.log, f.node.symbol)
    && f.node.symbol in profile.nodes_by_symbol && profile.nodes_by_symbol[f.node.symbol] == f.node
  }

  /** Every row has its sums, and no function has two rows. */
  ghost predicate Rows(profile: Profile, functions: seq<ProfileFunc>)
    reads profile, functions
  {
    && (forall i :: 0 <= i < |functions| ==> RowOk(profile, functions[i]))
    && (forall i, j :: 0 <= i < j < |functions| ==> functions[i].node.symbol != functions[j].node.symbol)
  }

  /** The functions that have one of the first n rows. */
  ghost function RowSymbols(functions: seq<ProfileFunc>, n: nat): set<Symbol>
    requires n <= |functions|
  {
    set i | 0 <= i < n && functions[i].node != null :: functions[i].node.symbol
  }

  /** g_hash_table_foreach with add_function, in no particular order. */
  method AddFunctions(profile: Profile) returns (functions: seq<ProfileFunc>)
    requires profile.Valid()
    ensures Rows(profile, functions) && RowSymbols(functions, |functions|) == profile.nodes_by_symbol.Keys
  {
    hide Profile.Valid, Rows, RowOk, RowSymbols;
    functions := [];
    NoRows(profile);
    var rest := profile.nodes_by_symbol;
    while rest != map[]
      invariant forall s :: s in rest ==> s in profile.nodes_by_symbol && rest[s] == profile.nodes_by_symbol[s]
      invariant Rows(profile, functions)
      invariant RowSymbols(functions, |functions|) == profile.nodes_by_symbol.Keys - rest.Keys
      decreases |rest|
    {
      var s := PickKey(rest);
      var func := FunctionOf(profile, s);
      RowsGrow(profile, functions, func, s);
      functions := functions + [func];
      rest := rest - {s};
    }
  }

  method FunctionOf(profile: Profile, s: Symbol) returns (func: ProfileFunc)
    requires profile.Valid() && s in profile.nodes_by_symbol
    ensures func.node != null && RowOk(profile, func) && func.node.symbol == s
  {
    func := AddFunction(profile, profile.nodes_by_symbol[s]);
  }

  lemma NoRows(profile: Profile)
    ensures Rows(profile, []) && RowSymbols([], 0) == {}
  {
  }

  lemma RowsGrow(profile: Profile, functions: seq<ProfileFunc>, func: ProfileFunc, s: Symbol)
    requires Rows(profile, functions) && s !in RowSymbols(functions, |functions|)
    requires func.node != null && RowOk(profile, func) && func.node.symbol == s
    ensures Rows(profile, functions + [func])
    ensures RowSymbols(functions + [func], |functions| + 1) == RowSymbols(functions, |functions|) + {s}
  {
    var more := functions + [func];
    forall t | t in RowSymbols(functions, |functions|) + {s} ensures t in RowSymbols(more, |more|) {
      if t == s {
        assert more[|functions|] == func;
      } else {
        var i :| 0 <= i < |functions| && functions[i].node != null && functions[i].node.symbol == t;
        assert more[i] == functions[i];
      }
    }
    forall i | 0 <= i < |functions| ensures functions[i].node.symbol in RowSymbols(functions, |functions|) {
      assert RowOk(profile, functions[i]);
    }
  }

  /** profile_create: a tree of all blocks, a row for every function, and the number of bytes. */
  method CreateProfile(process: MPProcess, symbols: Symbols, skip: set<string>)
    returns (profile: Profile)
    requires process.Registered() && process.server.Accounted()
    ensures fresh(profile) && profile.Valid() && profile.symbols == symbols
    ensures SumsUp(profile.log, BlocksOf(process.block_table), symbols, skip)
    ensures profile.n_bytes == SetBytes(BlocksOf(process.block_table))
    ensures Rows(profile, profile.functions)
    ensures RowSymbols(profile.functions, |profile.functions|) == profile.nodes_by_symbol.Keys
  {
    hide Profile.Valid, MPServer.Accounted, Rows, RowSymbols, SetBytes;
    process.MyTable();
    var blocks := BlockList(process.block_table, process.server.blocks);
    profile := new Profile(symbols);
    BuildTree(profile, blocks, skip);
    LoggedSumsUp(blocks, symbols, skip);
    var functions := AddFunctions(profile);
    var n_bytes := CountBytes(blocks);
    Complete(profile, functions, n_bytes);
  }

  /** The log of the profile says about every query what the blocks say. */
  ghost predicate SumsUp(log: Log<Symbol>, blocks: set<Block>, symbols: Symbols, skip: set<string>) {
    NonNegative(log) && forall q :: Weight(log, q) == BytesWhere(blocks, q, symbols, skip)
  }

  lemma LoggedSumsUp(blocks: List<Block>, symbols: Symbols, skip: set<string>)
    requires NoRepeats(blocks)
    ensures SumsUp(Logged(Empty, blocks, symbols, skip), Elements(blocks), symbols, skip)
  {
    LoggedSizes(Empty, blocks, symbols, skip);
    forall q
      ensures Weight(Logged(Empty, blocks, symbols, skip), q) == BytesWhere(Elements(blocks), q, symbols, skip)
    {
      LoggedWeight(Empty, blocks, symbols, skip, q);
    }
  }

  method Complete(profile: Profile, functions: seq<ProfileFunc>, n_bytes: nat)
    requires profile.Valid() && Rows(profile, functions)
    modifies profile`functions, profile`n_bytes
    ensures profile.functions == functions && profile.n_bytes == n_bytes
    ensures profile.Valid() && Rows(profile, functions)
  {
    profile.functions := functions;
    profile.n_bytes := n_bytes;
  }

  /** src/profile.c:187-192 */
  method CountBytes(blocks: List<Block>) returns (bytes: nat)
    requires NoRepeats(blocks)
    ensures bytes == SetBytes(Elements(blocks))
  {
    bytes := 0;
    var list := blocks;
    while list.Cons?
      invariant bytes + ListBytes(list) == ListBytes(blocks)
      decreases list
    {
      bytes := bytes + list.head.size;
      list := list.tail;
    }
    ListBytesOfSet(blocks);
  }
}
