/** What the numbers of a profile add up to. */
module ProfileTheorems {
  import opened Ledger
  import opened EventTheorems
  import opened Process
  import opened BlockSets
  import opened ProfileTree
  import opened Profiles

  // ----- Functions

  /** The bytes of the blocks that a function allocated, directly or not: each block counts
      once, however often the function is on its stack. */
  lemma FunctionTotals(profile: Profile, f: ProfileFunc, blocks: set<Block>, skip: set<string>)
    requires Rows(profile, profile.functions) && f in profile.functions
    requires SumsUp(profile.log, blocks, profile.symbols, skip)
    ensures f.node != null
    ensures f.total == SetBytes(set b | b in blocks && Has(StackOf(b, profile.symbols, skip), f.node.symbol))
    ensures f.self == SetBytes(set b | b in blocks && StackOf(b, profile.symbols, skip).Frame?
                                 && StackOf(b, profile.symbols, skip).last == f.node.symbol)
  {
    hide SetBytes;
    assert RowOk(profile, f);
    var symbols, s := profile.symbols, f.node.symbol;
    assert Matching(blocks, Mentions(s), symbols, skip) == set b | b in blocks && Has(StackOf(b, symbols, skip), s);
    assert Matching(blocks, EndsIn(s), symbols, skip) ==
           set b | b in blocks && StackOf(b, symbols, skip).Frame? && StackOf(b, symbols, skip).last == s;
    assert Weight(profile.log, Mentions(s)) == BytesWhere(blocks, Mentions(s), symbols, skip);
    assert Weight(profile.log, EndsIn(s)) == BytesWhere(blocks, EndsIn(s), symbols, skip);
  }

  /** A function without a row is on the stack of no block that has a size. */
  lemma NoRowNoBytes(profile: Profile, s: Symbol, blocks: set<Block>, skip: set<string>)
    requires profile.Valid() && s !in RowSymbols(profile.functions, |profile.functions|)
    requires RowSymbols(profile.functions, |profile.functions|) == profile.nodes_by_symbol.Keys
    requires SumsUp(profile.log, blocks, profile.symbols, skip)
    ensures SetBytes(set b | b in blocks && Has(StackOf(b, profile.symbols, skip), s)) == 0
  {
    hide SetBytes, Profile.Valid, RowSymbols;
    NotOnAnyStack(profile, s);
    assert Matching(blocks, Mentions(s), profile.symbols, skip) ==
           set b | b in blocks && Has(StackOf(b, profile.symbols, skip), s);
    assert Weight(profile.log, Mentions(s)) == BytesWhere(blocks, Mentions(s), profile.symbols, skip);
  }

  /** Every function on a stack is in the table of symbols. */
  lemma OnStackIndexed(profile: Profile, t: Path<Symbol>, s: Symbol)
    requires profile.Valid() && t in Traces(profile.log) && Has(t, s)
    ensures s in profile.nodes_by_symbol
  {
    UpToIsToplevel(t, s);
    assert profile.Reaches(t);
    var n := profile.at[UpTo(t, s)];
    assert Linked(n);
    assert IndexAt(profile.nodes, profile.nodes_by_symbol, n);
  }

  lemma NotOnAnyStack(profile: Profile, s: Symbol)
    requires profile.Valid() && s !in profile.nodes_by_symbol
    ensures Weight(profile.log, Mentions(s)) == 0
  {
    hide Profile.Valid;
    forall t | t in Traces(profile.log) && Has(t, s) ensures s in profile.nodes_by_symbol {
      OnStackIndexed(profile, t, s);
    }
    WeightNone(profile.log, Mentions(s));
  }

  /** The sum of the self values of the first k rows. */
  ghost function SelfSum(functions: seq<ProfileFunc>, k: nat): int
    requires k <= |functions|
    reads functions
  {
    if k == 0 then 0 else SelfSum(functions, k - 1) + functions[k - 1].self
  }

  lemma {:induction false} SelfSumIsWeight(profile: Profile, k: nat)
    requires Rows(profile, profile.functions) && k <= |profile.functions|
    ensures SelfSum(profile.functions, k) == Weight(profile.log, EndsInSome(RowSymbols(profile.functions, k)))
  {
    var log, functions := profile.log, profile.functions;
    if k == 0 {
      WeightNone(log, EndsInSome(RowSymbols(functions, 0)));
    } else {
      SelfSumIsWeight(profile, k - 1);
      assert RowOk(profile, functions[k - 1]);
      var s := functions[k - 1].node.symbol;
      assert RowSymbols(functions, k) == RowSymbols(functions, k - 1) + {s};
      WeightSplit(log, EndsInSome(RowSymbols(functions, k)), EndsInSome(RowSymbols(functions, k - 1)), EndsIn(s));
    }
  }

  /** The self values of all functions and the bytes of blocks whose whole stack was skipped
      are all the bytes there are. */
  lemma SelfValuesAddUp(profile: Profile, blocks: set<Block>, skip: set<string>)
    requires profile.Valid() && Rows(profile, profile.functions)
    requires RowSymbols(profile.functions, |profile.functions|) == profile.nodes_by_symbol.Keys
    requires SumsUp(profile.log, blocks, profile.symbols, skip) && profile.n_bytes == SetBytes(blocks)
    ensures SelfSum(profile.functions, |profile.functions|)
              + SetBytes(set b | b in blocks && StackOf(b, profile.symbols, skip) == Root)
            == profile.n_bytes
  {
    hide Profile.Valid, RowOk, RowSymbols, SetBytes;
    var log, all := profile.log, profile.nodes_by_symbol.Keys;
    SelfSumIsWeight(profile, |profile.functions|);
    forall t | t in Traces(log) && t.Frame? ensures t.last in all {
      OnStackIndexed(profile, t, t.last);
    }
    WeightSplit(log, Everything, EndsInSome(all), Is(Root));
    assert Matching(blocks, Everything, profile.symbols, skip) == blocks;
    assert Matching(blocks, Is(Root), profile.symbols, skip) == set b | b in blocks &&
        StackOf(b, profile.symbols, skip) == Root;
    assert Weight(log, Everything) == BytesWhere(blocks, Everything, profile.symbols, skip);
    assert Weight(log, Is(Root)) == BytesWhere(blocks, Is(Root), profile.symbols, skip);
  }

  /** The profile counts the bytes that the process counts. */
  lemma SameBytes(profile: Profile, process: MPProcess)
    requires process.Registered() && process.server.Accounted() && EventTheorems.Counted(process.TheCore())
    requires profile.n_bytes == SetBytes(BlocksOf(process.block_table))
    ensures process.bytes_used == Stash.Wrap32(profile.n_bytes)
  {
    hide MPServer.Accounted, Stash.Wrap32, SetBytes, HeapBytes, HeapOf;
    process.MyTable();
    TableBytes(process.block_table, process.server.blocks);
  }

  // ----- Nodes

  /** No counter of a profile exceeds the number of bytes profiled, so that none of them
      overflows unless that number does. */
  lemma CountersFit(profile: Profile, blocks: set<Block>, skip: set<string>)
    requires profile.Valid() && Rows(profile, profile.functions)
    requires SumsUp(profile.log, blocks, profile.symbols, skip) && profile.n_bytes == SetBytes(blocks)
    ensures forall n :: n in profile.nodes ==> n.self <= n.total <= profile.n_bytes
    ensures forall f :: f in profile.functions ==> f.self <= f.total <= profile.n_bytes
  {
    hide SetBytes;
    var log := profile.log;
    assert Matching(blocks, Everything, profile.symbols, skip) == blocks;
    assert Weight(log, Everything) == BytesWhere(blocks, Everything, profile.symbols, skip);
    forall n | n in profile.nodes ensures n.self <= n.total <= profile.n_bytes {
      ShareOfDone(log, n.path);
      WeightMonotone(log, Is(n.path), Begins(n.path));
      WeightMonotone(log, Begins(n.path), Everything);
    }
    forall i | 0 <= i < |profile.functions|
      ensures profile.functions[i].self <= profile.functions[i].total <= profile.n_bytes
    {
      assert RowOk(profile, profile.functions[i]);
      var s := profile.functions[i].node.symbol;
      WeightMonotone(log, EndsIn(s), Mentions(s));
      WeightMonotone(log, Mentions(s), Everything);
    }
  }

  /** The sum of the totals of the first k nodes of an array. */
  ghost function KidSum(kids: seq<ProfileNode>, k: nat): int
    requires k <= |kids|
    reads kids
  {
    if k == 0 then 0 else KidSum(kids, k - 1) + kids[k - 1].total
  }

  ghost function KidPaths(kids: seq<ProfileNode>, k: nat): set<Path<Symbol>>
    requires k <= |kids|
  {
    set i | 0 <= i < k :: kids[i].path
  }

  lemma {:induction false} KidSumIsWeight(profile: Profile, parent: ProfileNode?, k: nat)
    requires profile.Valid() && (parent != null ==> parent in profile.nodes)
    requires k <= |profile.Children(parent)|
    ensures KidSum(profile.Children(parent), k) == Weight(profile.log, Below(KidPaths(profile.Children(parent), k)))
  {
    var list, log := profile.Children(parent), profile.log;
    if k == 0 {
      WeightNone(log, Below(KidPaths(list, 0)));
    } else {
      KidSumIsWeight(profile, parent, k - 1);
      assert list == profile.kids[parent];
      assert KidsOf(profile.nodes, profile.kids, parent);
      var n := list[k - 1];
      assert KidPaths(list, k) == KidPaths(list, k - 1) + {n.path};
      forall q | q in KidPaths(list, k - 1)
        ensures !Starts(q, n.path) && !Starts(n.path, q)
      {
        var i :| 0 <= i < k - 1 && list[i].path == q;
        KidsDisjoint(profile, list[i], n);
      }
      BelowExtend(log, KidPaths(list, k - 1), n.path);
      ShareOfDone(log, n.path);
    }
  }

  lemma KidsDisjoint(profile: Profile, n: ProfileNode, m: ProfileNode)
    requires profile.Shape() && n in profile.nodes && m in profile.nodes && m != n && m.parent == n.parent
    ensures !Starts(m.path, n.path) && !Starts(n.path, m.path)
  {
    assert n.path.up == PathOf(n.parent) == PathOf(m.parent) == m.path.up;
    if Starts(m.path, n.path) {
      StartsLength(m.path, n.path);
    }
    if Starts(n.path, m.path) {
      StartsLength(n.path, m.path);
    }
  }

  /** The total of a node is its self value and the totals of its children. */
  lemma TotalsAddUp(profile: Profile, n: ProfileNode)
    requires profile.Valid() && n in profile.nodes
    ensures n.total == n.self + KidSum(n.children, |n.children|)
  {
    var list, log, kids := n.children, profile.log, KidPaths(n.children, |n.children|);
    KidSumIsWeight(profile, n, |list|);
    forall t | t in Traces(log)
      ensures Holds(Begins(n.path), t) == (Holds(Is(n.path), t) || Holds(Below(kids), t))
      ensures !(Holds(Is(n.path), t) && Holds(Below(kids), t))
    {
      KidsCover(profile, n, t);
    }
    WeightSplit(log, Begins(n.path), Is(n.path), Below(kids));
    ShareOfDone(log, n.path);
  }

  lemma KidsCover(profile: Profile, n: ProfileNode, t: Path<Symbol>)
    requires profile.Valid() && n in profile.nodes && profile.Reaches(t)
    ensures var kids := KidPaths(n.children, |n.children|);
            && Starts(n.path, t) == (t == n.path || Holds(Below(kids), t))
            && !(t == n.path && Holds(Below(kids), t))
  {
    var kids := KidPaths(n.children, |n.children|);
    assert n.children == profile.kids[n];
    assert KidsOf(profile.nodes, profile.kids, n);
    if Starts(n.path, t) && n.path != t {
      var q := StepTowards(n.path, t);
      var m := profile.at[q];
      assert m.path == Frame(PathOf(m.parent), m.symbol);
      assert m.parent == n;
      assert KidAt(profile.kids, m);
      assert q in kids;
    }
    if Holds(Below(kids), t) {
      var q :| q in kids && Starts(q, t);
      var i :| 0 <= i < |n.children| && n.children[i].path == q;
      assert q.up == n.path;
      assert Starts(n.path, q);
      StartsIsTransitive(n.path, q, t);
      StartsLength(q, t);
    }
  }
}
