/** The leak report as a function of values: which addresses of a heap are reported depends on
    the sizes of its blocks, the areas of roots and the memory, and on nothing else. */
module HeapLeaks {
  import opened StackStash
  import opened Events
  import opened Process
  import opened BlockSets
  import opened LeakDetect
  import opened LeakReport
  import opened Reachability

  type Area = (Addr, nat)

  /** The block at a is the last one that starts at or below address, and contains it. */
  ghost predicate HitAt<S>(heap: map<Addr, Cell<S>>, address: Addr, a: Addr) {
    && a in heap && a <= address < a + heap[a].size
    && (forall c :: c in heap && c <= address ==> c <= a)
  }

  ghost function WordAt(from: Addr, i: nat, word: nat): Addr {
    from + i * word
  }

  ghost predicate ReadableAt(m: Memory, from: Area) {
    forall i: nat :: i < (from.1 + 3) / 4 ==> WordAt(from.0, i, m.word) in m.words
  }

  ghost predicate PointsAt<S>(m: Memory, heap: map<Addr, Cell<S>>, from: Addr, i: nat, a: Addr) {
    WordAt(from, i, m.word) in m.words && HitAt(heap, m.words[WordAt(from, i, m.word)], a)
  }

  ghost predicate TargetAt<S>(m: Memory, heap: map<Addr, Cell<S>>, from: Area, a: Addr) {
    ReadableAt(m, from) && exists i: nat :: i < Words(from.1, m.word) && PointsAt(m, heap, from.0, i, a)
  }

  ghost function RootTargetsAt<S>(m: Memory, heap: map<Addr, Cell<S>>, areas: set<Area>): set<Addr> {
    set a | a in heap && exists r :: r in areas && TargetAt(m, heap, r, a)
  }

  ghost function EdgesAt<S>(m: Memory, heap: map<Addr, Cell<S>>): set<(Addr, Addr)> {
    set c, a | c in heap && a in heap && TargetAt(m, heap, (c, heap[c].size), a) :: (c, a)
  }

  ghost predicate ReachableAt<S>(m: Memory, heap: map<Addr, Cell<S>>, areas: set<Area>, a: Addr) {
    Reached(RootTargetsAt(m, heap, areas), EdgesAt(m, heap), a)
  }

  /** The addresses that a report lists. */
  ghost function LeakedAt<S>(m: Memory, heap: map<Addr, Cell<S>>, areas: set<Area>): set<Addr> {
    set a | a in heap && !ReachableAt(m, heap, areas, a)
  }

  lemma SameTargets<S, T>(m: Memory, h: map<Addr, Cell<S>>, k: map<Addr, Cell<T>>, from: Area, a: Addr)
    requires h.Keys == k.Keys && forall a :: a in h ==> h[a].size == k[a].size
    ensures TargetAt(m, h, from, a) <==> TargetAt(m, k, from, a)
  {
    forall i: nat ensures PointsAt(m, h, from.0, i, a) <==> PointsAt(m, k, from.0, i, a) {
    }
  }

  /** Stacks play no part in a report. */
  lemma SameHeapLeaks<S, T>(m: Memory, h: map<Addr, Cell<S>>, k: map<Addr, Cell<T>>, areas: set<Area>)
    requires h.Keys == k.Keys && forall a :: a in h ==> h[a].size == k[a].size
    ensures LeakedAt(m, h, areas) == LeakedAt(m, k, areas)
  {
    forall from: Area, a ensures TargetAt(m, h, from, a) <==> TargetAt(m, k, from, a) {
      SameTargets(m, h, k, from, a);
    }
    hide TargetAt, Reached;
    assert RootTargetsAt(m, h, areas) == RootTargetsAt(m, k, areas);
    assert EdgesAt(m, h) == EdgesAt(m, k);
  }

  // ----- The report of leaks_find

  ghost predicate SameSizes<S>(table: BlockTable, heap: map<Addr, Cell<S>>) {
    && heap.Keys == table.Keys
    && (forall a :: a in table ==> table[a].addr == a && table[a].size == heap[a].size)
  }

  ghost function AddrOf(b: Block): Addr {
    b.addr
  }

  ghost function AddrsOf(blocks: set<Block>): set<Addr> {
    set b | b in blocks :: b.addr
  }

  ghost predicate SameAreas(roots: set<Block>, areas: set<Area>) {
    && (forall r :: r in roots ==> (r.addr, r.size) in areas)
    && (forall a :: a in areas ==> exists r :: r in roots && r.addr == a.0 && r.size == a.1)
  }

  lemma {:induction false} RootsHaveAreas(roots: List<Block>)
    ensures SameAreas(Elements(roots), Elements(RootAreas(roots)))
  {
    if roots.Cons? {
      RootsHaveAreas(roots.tail);
    }
  }

  lemma InBlocks<S>(table: BlockTable, heap: map<Addr, Cell<S>>, b: Block)
    requires SameSizes(table, heap)
    ensures b in BlocksOf(table) <==> b.addr in heap && table[b.addr] == b
    ensures b in BlocksOf(table) ==> heap[b.addr].size == b.size
  {
  }

  lemma HitSame<S>(table: BlockTable, heap: map<Addr, Cell<S>>, address: Addr, b: Block)
    requires SameSizes(table, heap) && b in BlocksOf(table)
    ensures Hit(BlocksOf(table), address, b) <==> HitAt(heap, address, b.addr)
  {
    InBlocks(table, heap, b);
    if Hit(BlocksOf(table), address, b) {
      forall c | c in heap && c <= address ensures c <= b.addr {
        assert table[c] in BlocksOf(table);
      }
    }
  }

  lemma TargetSame<S>(m: Memory, table: BlockTable, heap: map<Addr, Cell<S>>, src: Block, b: Block)
    requires SameSizes(table, heap) && b in BlocksOf(table)
    ensures Target(m, BlocksOf(table), src, b) <==> TargetAt(m, heap, (src.addr, src.size), b.addr)
  {
    forall i: nat ensures WordAddr(src, i, m.word) == WordAt(src.addr, i, m.word) {
    }
    forall i: nat | i < (src.size + 3) / 4
      ensures WordAddr(src, i, m.word) in m.words <==> WordAt(src.addr, i, m.word) in m.words
    {
    }
    assert Readable(m, src) <==> ReadableAt(m, (src.addr, src.size));
    forall i: nat
      ensures PointsTo(m, BlocksOf(table), src, i, b) <==> PointsAt(m, heap, src.addr, i, b.addr)
    {
      if WordAddr(src, i, m.word) in m.words {
        HitSame(table, heap, m.words[WordAddr(src, i, m.word)], b);
      }
    }
  }

  /** The graph of the blocks is that of their addresses. */
  lemma GraphSame<S>(m: Memory, table: BlockTable, heap: map<Addr, Cell<S>>, roots: set<Block>, areas: set<Area>)
    requires SameSizes(table, heap) && SameAreas(roots, areas)
    ensures Renamed(AddrOf, BlocksOf(table), RootTargets(m, BlocksOf(table), roots), Edges(m, BlocksOf(table)),
                    RootTargetsAt(m, heap, areas), EdgesAt(m, heap))
  {
    hide Target, TargetAt;
    var blocks := BlocksOf(table);
    forall src, b | b in blocks ensures Target(m, blocks, src, b) <==> TargetAt(m, heap, (src.addr, src.size), b.addr) {
      TargetSame(m, table, heap, src, b);
    }
    forall b | b in blocks ensures b.addr in heap && heap[b.addr].size == b.size {
      InBlocks(table, heap, b);
    }
    forall c | c in heap ensures table[c] in blocks && AddrOf(table[c]) == c {
    }
  }

  /** The blocks that leaks_find should report are those at the addresses that the heap says. */
  lemma LeakedSame<S>(m: Memory, table: BlockTable, heap: map<Addr, Cell<S>>, roots: List<Block>)
    requires SameSizes(table, heap)
    ensures AddrsOf(Leaked(m, table, Elements(roots))) == LeakedAt(m, heap, Elements(RootAreas(roots)))
  {
    hide Reachable, ReachableAt;
    var areas := Elements(RootAreas(roots));
    RootsHaveAreas(roots);
    forall b | b in BlocksOf(table)
      ensures Reachable(m, BlocksOf(table), Elements(roots), b) <==> ReachableAt(m, heap, areas, b.addr)
    {
      ReachableSame(m, table, heap, Elements(roots), areas, b);
    }
    forall a | a in heap ensures table[a] in BlocksOf(table) && table[a].addr == a {
    }
  }

  lemma ReachableSame<S>(m: Memory, table: BlockTable, heap: map<Addr, Cell<S>>, roots: set<Block>,
      areas: set<Area>, b: Block)
    requires SameSizes(table, heap) && SameAreas(roots, areas) && b in BlocksOf(table)
    ensures Reachable(m, BlocksOf(table), roots, b) <==> ReachableAt(m, heap, areas, b.addr)
  {
    hide RootTargets, RootTargetsAt, Edges, EdgesAt;
    GraphSame(m, table, heap, roots, areas);
    RenamedReached(AddrOf, BlocksOf(table), RootTargets(m, BlocksOf(table), roots), Edges(m, BlocksOf(table)),
                   RootTargetsAt(m, heap, areas), EdgesAt(m, heap), b);
  }
}
