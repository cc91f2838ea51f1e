/** What the leak report means: bytes are conserved, and where the report can be wrong. */
module LeakTheorems {
  import opened StackStash
  import opened Events
  import opened EventTheorems
  import opened Process
  import opened Reachability
  import opened BlockSets
  import opened LeakDetect
  import opened LeakReport

  // ----- Bytes

  lemma PartsOfTable(table: BlockTable, blocks: set<Block>, leaks: List<Block>)
    requires TableOk(table, blocks) && NoRepeats(leaks) && Elements(leaks) <= BlocksOf(table)
    ensures HeapBytes(HeapOf(table)) == ListBytes(leaks) + SetBytes(BlocksOf(table) - Elements(leaks))
  {
    TableBytes(table, blocks);
    ListBytesOfSet(leaks);
    SetBytesSplit(BlocksOf(table), Elements(leaks));
  }

  /** The bytes reported as leaked and the bytes of the blocks that are reachable make up
      the bytes in use, as far as 32 bits can tell. */
  lemma LeakedAndReachableBytes(process: MPProcess, leaks: List<Block>, m: Memory, roots: set<Block>)
    requires process.Registered() && process.server.Accounted() && EventTheorems.Counted(process.TheCore())
    requires NoRepeats(leaks) && Elements(leaks) == Leaked(m, process.block_table, roots)
    ensures var reachable := set b | b in BlocksOf(process.block_table) &&
              Reachable(m, BlocksOf(process.block_table), roots, b);
            process.bytes_used == Wrap32(ListBytes(leaks) + SetBytes(reachable))
  {
    hide MPServer.Accounted, Reachable, Wrap32, NoRepeats, SetBytes, ListBytes, HeapBytes, HeapOf;
    process.MyTable();
    var table := process.block_table;
    PartsOfTable(table, process.server.blocks, leaks);
    assert BlocksOf(table) - Elements(leaks) == set b | b in BlocksOf(table) && Reachable(m, BlocksOf(table), roots, b);
  }

  // ----- What a scan sees

  /** The scan of src tries to read the word at a: one for every four bytes. */
  ghost predicate IsRead(src: Block, word: nat, a: Addr)
    requires word > 0
  {
    src.addr <= a && (a - src.addr) % word == 0 && (a - src.addr) * 4 < src.size * word
  }

  /** The word at a lies wholly in src. */
  ghost predicate LiesIn(src: Block, word: nat, a: Addr)
    requires word > 0
  {
    src.addr <= a && (a - src.addr) % word == 0 && a + word <= src.addr + src.size
  }

  lemma IsReadIff(src: Block, word: nat, a: Addr)
    requires word == 4 || word == 8
    ensures IsRead(src, word, a) <==> exists i: nat :: i < (src.size + 3) / 4 && a == WordAddr(src, i, word)
  {
    if IsRead(src, word, a) {
      var i: nat := (a - src.addr) / word;
      assert i < (src.size + 3) / 4 && a == WordAddr(src, i, word);
    }
  }

  lemma LiesInIff(src: Block, word: nat, a: Addr)
    requires word == 4 || word == 8
    ensures LiesIn(src, word, a) <==> exists i: nat :: i < Words(src.size, word) && a == WordAddr(src, i, word)
  {
    if LiesIn(src, word, a) {
      var i: nat := (a - src.addr) / word;
      assert i < Words(src.size, word) && a == WordAddr(src, i, word);
    }
  }

  /** Some word that lies wholly in src and can be read points into b. */
  ghost predicate Shows(m: Memory, blocks: set<Block>, src: Block, b: Block)
    requires m.Valid()
  {
    exists a: Addr :: a in m.words && LiesIn(src, m.word, a) && Hit(blocks, m.words[a], b)
  }

  /** Every word that the scan of src tries to read can be read. */
  ghost predicate AllRead(m: Memory, src: Block)
    requires m.Valid()
  {
    forall a: Addr :: IsRead(src, m.word, a) ==> a in m.words
  }

  /** A scan finds what a block shows, and finds nothing if a word that it reads is missing. */
  lemma TargetIff(m: Memory, blocks: set<Block>, src: Block, b: Block)
    requires m.Valid()
    ensures TrueTarget(m, blocks, src, b) <==> Shows(m, blocks, src, b)
    ensures Target(m, blocks, src, b) <==> AllRead(m, src) && Shows(m, blocks, src, b)
  {
    hide Hit, IsRead, LiesIn;
    forall a: Addr
      ensures IsRead(src, m.word, a) <==> exists i: nat :: i < (src.size + 3) / 4 && a == WordAddr(src, i, m.word)
      ensures LiesIn(src, m.word, a) <==> exists i: nat :: i < Words(src.size, m.word) && a == WordAddr(src, i, m.word)
    {
      IsReadIff(src, m.word, a);
      LiesInIff(src, m.word, a);
    }
    if i: nat :| i < Words(src.size, m.word) && PointsTo(m, blocks, src, i, b) {
      assert LiesIn(src, m.word, WordAddr(src, i, m.word));
    }
    if a: Addr :| a in m.words && LiesIn(src, m.word, a) && Hit(blocks, m.words[a], b) {
      var i: nat :| i < Words(src.size, m.word) && a == WordAddr(src, i, m.word);
      assert PointsTo(m, blocks, src, i, b);
    }
  }

  /** Whatever the scan of a root or of a block that is not reported finds is not reported. */
  lemma ShownIsNotLeaked(m: Memory, table: BlockTable, roots: set<Block>, src: Block, b: Block)
    requires m.Valid() && b in BlocksOf(table)
    requires src in roots || src in BlocksOf(table) - Leaked(m, table, roots)
    requires AllRead(m, src) && Shows(m, BlocksOf(table), src, b)
    ensures b !in Leaked(m, table, roots)
  {
    hide Shows, AllRead, Target, Reachable;
    TargetIff(m, BlocksOf(table), src, b);
    if src in roots {
      RootTargetReachable(m, BlocksOf(table), roots, src, b);
    } else {
      TargetReachable(m, BlocksOf(table), roots, src, b);
    }
  }

  /** Everything else is reported: any set of blocks that has all that scans of the roots and
      of its own blocks find has every block that is not reported. */
  lemma OthersAreLeaked(m: Memory, table: BlockTable, roots: set<Block>, found: set<Block>)
    requires m.Valid()
    requires forall src, b :: src in roots + found && b in BlocksOf(table)
                              && AllRead(m, src) && Shows(m, BlocksOf(table), src, b) ==>
                b in found
    ensures BlocksOf(table) - Leaked(m, table, roots) <= found
  {
    hide Shows, AllRead, Target, Reachable;
    forall src, b | src in roots + found && b in BlocksOf(table) && Target(m, BlocksOf(table), src, b)
      ensures b in found
    {
      TargetIff(m, BlocksOf(table), src, b);
    }
    forall b | b in BlocksOf(table) - Leaked(m, table, roots) ensures b in found {
      ClosedHasReachable(m, BlocksOf(table), roots, found, b);
    }
  }

  // ----- Where the scan reads too much

  /** The scan of b fails wherever the word at a cannot be read. */
  ghost predicate Needs(b: Block, word: nat, a: Addr) {
    forall m: Memory :: m.word == word && Readable(m, b) ==> a in m.words
  }

  /** The scan needs a word that starts behind the block exactly for blocks of five bytes or
      more on a machine with eight-byte words. */
  lemma ReadsBeyondIff(b: Block, word: nat)
    requires word == 4 || word == 8
    ensures (exists a: Addr :: a >= b.addr + b.size && Needs(b, word, a)) <==> word == 8 && b.size >= 5
  {
    if word == 8 && b.size >= 5 {
      var i: nat := (b.size + 3) / 4 - 1;
      var a := WordAddr(b, i, word);
      assert a == b.addr + 8 * i && Needs(b, word, a);
    }
    if a: Addr :| a >= b.addr + b.size && Needs(b, word, a) {
      var addrs := set i: nat | i < (b.size + 3) / 4 :: WordAddr(b, i, word);
      var least := Memory(map x | x in addrs :: 0, word);
      assert Readable(least, b) && a in addrs;
      var i: nat :| i < (b.size + 3) / 4 && a == WordAddr(b, i, word);
    }
  }

  /** Some complete word of src that can be read points into b, whatever else can be read. */
  ghost predicate TrueTarget(m: Memory, blocks: set<Block>, src: Block, b: Block) {
    exists i: nat :: i < Words(src.size, m.word) && PointsTo(m, blocks, src, i, b)
  }

  ghost function TrueRootTargets(m: Memory, blocks: set<Block>, roots: set<Block>): set<Block> {
    set b | b in blocks && exists r :: r in roots && TrueTarget(m, blocks, r, b)
  }

  ghost function TrueEdges(m: Memory, blocks: set<Block>): set<(Block, Block)> {
    set c, b | c in blocks && b in blocks && TrueTarget(m, blocks, c, b) :: (c, b)
  }

  /** A chain of readable pointers connects a root to the block. */
  ghost predicate TrulyReachable(m: Memory, blocks: set<Block>, roots: set<Block>, b: Block) {
    Reached(TrueRootTargets(m, blocks, roots), TrueEdges(m, blocks), b)
  }

  /** What the report should be if no word were ever missed. */
  ghost function TrulyLeaked(m: Memory, table: BlockTable, roots: set<Block>): set<Block> {
    set b | b in BlocksOf(table) && !TrulyReachable(m, BlocksOf(table), roots, b)
  }

  /** Whatever is missed, nothing is called reachable that is not. */
  lemma ReachableIsTrue(m: Memory, blocks: set<Block>, roots: set<Block>, b: Block)
    ensures Reachable(m, blocks, roots, b) ==> TrulyReachable(m, blocks, roots, b)
  {
    forall c, b | Target(m, blocks, c, b) ensures TrueTarget(m, blocks, c, b) {
    }
    hide Target, TrueTarget;
    MoreReached(RootTargets(m, blocks, roots), Edges(m, blocks),
                TrueRootTargets(m, blocks, roots), TrueEdges(m, blocks), b);
  }

  lemma TrueTargetReachable(m: Memory, blocks: set<Block>, roots: set<Block>, c: Block, b: Block)
    requires b in blocks && TrueTarget(m, blocks, c, b)
    requires c in roots || TrulyReachable(m, blocks, roots, c)
    ensures TrulyReachable(m, blocks, roots, b)
  {
    var first, edges := TrueRootTargets(m, blocks, roots), TrueEdges(m, blocks);
    if c in roots {
      FirstReached(first, edges, b);
    } else {
      ReachedInClosed(first, edges, blocks, c);
      EdgeReached(first, edges, c, b);
    }
  }

  /** A root or a block that was found, whose scan failed, points to nothing but blocks that
      were found anyway. */
  ghost predicate NothingLost(m: Memory, blocks: set<Block>, roots: set<Block>, c: Block) {
    (c in roots || Reachable(m, blocks, roots, c)) && !Readable(m, c) ==>
      forall b :: b in blocks && TrueTarget(m, blocks, c, b) ==> Reachable(m, blocks, roots, b)
  }

  /** If nothing was lost, all that is reachable has been found. */
  lemma NothingLostFinds(m: Memory, blocks: set<Block>, roots: set<Block>, b: Block)
    requires forall c :: c in roots + blocks ==> NothingLost(m, blocks, roots, c)
    ensures TrulyReachable(m, blocks, roots, b) ==> Reachable(m, blocks, roots, b)
  {
    hide Reachable, TrueTarget, Readable;
    forall c, d | c in roots + blocks && d in blocks && TrueTarget(m, blocks, c, d)
                  && (c in roots || Reachable(m, blocks, roots, c))
      ensures Reachable(m, blocks, roots, d)
    {
      assert NothingLost(m, blocks, roots, c);
      FoundByScan(m, blocks, roots, c, d);
    }
    var found := set d | d in blocks && Reachable(m, blocks, roots, d);
    ReachedInClosed(TrueRootTargets(m, blocks, roots), TrueEdges(m, blocks), found, b);
  }

  lemma FoundByScan(m: Memory, blocks: set<Block>, roots: set<Block>, c: Block, b: Block)
    requires b in blocks && TrueTarget(m, blocks, c, b) && (c in roots || Reachable(m, blocks, roots, c))
    ensures Readable(m, c) ==> Reachable(m, blocks, roots, b)
  {
    if Readable(m, c) {
      assert Target(m, blocks, c, b);
      if c in roots {
        RootTargetReachable(m, blocks, roots, c, b);
      } else {
        TargetReachable(m, blocks, roots, c, b);
      }
    }
  }

  /** The report is what it should be if and only if no failed scan of a root or of a block
      that was found lost the way to a block that nothing else leads to. */
  lemma ReportIsExactIff(m: Memory, table: BlockTable, roots: set<Block>)
    ensures Leaked(m, table, roots) == TrulyLeaked(m, table, roots) <==>
            forall c :: c in roots + BlocksOf(table) ==> NothingLost(m, BlocksOf(table), roots, c)
  {
    hide Reachable, TrulyReachable, TrueTarget, Readable;
    var blocks := BlocksOf(table);
    forall b | b in blocks ensures Reachable(m, blocks, roots, b) ==> TrulyReachable(m, blocks, roots, b) {
      ReachableIsTrue(m, blocks, roots, b);
    }
    if Leaked(m, table, roots) == TrulyLeaked(m, table, roots) {
      forall c, b | c in roots + blocks && (c in roots || Reachable(m, blocks, roots, c))
                    && b in blocks && TrueTarget(m, blocks, c, b)
        ensures Reachable(m, blocks, roots, b)
      {
        TrueTargetReachable(m, blocks, roots, c, b);
        assert b in blocks && b !in TrulyLeaked(m, table, roots);
      }
    }
    if forall c :: c in roots + blocks ==> NothingLost(m, blocks, roots, c) {
      forall b | b in blocks && TrulyReachable(m, blocks, roots, b) ensures Reachable(m, blocks, roots, b) {
        NothingLostFinds(m, blocks, roots, b);
      }
    }
  }

  /** What can be checked before the report: if every word that a scan would read can be
      read, the report is what it should be. */
  lemma ReadableReportIsExact(m: Memory, table: BlockTable, roots: set<Block>)
    requires forall c :: c in roots + BlocksOf(table) ==> Readable(m, c)
    ensures Leaked(m, table, roots) == TrulyLeaked(m, table, roots)
  {
    hide Leaked, TrulyLeaked, Reachable, TrueTarget, Readable;
    ReportIsExactIff(m, table, roots);
  }

  // ----- A report that is wrong

  const PAGE := 4096

  /** Memory as ptrace shows it: a page is there as a whole or not at all, and is read by
      aligned words. */
  ghost predicate Paged(m: Memory) {
    && m.Valid()
    && (forall a :: a in m.words ==> a % m.word == 0)
    && (forall a, c :: a in m.words && c / PAGE == a / PAGE && c % m.word == 0 ==> c in m.words)
  }

  /** One page, from 4096 on, whose last word points to its beginning. */
  ghost function LastPage(): Memory {
    Memory(map a | PAGE <= a < 2 * PAGE && a % 8 == 0 :: if a == 2 * PAGE - 8 then PAGE else 0, 8)
  }

  /** The condition does fail: a root of one pointer that ends with the last page of an area
      has its block reported, because the scan reads another word behind it. */
  lemma FalseLeak(root: Block, b: Block)
    requires root.addr == 2 * PAGE - 8 && root.size == 8 && b.addr == PAGE && b.size == 8
    ensures Paged(LastPage())
    ensures b in Leaked(LastPage(), map[PAGE := b], {root}) && b !in TrulyLeaked(LastPage(), map[PAGE := b], {root})
  {
    var table: BlockTable := map[PAGE := b];
    assert PAGE in table && table[PAGE] == b;
    assert BlocksOf(table) == {b};
    var m := LastPage();
    assert WordAddr(root, 0, 8) == 2 * PAGE - 8 && WordAddr(root, 1, 8) == 2 * PAGE;
    assert PointsTo(m, {b}, root, 0, b);
    TrueTargetReachable(m, {b}, {root}, root, b);
    assert 2 * PAGE !in m.words;
    assert !Readable(m, root);
    ReachedInClosed(RootTargets(m, {b}, {root}), Edges(m, {b}), {}, b);
  }
}
