/** src/leakdetect.c: the conservative mark phase that finds leaked blocks. */
module LeakDetect {
  import opened StackStash
  import opened Events
  import opened Process
  import opened Reachability

  /** The stopped program as ptrace shows it: the words that can be read, and sizeof (void *). */
  datatype Memory = Memory(words: map<Addr, Addr>, word: nat) {
    predicate Valid() { word == 4 || word == 8 }
  }

  // ----- What it should find

  /** b is the block with the greatest start not above address, and contains it. */
  ghost predicate Hit(blocks: set<Block>, address: Addr, b: Block) {
    && b in blocks && b.addr <= address < b.addr + b.size
    && (forall c :: c in blocks && c.addr <= address ==> c.addr <= b.addr)
  }

  ghost predicate Disjoint(blocks: set<Block>) {
    forall b, c :: b in blocks && c in blocks && b != c ==> b.addr + b.size <= c.addr || c.addr + c.size <= b.addr
  }

  /** If blocks do not overlap, a hit is simply a block that contains the address. */
  lemma HitIsContaining(blocks: set<Block>, address: Addr, b: Block)
    requires Disjoint(blocks)
    ensures Hit(blocks, address, b) <==> b in blocks && b.addr <= address < b.addr + b.size
  {
  }

  /** The address of the word with index i of a block. */
  function WordAddr(b: Block, i: nat, word: nat): Addr {
    b.addr + i * word
  }

  /** scan_block reads one word for every four bytes, and gives up if one cannot be read. */
  ghost predicate Readable(m: Memory, b: Block) {
    forall i: nat :: i < (b.size + 3) / 4 ==> WordAddr(b, i, m.word) in m.words
  }

  /** The number of complete words in a block. */
  function Words(size: nat, word: nat): (n: nat)
    ensures word == 4 || word == 8 ==> n * word <= size < (n + 1) * word
  {
    if word == 4 then size / 4 else size / 8
  }

  /** Some complete word of src points into b. */
  ghost predicate Target(m: Memory, blocks: set<Block>, src: Block, b: Block) {
    Readable(m, src) && exists i: nat :: i < Words(src.size, m.word) && PointsTo(m, blocks, src, i, b)
  }

  ghost predicate PointsTo(m: Memory, blocks: set<Block>, src: Block, i: nat, b: Block) {
    WordAddr(src, i, m.word) in m.words && Hit(blocks, m.words[WordAddr(src, i, m.word)], b)
  }

  /** The blocks that a root points to, and the pairs of blocks of which one points to the other. */
  ghost function RootTargets(m: Memory, blocks: set<Block>, roots: set<Block>): set<Block> {
    set b | b in blocks && exists r :: r in roots && Target(m, blocks, r, b)
  }

  ghost function Edges(m: Memory, blocks: set<Block>): set<(Block, Block)> {
    set c, b | c in blocks && b in blocks && Target(m, blocks, c, b) :: (c, b)
  }

  ghost predicate Reachable(m: Memory, blocks: set<Block>, roots: set<Block>, b: Block) {
    Reached(RootTargets(m, blocks, roots), Edges(m, blocks), b)
  }

  lemma RootTargetReachable(m: Memory, blocks: set<Block>, roots: set<Block>, r: Block, b: Block)
    requires r in roots && b in blocks && Target(m, blocks, r, b)
    ensures Reachable(m, blocks, roots, b)
  {
    FirstReached(RootTargets(m, blocks, roots), Edges(m, blocks), b);
  }

  lemma TargetReachable(m: Memory, blocks: set<Block>, roots: set<Block>, c: Block, b: Block)
    requires Reachable(m, blocks, roots, c) && b in blocks && Target(m, blocks, c, b)
    ensures Reachable(m, blocks, roots, b)
  {
    var first, edges := RootTargets(m, blocks, roots), Edges(m, blocks);
    ReachedInClosed(first, edges, blocks, c);
    EdgeReached(first, edges, c, b);
  }

  /** A set that has all targets of the roots and of its own members has all that is reachable. */
  lemma ClosedHasReachable(m: Memory, blocks: set<Block>, roots: set<Block>, marked: set<Block>, b: Block)
    requires forall c, b :: c in roots + marked && b in blocks && Target(m, blocks, c, b) ==> b in marked
    ensures Reachable(m, blocks, roots, b) ==> b in marked
  {
    ReachedInClosed(RootTargets(m, blocks, roots), Edges(m, blocks), marked, b);
  }

  // ----- find_block

  /** The array holds the blocks in the order of their addresses. */
  ghost predicate Sorted(arr: seq<Block>, blocks: set<Block>) {
    && (forall i :: 0 <= i < |arr| ==> arr[i] in blocks)
    && (forall b :: b in blocks ==> exists i :: 0 <= i < |arr| && arr[i] == b)
    && (forall i, j :: 0 <= i < j < |arr| ==> arr[i].addr < arr[j].addr)
  }

  /** find_block, src/leakdetect.c:288-326: binary search agrees with looking at every block. */
  method FindBlock(arr: seq<Block>, address: Addr, ghost blocks: set<Block>) returns (found: Block?)
    requires Sorted(arr, blocks)
    ensures found != null ==> Hit(blocks, address, found)
    ensures found == null ==> forall b :: b in blocks ==> !Hit(blocks, address, b)
  {
    if |arr| == 0 {
      return null;
    }
    var first, last := 0, |arr| - 1;
    if address < arr[first].addr {
      return null;
    } else if address < arr[last].addr {
      while first < last - 1
        invariant 0 <= first < last < |arr|
        invariant arr[first].addr <= address < arr[last].addr
        decreases last - first
      {
        var middle := (first + last) / 2;
        if address < arr[middle].addr {
          last := middle;
        } else {
          first := middle;
        }
      }
      assert forall i :: first < i < |arr| ==> arr[last].addr <= arr[i].addr;
      HitIsFirst(arr, address, blocks, first);
      if address < arr[first].addr + arr[first].size {
        return arr[first];
      } else {
        return null;
      }
    } else {
      HitIsFirst(arr, address, blocks, last);
      if address < arr[last].addr + arr[last].size {
        return arr[last];
      } else {
        return null;
      }
    }
  }

  /** The last block that starts at or below the address is the only one that can be hit. */
  lemma HitIsFirst(arr: seq<Block>, address: Addr, blocks: set<Block>, k: nat)
    requires Sorted(arr, blocks) && k < |arr|
    requires arr[k].addr <= address && forall i :: k < i < |arr| ==> address < arr[i].addr
    ensures forall b :: b in blocks && Hit(blocks, address, b) ==> b == arr[k]
    ensures Hit(blocks, address, arr[k]) <==> address < arr[k].addr + arr[k].size
  {
    forall b | b in blocks && b.addr <= address
      ensures b.addr <= arr[k].addr && (b.addr == arr[k].addr ==> b == arr[k])
    {
      var i :| 0 <= i < |arr| && arr[i] == b;
      if i < k {
        assert arr[i].addr < arr[k].addr;
      }
    }
  }

  // ----- Marking

  /** The flags of the blocks are those of the marked ones, and no block is a root. */
  ghost predicate Flags(blocks: set<Block>, marked: set<Block>)
    reads blocks`marked
  {
    && marked <= blocks
    && (forall b :: b in blocks ==> b.marked == (b in marked) && !b.is_root)
  }

  /** One round of the loop in scan_block_contents, src/leakdetect.c:335-346. */
  method ScanWord(arr: seq<Block>, before: List<Block>, address: Addr, ghost blocks: set<Block>,
      ghost marked: set<Block>)
    returns (list: List<Block>, ghost marked': set<Block>)
    requires Sorted(arr, blocks) && Flags(blocks, marked)
    modifies blocks`marked
    ensures Flags(blocks, marked') && marked <= marked'
    ensures forall b :: b in blocks ==> (b in marked' <==> b in marked || Hit(blocks, address, b))
    ensures if marked' == marked then list == before
            else list.Cons? && list.tail == before && list.head !in marked && marked' == marked + {list.head}
  {
    list, marked' := before, marked;
    var found := FindBlock(arr, address, blocks);
    assert found == null || !found.is_root;
    if found != null {
      forall b | b in blocks && Hit(blocks, address, b) ensures b == found {
        assert b.addr == found.addr;
        var i :| 0 <= i < |arr| && arr[i] == b;
        var j :| 0 <= j < |arr| && arr[j] == found;
      }
      if !found.marked {
        list := Cons(found, list);
        found.marked := true;
        marked' := marked + {found};
      }
    }
  }

  /** Of the words of src before the one with index n, some points into b. */
  ghost predicate PointedTo(m: Memory, blocks: set<Block>, src: Block, n: nat, b: Block) {
    exists i: nat :: i < n && PointsTo(m, blocks, src, i, b)
  }

  /** How far a scan has got: the list has grown by exactly the blocks newly marked. */
  ghost predicate Grown(before: List<Block>, marked: set<Block>, list: List<Block>, marked': set<Block>) {
    && marked <= marked'
    && Elements(list) == Elements(before) + (marked' - marked)
    && Count(list) == Count(before) + |marked'| - |marked|
  }

  lemma GrownStep(before: List<Block>, marked: set<Block>, list: List<Block>, seen: set<Block>, b: Block)
    requires Grown(before, marked, list, seen) && b !in seen
    ensures Grown(before, marked, Cons(b, list), seen + {b})
  {
    DifferenceGrows(seen, marked, b);
    hide Count, Elements;
    GrownList(list, b);
  }

  lemma DifferenceGrows<T>(s: set<T>, t: set<T>, x: T)
    requires t <= s && x !in s
    ensures (s + {x}) - t == (s - t) + {x}
    ensures |s + {x}| == |s| + 1
  {
  }

  lemma GrownList<T>(list: List<T>, x: T)
    ensures Elements(Cons(x, list)) == Elements(list) + {x}
    ensures Count(Cons(x, list)) == Count(list) + 1
  {
  }

  lemma PointedStep(m: Memory, blocks: set<Block>, src: Block, n: nat, address: Addr, b: Block)
    requires WordAddr(src, n, m.word) in m.words && m.words[WordAddr(src, n, m.word)] == address
    ensures PointedTo(m, blocks, src, n + 1, b) <==> PointedTo(m, blocks, src, n, b) || Hit(blocks, address, b)
  {
    assert PointsTo(m, blocks, src, n, b) <==> Hit(blocks, address, b);
  }

  lemma NothingScanned(m: Memory, blocks: set<Block>, src: Block, before: List<Block>, marked: set<Block>)
    ensures forall b :: b in blocks ==> !PointedTo(m, blocks, src, 0, b)
    ensures Grown(before, marked, before, marked)
  {
  }

  /** scan_block_contents */
  method ScanBlockContents(arr: seq<Block>, before: List<Block>, block: Block, mem: array<Addr>,
                           m: Memory, ghost blocks: set<Block>, ghost marked: set<Block>)
    returns (list: List<Block>, ghost marked': set<Block>)
    requires Sorted(arr, blocks) && Flags(blocks, marked) && m.Valid()
    requires mem.Length == (block.size + 3) / 4
    requires forall i :: 0 <= i < mem.Length ==>
              WordAddr(block, i, m.word) in m.words && mem[i] == m.words[WordAddr(block, i, m.word)]
    modifies blocks`marked
    ensures Flags(blocks, marked') && Grown(before, marked, list, marked')
    ensures forall b :: b in blocks ==>
              (b in marked' <==> b in marked || PointedTo(m, blocks, block, Words(block.size, m.word), b))
  {
    hide WordAddr, PointedTo, Hit, Grown;
    list, marked' := before, marked;
    NothingScanned(m, blocks, block, before, marked);
    var i := 0;
    while i < Words(block.size, m.word)
      invariant 0 <= i <= Words(block.size, m.word)
      invariant Flags(blocks, marked') && Grown(before, marked, list, marked')
      invariant forall b :: b in blocks ==> (b in marked' <==> b in marked || PointedTo(m, blocks, block, i, b))
    {
      ghost var seen, was := marked', list;
      list, marked' := ScanWord(arr, list, mem[i], blocks, marked');
      forall b | b in blocks
        ensures PointedTo(m, blocks, block, i + 1, b) <==> PointedTo(m, blocks, block, i, b) || Hit(blocks, mem[i], b)
      {
        PointedStep(m, blocks, block, i, mem[i], b);
      }
      if marked' != seen {
        GrownStep(before, marked, was, seen, list.head);
      }
      i := i + 1;
    }
  }

  /** scan_block: the targets of the block are marked and put on the list; a block with an
      unreadable word has none. */
  method ScanBlock(arr: seq<Block>, before: List<Block>, block: Block, m: Memory, ghost blocks: set<Block>,
          ghost marked: set<Block>)
    returns (list: List<Block>, ghost marked': set<Block>)
    requires Sorted(arr, blocks) && Flags(blocks, marked) && m.Valid()
    modifies blocks`marked
    ensures Flags(blocks, marked') && Grown(before, marked, list, marked')
    ensures forall b :: b in blocks ==> (b in marked' <==> b in marked || Target(m, blocks, block, b))
  {
    var length := (block.size + 3) / 4;
    var mem := new Addr[length];
    var i := 0;
    while i < length
      invariant 0 <= i <= length
      invariant forall k :: 0 <= k < i ==>
                WordAddr(block, k, m.word) in m.words && mem[k] == m.words[WordAddr(block, k, m.word)]
      invariant Flags(blocks, marked)
    {
      var address := WordAddr(block, i, m.word);
      if address !in m.words {
        return before, marked;
      }
      mem[i] := m.words[address];
      i := i + 1;
    }
    list, marked' := ScanBlockContents(arr, before, block, mem, m, blocks, marked);
  }

  /** Every root and every marked block that is no longer on the list has been scanned. */
  ghost predicate Scanned(m: Memory, blocks: set<Block>, roots: set<Block>, marked: set<Block>, list: List<Block>) {
    forall c, b :: c in roots + marked && c !in Elements(list) && b in blocks && Target(m, blocks, c, b) ==> b in marked
  }

  ghost predicate AllReachable(m: Memory, blocks: set<Block>, roots: set<Block>, marked: set<Block>) {
    forall b :: b in marked ==> Reachable(m, blocks, roots, b)
  }

  /** The loop at src/leakdetect.c:443-457.  Each round takes one block off the list, and
      each block that it puts there was not marked before. */
  method Mark(arr: seq<Block>, roots: List<Block>, m: Memory,
      ghost blocks: set<Block>) returns (ghost marked: set<Block>)
    requires Sorted(arr, blocks) && Flags(blocks, {}) && m.Valid()
    modifies blocks`marked
    ensures Flags(blocks, marked)
    ensures forall b :: b in blocks ==> (b in marked <==> Reachable(m, blocks, Elements(roots), b))
  {
    var list := roots;
    marked := {};
    while list.Cons?
      invariant Flags(blocks, marked)
      invariant Elements(list) <= Elements(roots) + marked
      invariant Scanned(m, blocks, Elements(roots), marked, list)
      invariant AllReachable(m, blocks, Elements(roots), marked)
      decreases |blocks - marked| + Count(list)
    {
      ghost var was, old_list := marked, list;
      var block := list.head;
      list := list.tail;
      list, marked := ScanBlock(arr, list, block, m, blocks, marked);
      RoundKeeps(m, blocks, Elements(roots), was, old_list, marked, list);
    }
    forall b | b in blocks && Reachable(m, blocks, Elements(roots), b) ensures b in marked {
      ClosedHasReachable(m, blocks, Elements(roots), marked, b);
    }
  }

  lemma RoundKeeps(m: Memory, blocks: set<Block>, roots: set<Block>, was: set<Block>, before: List<Block>,
          marked: set<Block>, list: List<Block>)
    requires before.Cons? && was <= blocks && marked <= blocks
    requires Elements(before) <= roots + was
    requires Scanned(m, blocks, roots, was, before) && AllReachable(m, blocks, roots, was)
    requires Grown(before.tail, was, list, marked)
    requires forall b :: b in blocks ==> (b in marked <==> b in was || Target(m, blocks, before.head, b))
    ensures Scanned(m, blocks, roots, marked, list) && AllReachable(m, blocks, roots, marked)
    ensures Elements(list) <= roots + marked
    ensures |blocks - marked| + Count(list) < |blocks - was| + Count(before)
  {
    hide Target, Reachable;
    forall b | b in marked && b !in was ensures Reachable(m, blocks, roots, b) {
      if before.head in roots {
        RootTargetReachable(m, blocks, roots, before.head, b);
      } else {
        TargetReachable(m, blocks, roots, before.head, b);
      }
    }
    assert blocks == marked + (blocks - marked) && blocks == was + (blocks - was);
  }
}
