/** Sets of blocks and the bytes in them. */
module BlockSets {
  import opened Ledger
  import opened StackStash
  import opened Events
  import opened EventTheorems
  import opened Process

  ghost predicate DistinctAddrs(blocks: set<Block>) {
    forall b, c :: b in blocks && c in blocks && b.addr == c.addr ==> b == c
  }

  ghost function BlocksOf(table: BlockTable): set<Block> {
    set a | a in table :: table[a]
  }

  lemma BlocksOfTable(table: BlockTable, blocks: set<Block>)
    requires TableOk(table, blocks)
    ensures BlocksOf(table) <= blocks
    ensures forall b :: b in BlocksOf(table) <==> InTable(table, b)
    ensures DistinctAddrs(BlocksOf(table))
  {
    forall b | InTable(table, b) ensures b in BlocksOf(table) {
      assert b.addr in table;
    }
  }

  ghost function SetBytes(blocks: set<Block>): int
    decreases |blocks|
  {
    if blocks == {} then 0
    else
      var b := AnyOf(blocks);
      b.size + SetBytes(blocks - {b})
  }

  lemma {:induction false} SetBytesWithout(blocks: set<Block>, b: Block)
    requires b in blocks
    ensures SetBytes(blocks) == b.size + SetBytes(blocks - {b})
    decreases |blocks|
  {
    var c := AnyOf(blocks);
    if c != b {
      SetBytesWithout(blocks - {c}, b);
      SetBytesWithout(blocks - {b}, c);
      assert blocks - {c} - {b} == blocks - {b} - {c};
    }
  }

  lemma {:induction false} SetBytesSplit(blocks: set<Block>, part: set<Block>)
    requires part <= blocks
    ensures SetBytes(blocks) == SetBytes(part) + SetBytes(blocks - part)
    decreases |part|
  {
    if part == {} {
      assert blocks - part == blocks;
    } else {
      var b := AnyOf(part);
      SetBytesWithout(blocks, b);
      SetBytesWithout(part, b);
      SetBytesSplit(blocks - {b}, part - {b});
      assert blocks - {b} - (part - {b}) == blocks - part;
    }
  }

  ghost function ListBytes(list: List<Block>): int {
    if list.Nil? then 0 else list.head.size + ListBytes(list.tail)
  }

  lemma {:induction false} ListBytesOfSet(list: List<Block>)
    requires NoRepeats(list)
    ensures ListBytes(list) == SetBytes(Elements(list))
  {
    if list.Cons? {
      ListBytesOfSet(list.tail);
      SetBytesWithout(Elements(list), list.head);
      assert Elements(list) - {list.head} == Elements(list.tail);
    }
  }

  lemma BlocksOfWithout(table: BlockTable, blocks: set<Block>, a: Addr)
    requires TableOk(table, blocks) && a in table
    ensures table[a] in BlocksOf(table) && BlocksOf(table) - {table[a]} == BlocksOf(table - {a})
  {
    forall b | b in BlocksOf(table) && b != table[a] ensures b in BlocksOf(table - {a}) {
      var x :| x in table && table[x] == b;
      assert x in table - {a};
    }
    forall b | b in BlocksOf(table - {a}) ensures b != table[a] && b in BlocksOf(table) {
      var x :| x in table - {a} && table[x] == b;
      assert table[x].addr == x && table[a].addr == a;
    }
  }

  lemma {:induction false} TableBytes(table: BlockTable, blocks: set<Block>)
    requires TableOk(table, blocks)
    ensures HeapBytes(HeapOf(table)) == SetBytes(BlocksOf(table))
    decreases |table|
  {
    if table == map[] {
      assert HeapOf(table) == map[];
      assert BlocksOf(table) == {};
    } else {
      var a := AnyOf(table.Keys);
      HeapBytesWithout(HeapOf(table), a);
      HeapOfWithout(table, a);
      TableBytes(table - {a}, blocks);
      BlocksOfWithout(table, blocks, a);
      SetBytesWithout(BlocksOf(table), table[a]);
    }
  }

}
