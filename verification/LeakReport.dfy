/** leaks_find of src/leakdetect.c as a whole, and generate_leak_cb of src/main.c, which
    keeps its result: references and bytes are accounted for. */
module LeakReport {
  import opened StackStash
  import opened Events
  import opened Process
  import opened BlockSets
  import opened LeakDetect

  // ----- Preparing the table

  /** prepare_block on every entry: flags are cleared and each block gets a reference. */
  method PrepareBlocks(table: BlockTable, ghost blocks: set<Block>)
    requires Living(table, blocks)
    modifies blocks`marked, blocks`refcount
    ensures forall b :: b in blocks ==>
              b.refcount == old(b.refcount) + (if InTable(table, b) then 1 else 0)
              && (InTable(table, b) ==> !b.marked)
  {
    var rest := table;
    while rest != map[]
      invariant forall a :: a in rest ==> a in table && rest[a] == table[a]
      invariant forall b :: b in blocks ==>
                  b.refcount == old(b.refcount) + (if InTable(table, b) && b.addr !in rest then 1 else 0)
                  && (InTable(table, b) && b.addr !in rest ==> !b.marked)
      decreases |rest|
    {
      var a := PickKey(rest);
      var block := rest[a];
      assert !block.is_root;
      block.marked := false;
      block.refcount := block.refcount + 1;
      rest := rest - {a};
    }
  }

  /** The entry with the lowest address. */
  method LeastKey(table: BlockTable) returns (least: Addr)
    requires table != map[]
    ensures least in table && forall a :: a in table ==> least <= a
  {
    least := PickKey(table);
    var rest := table;
    while rest != map[]
      invariant rest.Keys <= table.Keys && least in table
      invariant forall a :: a in table && a !in rest ==> least <= a
      decreases |rest|
    {
      var a := PickKey(rest);
      if a < least {
        least := a;
      }
      rest := rest - {a};
    }
  }

  /** The array of all blocks after qsort with compare_blocks. */
  method SortedBlocks(table: BlockTable, ghost blocks: set<Block>) returns (arr: seq<Block>)
    requires TableOk(table, blocks)
    ensures Sorted(arr, BlocksOf(table))
  {
    arr := [];
    ghost var position: map<Addr, nat> := map[];
    var rest := table;
    while rest != map[]
      invariant forall a :: a in rest ==> a in table && rest[a] == table[a]
      invariant forall i :: 0 <= i < |arr| ==> InTable(table, arr[i]) && arr[i].addr !in rest
      invariant forall a :: a in table && a !in rest ==>
                  a in position && position[a] < |arr| && arr[position[a]] == table[a]
      invariant forall i, a :: 0 <= i < |arr| && a in rest ==> arr[i].addr < a
      invariant forall i, j :: 0 <= i < j < |arr| ==> arr[i].addr < arr[j].addr
      decreases |rest|
    {
      var a := LeastKey(rest);
      position := position[a := |arr|];
      arr := arr + [rest[a]];
      rest := rest - {a};
    }
    BlocksOfTable(table, blocks);
    forall b | b in BlocksOf(table) ensures exists i :: 0 <= i < |arr| && arr[i] == b {
      assert arr[position[b.addr]] == b;
    }
  }

  /** process_data_root and add_stack_root: one root block for each memory area. */
  method MakeRoots(areas: List<(Addr, nat)>) returns (roots: List<Block>)
    ensures fresh(Elements(roots))
    ensures forall r :: r in Elements(roots) ==> r.is_root
    ensures RootAreas(roots) == areas
    decreases areas
  {
    match areas
    case Nil => roots := Nil;
    case Cons(area, rest) =>
      var others := MakeRoots(rest);
      var root := new Block(true, area.0, area.1, null);
      roots := Cons(root, others);
  }

  ghost function RootAreas(roots: List<Block>): List<(Addr, nat)> {
    if roots.Nil? then Nil else Cons((roots.head.addr, roots.head.size), RootAreas(roots.tail))
  }

  // ----- Collecting the leaks

  /** The loop at src/leakdetect.c:464-471: unmarked blocks keep the reference they were
      given, marked ones lose it. */
  method Collect(arr: seq<Block>, ghost blocks: set<Block>, ghost marked: set<Block>) returns (result: List<Block>)
    requires Sorted(arr, blocks) && Flags(blocks, marked) && forall b :: b in blocks ==> b.Alive()
    modifies blocks`refcount
    ensures NoRepeats(result) && Elements(result) == blocks - marked
    ensures forall b :: b in blocks ==> b.refcount == old(b.refcount) - (if b in marked then 1 else 0)
  {
    result := Nil;
    ghost var seen: set<Block> := {};
    var i := 0;
    while i < |arr|
      invariant 0 <= i <= |arr|
      invariant Flags(blocks, marked)
      invariant seen <= blocks && forall k :: 0 <= k < |arr| ==> (arr[k] in seen <==> k < i)
      invariant NoRepeats(result) && Elements(result) == seen - marked
      invariant forall b :: b in blocks ==> b.refcount == old(b.refcount) - (if b in seen && b in marked then 1 else 0)
    {
      var block := arr[i];
      assert forall k :: 0 <= k < |arr| && k != i ==> arr[k].addr != block.addr;
      if !block.marked {
        result := Cons(block, result);
      } else {
        block.Unref();
      }
      seen := seen + {block};
      i := i + 1;
    }
    assert seen == blocks;
  }

  // ----- leaks_find

  /** What leaks_find should report: the blocks of the table that the roots do not reach. */
  ghost function Leaked(m: Memory, table: BlockTable, roots: set<Block>): set<Block> {
    set b | b in BlocksOf(table) && !Reachable(m, BlocksOf(table), roots, b)
  }

  /** leaks_find on a stopped process; is_open says whether /proc/<pid>/mem could be opened.
      Every block of the table is either marked or reported, and only a reported block has
      got a reference. */
  method LeaksFind(process: MPProcess, areas: List<(Addr, nat)>, m: Memory, is_open: bool)
    returns (result: List<Block>, ghost roots: List<Block>)
    requires process.Registered() && process.server.Accounted() && m.Valid()
    modifies process.server.blocks`marked, process.server.blocks`refcount
    ensures !is_open ==> result == Nil
    ensures is_open ==> RootAreas(roots) == areas && Elements(result) == Leaked(m, process.block_table, Elements(roots))
    ensures is_open ==> forall b :: b in BlocksOf(process.block_table) ==> b.marked != (b in Elements(result))
    ensures NoRepeats(result) && Elements(result) <= BlocksOf(process.block_table)
    ensures forall b :: b in process.server.blocks ==>
              b.refcount == old(b.refcount) + if b in Elements(result) then 1 else 0
  {
    roots := Nil;
    if !is_open {
      return Nil, Nil;
    }
    process.MyTable();
    ghost var blocks := BlocksOf(process.block_table);
    BlocksOfTable(process.block_table, process.server.blocks);
    PrepareBlocks(process.block_table, process.server.blocks);
    var arr := SortedBlocks(process.block_table, process.server.blocks);
    var block_list := MakeRoots(areas);
    roots := block_list;
    ghost var marked := Mark(arr, block_list, m, blocks);
    result := Collect(arr, blocks, marked);
  }

  // ----- The window that keeps the result

  /** Gives a window another list, and says which counts are now wrong. */
  ghost method SetList(window: ProcessWindow, server: MPServer, list: set<Block>)
    requires window in server.lists && list <= server.blocks
    modifies server`lists
    ensures server.lists == old(server.lists)[window := list]
    ensures forall b :: b in server.blocks ==>
              server.Due(b) == old(server.Due(b))
                - (if b in old(server.lists)[window] then 1 else 0) + (if b in list then 1 else 0)
  {
    forall b | b in server.blocks
      ensures Owners(server.tables, server.lists[window := list], b) ==
              Owners(server.tables, server.lists, b)
                - (if b in server.lists[window] then 1 else 0) + (if b in list then 1 else 0)
    {
      OwnersWithList(server.tables, server.lists, window, list, b);
    }
    server.lists := server.lists[window := list];
  }

  /** A window for a process, with nothing on its leak list. */
  method OpenWindow(process: MPProcess) returns (window: ProcessWindow)
    requires process.server.Accounted()
    modifies process.server`lists
    ensures fresh(window) && window.process == process && window.leaks == Nil
    ensures process.server.Accounted() && process.server.lists == old(process.server.lists)[window := {}]
  {
    hide Owners;
    window := new ProcessWindow(process);
    forall b | b in process.server.blocks
      ensures Owners(process.server.tables, process.server.lists[window := {}], b) ==
              Owners(process.server.tables, process.server.lists, b)
    {
      OwnersWithList(process.server.tables, process.server.lists, window, {}, b);
    }
    process.server.lists := process.server.lists[window := {}];
  }

  /** What is on a leak list has not been freed. */
  lemma MyList(window: ProcessWindow, server: MPServer)
    requires window in server.lists && server.Accounted()
    ensures server.lists[window] == Elements(window.leaks) <= server.blocks && NoRepeats(window.leaks)
    ensures forall b :: b in Elements(window.leaks) ==> b.Alive()
  {
    hide Owners;
    forall b | b in Elements(window.leaks) ensures b.Alive() {
      HeldIsOwned(server.tables, server.lists, b);
    }
  }

  /** The loop at src/main.c:1160-1163: the window lets go of its old leaks. */
  method ReleaseLeaks(window: ProcessWindow, server: MPServer)
    requires window in server.lists && server.Accounted()
    modifies window`leaks, server`lists, server.blocks`refcount
    ensures window.leaks == Nil && server.Accounted()
    ensures server.lists == old(server.lists)[window := {}]
  {
    hide MPServer.Accounted;
    MyList(window, server);
    while window.leaks.Cons?
      invariant server.Accounted() && window in server.lists
      invariant server.lists == old(server.lists)[window := Elements(window.leaks)]
      decreases window.leaks
    {
      MyList(window, server);
      ReleaseFirst(window, server);
    }
  }

  method ReleaseFirst(window: ProcessWindow, server: MPServer)
    requires window in server.lists && server.Accounted() && window.leaks.Cons?
    modifies window`leaks, server`lists, window.leaks.head`refcount
    ensures window.leaks == old(window.leaks).tail && server.Accounted()
    ensures server.lists == old(server.lists)[window := Elements(window.leaks)]
  {
    hide Owners;
    MyList(window, server);
    window.leaks.head.Unref();
    window.leaks := window.leaks.tail;
    SetList(window, server, Elements(window.leaks));
  }

  /** The sum of the sizes along a list of leaks, as src/main.c:1166-1171 adds them up. */
  method UsageLeaked(leaks: List<Block>) returns (bytes: nat)
    ensures bytes == Wrap32(ListBytes(leaks))
  {
    hide Wrap32;
    bytes := Wrap32(0);
    var list := leaks;
    ghost var passed := 0;
    while list.Cons?
      invariant bytes == Wrap32(passed) && passed + ListBytes(list) == ListBytes(leaks)
      decreases list
    {
      WrapOnce(passed, list.head.size);
      bytes := Wrap32(bytes + list.head.size);
      passed := passed + list.head.size;
      list := list.tail;
    }
  }

  /** generate_leak_cb: old leaks are released before new ones are looked for, so that the
      counts are right again afterwards. */
  method GenerateLeak(window: ProcessWindow, server: MPServer, areas: List<(Addr, nat)>, m: Memory, is_open: bool)
    returns (ghost roots: List<Block>)
    requires window in server.lists && server.Accounted() && m.Valid()
    requires window.process.server == server && window.process.Registered()
    modifies window, server`lists, server.blocks`marked, server.blocks`refcount
    ensures server.Accounted()
    ensures server.lists == old(server.lists)[window := Elements(window.leaks)]
    ensures is_open ==> RootAreas(roots) == areas
    ensures Elements(window.leaks) ==
            if is_open then Leaked(m, window.process.block_table, Elements(roots)) else {}
    ensures window.usage_leaked == Wrap32(ListBytes(window.leaks))
  {
    hide MPServer.Accounted, Leaked, ListBytes;
    ReleaseLeaks(window, server);
    roots := FindInto(window, server, areas, m, is_open);
    window.usage_leaked := UsageLeaked(window.leaks);
  }

  method FindInto(window: ProcessWindow, server: MPServer, areas: List<(Addr, nat)>, m: Memory, is_open: bool)
    returns (ghost roots: List<Block>)
    requires window in server.lists && server.Accounted() && m.Valid() && window.leaks == Nil
    requires window.process.server == server && window.process.Registered()
    modifies window`leaks, server`lists, server.blocks`marked, server.blocks`refcount
    ensures server.Accounted()
    ensures server.lists == old(server.lists)[window := Elements(window.leaks)]
    ensures is_open ==> RootAreas(roots) == areas
    ensures Elements(window.leaks) ==
            if is_open then Leaked(m, window.process.block_table, Elements(roots)) else {}
  {
    hide MPServer.Due, MPServer.Known, Leaked;
    window.process.MyTable();
    BlocksOfTable(window.process.block_table, server.blocks);
    MyList(window, server);
    var result: List<Block>;
    result, roots := LeaksFind(window.process, areas, m, is_open);
    Keep(window, server, result);
  }

  /** The references that leaks_find has taken become those of the window. */
  method Keep(window: ProcessWindow, server: MPServer, result: List<Block>)
    requires window in server.lists && server.Known() && window.leaks == Nil
    requires NoRepeats(result) && Elements(result) <= server.blocks
    requires forall b :: b in server.blocks ==> b.refcount == server.Due(b) + if b in Elements(result) then 1 else 0
    modifies window`leaks, server`lists
    ensures window.leaks == result && server.Accounted()
    ensures server.lists == old(server.lists)[window := Elements(result)]
  {
    hide Owners;
    window.leaks := result;
    SetList(window, server, Elements(result));
  }

  /** process_window_reset, src/main.c:934-943: the list is freed, but its blocks keep the
      references it had.  Counts stay exact if and only if there was nothing in it. */
  method WindowReset(window: ProcessWindow, server: MPServer)
    requires window in server.lists && server.Accounted()
    modifies window, server`lists, server`dropped
    ensures window.leaks == Nil && window.usage_leaked == 0
    ensures server.Accounted()
    ensures server.dropped == old(server.dropped) + multiset(old(Elements(window.leaks)))
    ensures server.lists == old(server.lists)[window := {}]
    ensures server.Exact() <==> old(server.Exact()) && old(window.leaks) == Nil
  {
    server.ExactIffNothingDropped();
    Forget(window, server);
    server.ExactIffNothingDropped();
    assert old(window.leaks).Cons? ==> old(window.leaks).head in server.dropped;
  }

  method Forget(window: ProcessWindow, server: MPServer)
    requires window in server.lists && server.Accounted()
    modifies window, server`lists, server`dropped
    ensures window.leaks == Nil && window.usage_leaked == 0
    ensures server.Accounted()
    ensures server.dropped == old(server.dropped) + multiset(old(Elements(window.leaks)))
    ensures server.lists == old(server.lists)[window := {}]
  {
    hide MPServer.Due, TableOk, Elements, NoRepeats;
    MyList(window, server);
    EmptyList();
    DropList(window, server);
    window.leaks, window.usage_leaked := Nil, 0;
  }

  lemma EmptyList()
    ensures Elements<Block>(Nil) == {} && NoRepeats<Block>(Nil)
  {
  }

  ghost method DropList(window: ProcessWindow, server: MPServer)
    requires window in server.lists && server.lists[window] <= server.blocks
    requires forall b :: b in server.dropped ==> b in server.blocks
    modifies server`lists, server`dropped
    ensures forall b :: b in server.dropped ==> b in server.blocks
    ensures server.lists == old(server.lists)[window := {}]
    ensures server.dropped == old(server.dropped) + multiset(old(server.lists)[window])
    ensures forall b :: b in server.blocks ==> server.Due(b) == old(server.Due(b))
  {
    hide Owners;
    server.dropped := server.dropped + multiset(server.lists[window]);
    SetList(window, server, {});
  }
}
