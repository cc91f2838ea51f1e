/** src/process.c and block_unref: traced processes and the blocks their tables share. */
module Process {
  import opened StackStash
  import opened Events
  import opened EventTheorems

  class Block {
    const is_root: bool
    const addr: Addr
    const size: nat
    const stack: Stack
    var marked: bool
    var refcount: int

    constructor (is_root: bool, addr: Addr, size: nat, stack: Stack)
      ensures this.is_root == is_root && this.addr == addr && this.size == size && this.stack == stack
      ensures !marked && refcount == 1
    {
      this.is_root, this.addr, this.size, this.stack := is_root, addr, size, stack;
      marked, refcount := false, 1;
    }

    /** A block is freed when its count reaches zero. */
    predicate Alive()
      reads this`refcount
    {
      refcount > 0
    }

    /** block_unref: only on blocks that have not been freed, and freeing with the last
        reference. */
    method Unref()
      requires Alive()
      modifies this`refcount
      ensures refcount == old(refcount) - 1
      ensures Alive() <==> old(refcount) > 1
    {
      refcount := refcount - 1;
    }
  }

  type BlockTable = map<Addr, Block>

  function CellOf(b: Block): Cell<Stack> {
    Cell(b.size, b.stack)
  }

  /** What a table says about the live heap. */
  function HeapOf(table: BlockTable): map<Addr, Cell<Stack>> {
    map a | a in table :: CellOf(table[a])
  }

  lemma HeapOfWithout(table: BlockTable, a: Addr)
    ensures HeapOf(table - {a}) == HeapOf(table) - {a}
    ensures a in HeapOf(table) <==> a in table
    ensures a in table ==> HeapOf(table)[a] == CellOf(table[a])
  {
  }

  lemma HeapOfWith(table: BlockTable, a: Addr, b: Block)
    ensures HeapOf(table[a := b]) == HeapOf(table)[a := CellOf(b)]
    ensures a in HeapOf(table) <==> a in table
  {
  }

  /** The next entry of a hash table in the unspecified order of g_hash_table_foreach. */
  method PickKey<K(==), V>(table: map<K, V>) returns (k: K)
    requires table != map[]
    ensures k in table
  {
    k :| k in table;
  }

  lemma MoveEntry<K, V>(table: map<K, V>, rest: map<K, V>, k: K)
    requires k in rest && k in table
    ensures (table - rest.Keys)[k := table[k]] == table - (rest - {k}).Keys
  {
  }

  // ----- Who holds a block

  ghost predicate InTable(table: BlockTable, b: Block) {
    b.addr in table && table[b.addr] == b
  }

  ghost function TableOwners(tables: map<MPProcess, BlockTable>, b: Block): set<MPProcess> {
    set p | p in tables && InTable(tables[p], b)
  }

  ghost function ListOwners(lists: map<ProcessWindow, set<Block>>, b: Block): set<ProcessWindow> {
    set w | w in lists && b in lists[w]
  }

  ghost function Owners(tables: map<MPProcess, BlockTable>, lists: map<ProcessWindow, set<Block>>, b: Block): nat {
    |TableOwners(tables, b)| + |ListOwners(lists, b)|
  }

  /** Tables list heap blocks under their addresses, and NULL is no address. */
  ghost predicate TableOk(table: BlockTable, blocks: set<Block>) {
    forall a :: a in table ==> table[a] in blocks && table[a].addr == a && a != 0 && !table[a].is_root
  }

  /** Nothing in the table has been freed. */
  ghost predicate Living(table: BlockTable, blocks: set<Block>)
    reads blocks`refcount
  {
    TableOk(table, blocks) && forall a :: a in table ==> table[a].Alive()
  }

  lemma EntryOk(table: BlockTable, blocks: set<Block>, a: Addr)
    requires Living(table, blocks) && a in table
    ensures table[a] in blocks
  {
  }

  lemma OwnersOfUnknown(tables: map<MPProcess, BlockTable>, lists: map<ProcessWindow, set<Block>>,
          blocks: set<Block>, b: Block)
    requires forall p :: p in tables ==> TableOk(tables[p], blocks)
    requires forall w :: w in lists ==> lists[w] <= blocks
    requires b !in blocks
    ensures Owners(tables, lists, b) == 0
  {
    assert TableOwners(tables, b) == {};
    assert ListOwners(lists, b) == {};
  }

  lemma CardinalityAt<T>(s: set<T>, t: set<T>, x: T)
    requires s - {x} == t - {x}
    ensures |t| == |s| - (if x in s then 1 else 0) + (if x in t then 1 else 0)
  {
    assert x in s ==> s == (s - {x}) + {x};
    assert x in t ==> t == (t - {x}) + {x};
    assert x !in s ==> s == s - {x};
    assert x !in t ==> t == t - {x};
  }

  lemma HeldIsOwned(tables: map<MPProcess, BlockTable>, lists: map<ProcessWindow, set<Block>>, b: Block)
    ensures (exists p :: p in tables && InTable(tables[p], b)) ==> Owners(tables, lists, b) > 0
    ensures (exists w :: w in lists && b in lists[w]) ==> Owners(tables, lists, b) > 0
  {
    if p :| p in tables && InTable(tables[p], b) {
      assert p in TableOwners(tables, b);
    }
    if w :| w in lists && b in lists[w] {
      assert w in ListOwners(lists, b);
    }
  }

  /** Replacing a table changes the owners of what it held and of what it now holds. */
  lemma OwnersWithTable(tables: map<MPProcess, BlockTable>, lists: map<ProcessWindow, set<Block>>, p: MPProcess,
          table: BlockTable, b: Block)
    ensures Owners(tables[p := table], lists, b) ==
            Owners(tables, lists, b) - (if p in tables && InTable(tables[p], b) then 1 else 0)
              + (if InTable(table, b) then 1 else 0)
  {
    var s, t := TableOwners(tables, b), TableOwners(tables[p := table], b);
    assert s - {p} == t - {p};
    CardinalityAt(s, t, p);
  }

  /** An empty table for a new process changes no owners. */
  lemma NewTable(tables: map<MPProcess, BlockTable>, lists: map<ProcessWindow, set<Block>>, p: MPProcess)
    requires p !in tables
    ensures forall b :: Owners(tables[p := map[]], lists, b) == Owners(tables, lists, b)
  {
    forall b: Block
      ensures Owners(tables[p := map[]], lists, b) == Owners(tables, lists, b)
    {
      OwnersWithTable(tables, lists, p, map[], b);
    }
  }

  /** The same for the leak list of a window. */
  lemma OwnersWithList(tables: map<MPProcess, BlockTable>, lists: map<ProcessWindow, set<Block>>, w: ProcessWindow,
          list: set<Block>, b: Block)
    ensures Owners(tables, lists[w := list], b) ==
            Owners(tables, lists, b) - (if w in lists && b in lists[w] then 1 else 0) + (if b in list then 1 else 0)
  {
    var s, t := ListOwners(lists, b), ListOwners(lists[w := list], b);
    assert s - {w} == t - {w};
    CardinalityAt(s, t, w);
  }

  /** g_hash_table_foreach with process_free_block. */
  method UnrefAll(table: BlockTable, ghost blocks: set<Block>)
    requires Living(table, blocks)
    modifies blocks`refcount
    ensures forall b :: b in blocks ==> b.refcount == old(b.refcount) - if InTable(table, b) then 1 else 0
  {
    var rest := table;
    while rest != map[]
      invariant forall a :: a in rest ==> a in table && rest[a] == table[a]
      invariant forall b :: b in blocks ==>
                  b.refcount == old(b.refcount) - if InTable(table, b) && b.addr !in rest then 1 else 0
      decreases |rest|
    {
      var a := PickKey(rest);
      assert InTable(table, table[a]);
      rest[a].Unref();
      rest := rest - {a};
    }
  }

  /** The main program's view of a process: its list of leaks. */
  class ProcessWindow {
    const process: MPProcess
    var leaks: List<Block>
    var usage_leaked: nat

    constructor (process: MPProcess)
      ensures this.process == process && leaks == Nil && usage_leaked == 0
    {
      this.process, leaks, usage_leaked := process, Nil, 0;
    }
  }

  /** The server that all processes belong to.  Its ghost fields name everything that may
      hold a reference to a block. */
  class MPServer {
    ghost var blocks: set<Block>
    ghost var tables: map<MPProcess, BlockTable>
    ghost var lists: map<ProcessWindow, set<Block>>
    ghost var dropped: multiset<Block>

    constructor ()
      ensures Accounted() && tables == map[] && lists == map[] && blocks == {} && dropped == multiset{}
    {
      blocks, tables, lists, dropped := {}, map[], map[], multiset{};
    }

    /** What the reference count of a block ought to be: one for each holder, and one for
        each time that a window was reset while its leak list held the block, because such
        a list is thrown away without letting go of its blocks. */
    ghost function Due(b: Block): nat
      reads this
    {
      Owners(tables, lists, b) + dropped[b]
    }

    ghost predicate Accounted()
      reads this, tables.Keys`block_table, lists.Keys`leaks, blocks`refcount
    {
      Known() && (forall b :: b in blocks ==> b.refcount == Due(b))
    }

    /** Every reference count is the number of tables and leak lists that hold the block. */
    ghost predicate Exact()
      reads this, tables.Keys`block_table, lists.Keys`leaks, blocks`refcount
    {
      forall b :: b in blocks ==> b.refcount == Owners(tables, lists, b)
    }

    /** Counts are exact if and only if no reset ever dropped a block. */
    lemma ExactIffNothingDropped()
      requires Accounted()
      ensures Exact() <==> dropped == multiset{}
    {
      if dropped != multiset{} {
        var b :| b in dropped;
        assert b in blocks && dropped[b] > 0;
      }
    }

    /** A block is freed if and only if its last holder has let go of it and no reset has
        dropped it. */
    lemma FreedIffNoHolder(b: Block)
      requires Accounted() && b in blocks
      ensures b.refcount >= 0
      ensures !b.Alive() <==>
              && (forall p :: p in tables ==> !InTable(p.block_table, b))
              && (forall w :: w in lists ==> b !in Elements(w.leaks))
              && b !in dropped
    {
      var ps, ws := TableOwners(tables, b), ListOwners(lists, b);
      assert b.refcount == |ps| + |ws| + dropped[b];
      assert b.refcount == 0 <==> ps == {} && ws == {} && dropped[b] == 0;
      assert ps == {} <==> forall p :: p in tables ==> p !in ps;
      assert ws == {} <==> forall w :: w in lists ==> w !in ws;
    }

    ghost predicate Known()
      reads this, tables.Keys`block_table, lists.Keys`leaks
    {
      && (forall p :: p in tables ==> p.block_table == tables[p] && TableOk(tables[p], blocks))
      && (forall w :: w in lists ==> Elements(w.leaks) == lists[w] && NoRepeats(w.leaks) && lists[w] <= blocks)
      && (forall b :: b in dropped ==> b in blocks)
    }
  }

  class MPProcess {
    const server: MPServer
    var parent: MPProcess?
    var seqno: nat
    var bytes_used: nat
    var n_allocations: nat
    /** An absent hash table is the same as an empty one. */
    var block_table: BlockTable
    var command_queue: List<Command<Stack>>

    /** mp_process_init */
    constructor (server: MPServer)
      ensures this.server == server && parent == null && block_table == map[]
      ensures View() == State(0, Core(0, 0, map[]), Nil)
    {
      this.server := server;
      parent, seqno, bytes_used, n_allocations, block_table, command_queue := null, 0, 0, 0, map[], Nil;
    }

    /** The empty table of a new process becomes one that may hold blocks. */
    ghost method Register()
      requires server.Accounted() && !Registered() && block_table == map[]
      modifies server`tables
      ensures server.Accounted() && server.tables == old(server.tables)[this := map[]]
    {
      hide Owners;
      NewTable(server.tables, server.lists, this);
      server.tables := server.tables[this := map[]];
    }

    ghost function View(): State<Stack>
      reads this
    {
      State(seqno, TheCore(), command_queue)
    }

    ghost function TheCore(): Core<Stack>
      reads this
    {
      Core(bytes_used, n_allocations, HeapOf(block_table))
    }

    ghost predicate Registered()
      reads this, server
    {
      this in server.tables
    }

    /** What is in a table has not been freed. */
    lemma MyTable()
      requires Registered() && server.Accounted()
      ensures server.tables[this] == block_table && TableOk(block_table, server.blocks)
      ensures Living(block_table, server.blocks)
    {
      hide Owners;
      forall a | a in block_table ensures block_table[a].Alive() {
        assert InTable(block_table, block_table[a]);
        HeldIsOwned(server.tables, server.lists, block_table[a]);
      }
    }

    /** Makes another table this process's table, and says which counts are now wrong. */
    method SetTable(table: BlockTable)
      requires Registered() && server.Known() && TableOk(table, server.blocks)
      modifies this`block_table, server`tables
      ensures block_table == table && server.Known()
      ensures server.tables == old(server.tables)[this := table]
      ensures forall b :: b in server.blocks ==>
                Owners(server.tables, server.lists, b) ==
                Owners(old(server.tables), server.lists, b)
                  - (if InTable(old(block_table), b) then 1 else 0) + (if InTable(table, b) then 1 else 0)
    {
      forall b | b in server.blocks
        ensures Owners(server.tables[this := table], server.lists, b) ==
                Owners(server.tables, server.lists, b)
                  - (if InTable(block_table, b) then 1 else 0) + (if InTable(table, b) then 1 else 0)
      {
        OwnersWithTable(server.tables, server.lists, this, table, b);
      }
      block_table := table;
      server.tables := server.tables[this := table];
    }

    /** g_hash_table_remove and block_unref */
    method RemoveBlock(block: Block)
      requires Registered() && server.Accounted() && InTable(block_table, block)
      modifies this`block_table, server`tables, block`refcount
      ensures block_table == old(block_table) - {block.addr}
      ensures server.Accounted() && server.tables.Keys == old(server.tables.Keys)
    {
      hide Owners;
      MyTable();
      SetTable(block_table - {block.addr});
      block.Unref();
    }

    /** g_hash_table_insert of a block that has just been made. */
    method InsertBlock(block: Block)
      requires Registered() && server.Accounted() && block !in server.blocks
      requires block.refcount == 1 && !block.is_root && block.addr != 0 && block.addr !in block_table
      modifies this`block_table, server`tables, server`blocks
      ensures block_table == old(block_table)[block.addr := block]
      ensures server.Accounted() && server.tables.Keys == old(server.tables.Keys)
      ensures server.blocks == old(server.blocks) + {block}
    {
      hide Owners;
      OwnersOfUnknown(server.tables, server.lists, server.blocks, block);
      server.blocks := server.blocks + {block};
      SetTable(block_table[block.addr := block]);
    }

    /** src/process.c:558-571 */
    method ReleasePtr(old_ptr: Addr)
      requires Registered() && server.Accounted()
      modifies this`block_table, this`bytes_used, this`n_allocations, server`tables, server.blocks`refcount
      ensures TheCore() == Release(old(TheCore()), old_ptr)
      ensures block_table == if old_ptr == 0 then old(block_table) else old(block_table) - {old_ptr}
      ensures server.Accounted() && server.tables.Keys == old(server.tables.Keys)
    {
      hide Owners, HeapOf, Wrap32;
      HeapOfWithout(block_table, old_ptr);
      if old_ptr != 0 {
        if old_ptr in block_table {
          var block := block_table[old_ptr];
          RemoveBlock(block);
          bytes_used := Wrap32(bytes_used - block.size);
          n_allocations := Wrap32(n_allocations - 1);
        }
      }
    }

    /** after is before with a block for new_ptr, unless that is NULL or has a block already. */
    static ghost predicate Gains(before: BlockTable, after: BlockTable, new_ptr: Addr, size: nat, stack: Stack) {
      if new_ptr == 0 || new_ptr in before then after == before
      else
        && new_ptr in after && after == before[new_ptr := after[new_ptr]]
        && after[new_ptr].addr == new_ptr && after[new_ptr].size == Wrap32(size)
        && after[new_ptr].stack == stack && !after[new_ptr].is_root
    }

    static lemma GainsNothing(table: BlockTable, new_ptr: Addr, size: nat, stack: Stack)
      requires new_ptr == 0 || new_ptr in table
      ensures Gains(table, table, new_ptr, size, stack)
    {
    }

    static lemma GainsBlock(table: BlockTable, block: Block)
      requires block.addr != 0 && block.addr !in table && !block.is_root
      ensures forall size: nat :: block.size == Wrap32(size) ==>
                Gains(table, table[block.addr := block], block.addr, size, block.stack)
    {
    }

    /** src/process.c:581-594 */
    method ObtainPtr(new_ptr: Addr, size: nat, stack: Stack)
      requires Registered() && server.Accounted()
      modifies this`block_table, this`bytes_used, this`n_allocations, server`tables, server`blocks
      ensures TheCore() == Obtain(old(TheCore()), new_ptr, size, stack)
      ensures Gains(old(block_table), block_table, new_ptr, size, stack)
      ensures server.Accounted() && server.tables.Keys == old(server.tables.Keys)
      ensures old(server.blocks) <= server.blocks && fresh(server.blocks - old(server.blocks))
    {
      hide Owners, HeapOf, Wrap32, TableOk, Gains;
      HeapOfWithout(block_table, new_ptr);
      if new_ptr == 0 || new_ptr in block_table {
        GainsNothing(block_table, new_ptr, size, stack);
      }
      if new_ptr != 0 && new_ptr !in block_table {
        var block := new Block(false, new_ptr, Wrap32(size), stack);
        HeapOfWith(block_table, new_ptr, block);
        GainsBlock(block_table, block);
        n_allocations := Wrap32(n_allocations + 1);
        bytes_used := Wrap32(bytes_used + size);
        InsertBlock(block);
      }
    }

    // ----- Commands

    /** queue_command */
    method QueueCommand(info: Info, stack: Stack)
      modifies this`command_queue
      ensures command_queue == InsertSorted(old(command_queue), Command(info, stack))
      ensures Elements(command_queue) == Elements(old(command_queue)) + {Command(info, stack)}
    {
      InsertedCommands(command_queue, Command(info, stack));
      command_queue := InsertSorted(command_queue, Command(info, stack));
    }

    /** unqueue_command: takes the first queued command if it is due. */
    method UnqueueCommand() returns (due: bool, command: Command<Stack>)
      requires command_queue.Cons?
      modifies this`command_queue
      ensures due == (old(command_queue).head.info.seqno == seqno)
      ensures command == old(command_queue).head
      ensures command_queue == if due then old(command_queue).tail else old(command_queue)
    {
      command := command_queue.head;
      due := command.info.seqno == seqno;
      if due {
        command_queue := command_queue.tail;
      }
    }

    /** The processes other than this one. */
    ghost function Others(): set<MPProcess>
      reads server
    {
      server.tables.Keys - {this}
    }

    /** The default case of the switch: src/process.c:554-594.  The blocks that stay are the
        same objects. */
    method Exchange(info: Info, stack: Stack)
      requires Registered() && server.Accounted()
      modifies this`block_table, this`bytes_used, this`n_allocations, server`tables, server`blocks,
          server.blocks`refcount
      ensures TheCore() == Obtain(Release(old(TheCore()), info.old_ptr), info.new_ptr, info.size, stack)
      ensures Gains(if info.old_ptr == 0 then old(block_table) else old(block_table) - {info.old_ptr},
                    block_table, info.new_ptr, info.size, stack)
      ensures server.Accounted() && server.tables.Keys == old(server.tables.Keys)
      ensures old(server.blocks) <= server.blocks && fresh(server.blocks - old(server.blocks))
    {
      hide TheCore, Release, Obtain, MPServer.Accounted, Gains;
      ReleasePtr(info.old_ptr);
      ObtainPtr(info.new_ptr, info.size, stack);
    }

    /** The switch at src/process.c:537-595. */
    method Perform(info: Info, stack: Stack)
      requires Registered() && server.Accounted()
      modifies this`block_table, this`bytes_used, this`n_allocations, server`tables, server`blocks,
          server.blocks`refcount
      ensures TheCore() == Apply(old(TheCore()), seqno, Command(info, stack))
      ensures match info.operation
              case Exit => block_table == old(block_table)
              case Time => Gains(old(block_table), block_table, seqno, 1, stack)
              case Malloc | Realloc | Free =>
                Gains(if info.old_ptr == 0 then old(block_table) else old(block_table) - {info.old_ptr},
                      block_table, info.new_ptr, info.size, stack)
      ensures server.Accounted() && server.tables.Keys == old(server.tables.Keys)
      ensures old(server.blocks) <= server.blocks && fresh(server.blocks - old(server.blocks))
    {
      hide TheCore, Release, Obtain, MPServer.Accounted, Gains;
      match info.operation
      case Exit =>
      case Time =>
        ObtainPtr(seqno, 1, stack);
      case Malloc | Realloc | Free =>
        Exchange(info, stack);
    }

    /** process_command: the state becomes what Receive says, whatever has been queued, and
        nothing of any other process changes. */
    method ProcessCommand(info: Info, stack: Stack)
      requires Registered() && server.Accounted()
      modifies this`seqno, this`command_queue, this`block_table, this`bytes_used, this`n_allocations,
               server`tables, server`blocks, server.blocks`refcount
      ensures View() == Receive(old(View()), Command(info, stack))
      ensures server.Accounted() && server.tables.Keys == old(server.tables.Keys)
      ensures old(server.blocks) <= server.blocks && fresh(server.blocks - old(server.blocks))
      ensures forall p :: p in Others() ==> p.View() == old(p.View())
      decreases Count(command_queue), 1
    {
      hide Apply, HeapOf, Owners, InsertSorted, MPServer.Accounted;
      if info.seqno != seqno {
        QueueCommand(info, stack);
        return;
      }
      seqno := seqno + 1;
      Perform(info, stack);
      assert View() == Execute(old(View()), Command(info, stack));
      DrainQueue();
    }

    /** The loop at the end of process_command, src/process.c:597-598. */
    method DrainQueue()
      requires Registered() && server.Accounted()
      modifies this`seqno, this`command_queue, this`block_table, this`bytes_used, this`n_allocations,
               server`tables, server`blocks, server.blocks`refcount
      ensures View() == Drain(old(View()))
      ensures server.Accounted() && server.tables.Keys == old(server.tables.Keys)
      ensures old(server.blocks) <= server.blocks && fresh(server.blocks - old(server.blocks))
      decreases Count(command_queue), 0
    {
      hide Apply, HeapOf, Owners, MPServer.Accounted;
      var more := true;
      while command_queue.Cons? && more
        invariant Drain(View()) == Drain(old(View()))
        invariant !more ==> Drain(View()) == View()
        invariant Count(command_queue) <= Count(old(command_queue))
        invariant server.Accounted() && server.tables.Keys == old(server.tables.Keys)
        invariant old(server.blocks) <= server.blocks && fresh(server.blocks - old(server.blocks))
        decreases Count(command_queue), if more then 1 else 0
      {
        var command: Command<Stack>;
        more, command := UnqueueCommand();
        if more {
          DrainShrinks(Execute(View(), command));
          ProcessCommand(command.info, command.stack);
        }
      }
    }

    // ----- Forking and starting over

    /** process_duplicate_block */
    method ShareBlock(block: Block)
      requires Registered() && server.Accounted()
      requires block in server.blocks && !block.is_root && block.addr != 0 && block.addr !in block_table &&
                block.Alive()
      modifies this`block_table, server`tables, block`refcount
      ensures block_table == old(block_table)[block.addr := block] && block.Alive()
      ensures server.Accounted() && server.tables == old(server.tables)[this := block_table]
    {
      hide Owners;
      block.refcount := block.refcount + 1;
      SetTable(block_table[block.addr := block]);
    }

    /** One round of g_hash_table_foreach with process_duplicate_block. */
    method ShareEntry(table: BlockTable, a: Addr)
      requires Registered() && server.Accounted() && Living(table, server.blocks) && a in table && a !in block_table
      modifies this`block_table, server`tables, server.blocks`refcount
      ensures block_table == old(block_table)[a := table[a]]
      ensures server.Accounted() && server.tables == old(server.tables)[this := block_table]
      ensures Living(table, server.blocks)
    {
      hide MPServer.Accounted;
      ShareBlock(table[a]);
    }

    /** Takes over all blocks of another table. */
    method ShareTable(table: BlockTable)
      requires Registered() && server.Accounted() && Living(table, server.blocks) && block_table == map[]
      modifies this`block_table, server`tables, server.blocks`refcount
      ensures block_table == table
      ensures server.Accounted() && server.tables == old(server.tables)[this := table]
    {
      hide MPServer.Accounted, Living;
      MyTable();
      var rest := table;
      while rest != map[]
        invariant server.Accounted() && server.tables == old(server.tables)[this := block_table]
        invariant Living(table, server.blocks) && rest.Keys <= table.Keys
        invariant block_table == table - rest.Keys
        decreases |rest|
      {
        var a := PickKey(rest);
        EntryOk(table, server.blocks, a);
        MoveEntry(table, rest, a);
        ShareEntry(table, a);
        rest := rest - {a};
      }
    }

    /** process_duplicate: the child starts from the numbers and blocks of its parent, with
        an empty queue; the parent does not change. */
    method Duplicate() returns (child: MPProcess)
      requires Registered() && server.Accounted()
      modifies server`tables, server.blocks`refcount
      ensures fresh(child) && child.server == server && child.parent == this
      ensures child.View() == Fork(View()) && View() == old(View())
      ensures server.Accounted() && server.tables == old(server.tables)[child := block_table]
    {
      hide HeapOf, Owners, MPServer.Accounted;
      MyTable();
      child := NewProcess(server);
      child.ShareTable(block_table);
      child.bytes_used := bytes_used;
      child.n_allocations := n_allocations;
      child.seqno := seqno;
      child.parent := this;
    }

    /** process_free_block on every entry, then g_hash_table_destroy. */
    method FreeTable()
      requires Registered() && server.Accounted()
      modifies this`block_table, server`tables, server.blocks`refcount
      ensures block_table == map[]
      ensures server.Accounted() && server.tables.Keys == old(server.tables.Keys)
    {
      hide Owners, Living;
      MyTable();
      UnrefAll(block_table, server.blocks);
      SetTable(map[]);
    }

    /** process_reinit */
    method Reinit()
      requires Registered() && server.Accounted()
      modifies this`bytes_used, this`n_allocations, this`seqno, this`command_queue, this`block_table,
               server`tables, server.blocks`refcount
      ensures View() == State(0, Core(0, 0, map[]), Nil)
      ensures server.Accounted() && server.tables.Keys == old(server.tables.Keys)
    {
      hide MPServer.Accounted;
      bytes_used, n_allocations, seqno := 0, 0, 0;
      FreeTable();
      command_queue := Nil;
    }

    /** process_clear_input: numbers and queue go on, only the blocks are forgotten. */
    method ClearInput()
      requires Registered() && server.Accounted()
      modifies this`bytes_used, this`n_allocations, this`block_table, server`tables, server.blocks`refcount
      ensures View() == State(old(seqno), Core(0, 0, map[]), old(command_queue))
      ensures server.Accounted() && server.tables.Keys == old(server.tables.Keys)
    {
      hide MPServer.Accounted;
      bytes_used, n_allocations := 0, 0;
      FreeTable();
    }
  }

  /** process_new */
  method NewProcess(server: MPServer) returns (process: MPProcess)
    requires server.Accounted()
    modifies server`tables
    ensures fresh(process) && process.server == server && process.parent == null && process.block_table == map[]
    ensures process.View() == State(0, Core(0, 0, map[]), Nil)
    ensures server.Accounted() && server.tables == old(server.tables)[process := map[]]
  {
    hide MPServer.Accounted;
    process := new MPProcess(server);
    process.Register();
  }
}
