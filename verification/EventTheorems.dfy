/** Further properties of the event engine: exactly when its queue keeps moving, what its
    counters mean, and when the block table is the live heap of the traced program. */
module EventTheorems {
  import opened Ledger
  import opened StackStash
  import opened Events

  // ----- When the queue keeps moving

  /** Nothing queued is overdue or doubled. */
  ghost predicate Waiting<S>(st: State<S>) {
    Ascending(st.queue, st.seqno)
  }

  lemma {:induction false} InsertedAscendingIff<S>(queue: List<Command<S>>, c: Command<S>, above: int)
    ensures Ascending(InsertSorted(queue, c), above) <==>
            && Ascending(queue, above) && c.info.seqno > above
            && (forall d :: d in Elements(queue) ==> d.info.seqno != c.info.seqno)
  {
    if queue.Cons? {
      if c.info.seqno > queue.head.info.seqno {
        InsertedAscendingIff(queue.tail, c, queue.head.info.seqno);
        assert forall d :: d in Elements(queue) <==> d == queue.head || d in Elements(queue.tail);
      } else if Ascending(queue, above) {
        AscendingBound(queue.tail, queue.head.info.seqno);
        assert queue.head in Elements(queue);
      }
    }
  }

  lemma {:induction false} DrainWaitsIff<S>(st: State<S>)
    ensures Waiting(Drain(st)) <==> Ascending(st.queue, st.seqno - 1)
    decreases st.queue
  {
    if st.queue.Cons? && st.queue.head.info.seqno == st.seqno {
      DrainWaitsIff(Execute(st.(queue := st.queue.tail), st.queue.head));
    }
  }

  /** One command leaves a good queue exactly if it found one and is neither late nor doubled. */
  lemma ReceiveWaitsIff<S>(st: State<S>, c: Command<S>)
    ensures Waiting(Receive(st, c)) <==>
            && Waiting(st) && c.info.seqno >= st.seqno
            && (forall d :: d in Elements(st.queue) ==> d.info.seqno != c.info.seqno)
  {
    if c.info.seqno != st.seqno {
      InsertedAscendingIff(st.queue, c, st.seqno);
    } else {
      DrainWaitsIff(Execute(st, c));
      if Waiting(st) {
        AscendingBound(st.queue, st.seqno);
      }
    }
  }

  /** The queue of a process stays good over a whole run if and only if the numbers that
      arrive are different and none is below the first. */
  lemma {:induction false} RunWaitsIff<S>(start: nat, core: Core<S>, arrivals: List<Command<S>>)
    ensures Waiting(Run(State(start, core, Nil), arrivals)) <==> Distinct(arrivals, start)
  {
    if arrivals.Cons? {
      var c, st := arrivals.head, Run(State(start, core, Nil), arrivals.tail);
      RunWaitsIff(start, core, arrivals.tail);
      ReceiveWaitsIff(st, c);
      if Distinct(arrivals.tail, start) {
        RunSettles(start, core, arrivals.tail);
        NewIffLate(st, Numbered(arrivals.tail), start, core, c);
      }
    }
  }

  lemma NewIffLate<S>(st: State<S>, m: map<nat, Command<S>>, start: nat, core: Core<S>, c: Command<S>)
    requires Settled(st, m, start, core)
    ensures (c.info.seqno >= start && c.info.seqno !in m) <==>
            (c.info.seqno >= st.seqno && forall d :: d in Elements(st.queue) ==> d.info.seqno != c.info.seqno)
  {
    var k := c.info.seqno;
    if k >= st.seqno && k in m {
      assert m[k] in Elements(st.queue);
    }
  }

  /** The first queued command is overdue. */
  ghost predicate Jammed<S>(st: State<S>) {
    st.queue.Cons? && st.queue.head.info.seqno < st.seqno
  }

  /** Numbers do not fall along the queue. */
  ghost predicate NonFalling<S>(queue: List<Command<S>>) {
    queue.Cons? && queue.tail.Cons? ==>
      queue.head.info.seqno <= queue.tail.head.info.seqno && NonFalling(queue.tail)
  }

  lemma {:induction false} InsertedNonFalling<S>(queue: List<Command<S>>, c: Command<S>)
    requires NonFalling(queue)
    ensures NonFalling(InsertSorted(queue, c))
  {
    if queue.Cons? && c.info.seqno > queue.head.info.seqno {
      InsertedNonFalling(queue.tail, c);
    }
  }

  lemma {:induction false} DrainNonFalling<S>(st: State<S>)
    requires NonFalling(st.queue)
    ensures NonFalling(Drain(st).queue)
    decreases st.queue
  {
    if st.queue.Cons? && st.queue.head.info.seqno == st.seqno {
      DrainNonFalling(Execute(st.(queue := st.queue.tail), st.queue.head));
    }
  }

  lemma {:induction false} LeastIsFirst<S>(queue: List<Command<S>>, c: Command<S>)
    requires NonFalling(queue) && c in Elements(queue)
    ensures queue.head.info.seqno <= c.info.seqno
  {
    if c != queue.head {
      LeastIsFirst(queue.tail, c);
    }
  }

  /** After any run, doubled and missing numbers included, a process is jammed if and only if
      anything in its queue is overdue. */
  lemma {:induction false} JammedIffOverdue<S>(start: nat, core: Core<S>, arrivals: List<Command<S>>)
    ensures var st := Run(State(start, core, Nil), arrivals);
            && NonFalling(st.queue)
            && (Jammed(st) <==> exists c :: c in Elements(st.queue) && c.info.seqno < st.seqno)
  {
    var st := Run(State(start, core, Nil), arrivals);
    if arrivals.Cons? {
      var before := Run(State(start, core, Nil), arrivals.tail);
      JammedIffOverdue(start, core, arrivals.tail);
      InsertedNonFalling(before.queue, arrivals.head);
      DrainNonFalling(Execute(before, arrivals.head));
    }
    forall c | c in Elements(st.queue) ensures st.queue.head.info.seqno <= c.info.seqno {
      LeastIsFirst(st.queue, c);
    }
  }

  /** What becomes of a state if nothing is ever taken from its queue: a command is executed
      if it is due when it arrives, and is queued for good otherwise. */
  ghost function Unqueued<S>(st: State<S>, arrivals: List<Command<S>>): State<S> {
    if arrivals.Nil? then st
    else
      var before := Unqueued(st, arrivals.tail);
      if arrivals.head.info.seqno == before.seqno then Execute(before, arrivals.head)
      else before.(queue := InsertSorted(before.queue, arrivals.head))
  }

  /** The commands that are not due when they arrive. */
  ghost function Missed<S>(st: State<S>, arrivals: List<Command<S>>): set<Command<S>> {
    if arrivals.Nil? then {}
    else Missed(st, arrivals.tail)
           + if arrivals.head.info.seqno == Unqueued(st, arrivals.tail).seqno then {} else {arrivals.head}
  }

  /** A jammed process stays jammed, and its queue is dead: it keeps all it holds and all
      that arrives early or late, and executes only what is due on arrival. */
  lemma {:induction false} JammedForever<S>(st: State<S>, arrivals: List<Command<S>>)
    requires Jammed(st)
    ensures Jammed(Run(st, arrivals)) && Run(st, arrivals) == Unqueued(st, arrivals)
    ensures Elements(Run(st, arrivals).queue) == Elements(st.queue) + Missed(st, arrivals)
    ensures st.seqno <= Run(st, arrivals).seqno
  {
    if arrivals.Cons? {
      JammedForever(st, arrivals.tail);
      InsertedCommands(Run(st, arrivals.tail).queue, arrivals.head);
    }
  }

  /** It still moves if and only if the number that it waits for arrives. */
  lemma {:induction false} JammedMovesIff<S>(st: State<S>, arrivals: List<Command<S>>)
    requires Jammed(st)
    ensures Run(st, arrivals).seqno > st.seqno <==> exists c :: c in Elements(arrivals) && c.info.seqno == st.seqno
  {
    if arrivals.Cons? {
      JammedMovesIff(st, arrivals.tail);
      JammedForever(st, arrivals.tail);
    }
  }

  // ----- Forks

  /** process_duplicate: the child takes over numbers and table, but not the queue. */
  function Fork<S>(st: State<S>): State<S> {
    State(st.seqno, st.core, Nil)
  }

  /** The child executes something if and only if the number its parent was waiting for
      arrives at the child.  If the parent was behind when it forked, its missing commands
      never do, and the child's table stands still. */
  lemma {:induction false} ForkMovesIff<S>(st: State<S>, arrivals: List<Command<S>>)
    ensures var child := Run(Fork(st), arrivals);
            && (child.seqno > st.seqno <==> exists c :: c in Elements(arrivals) && c.info.seqno == st.seqno)
            && (child.seqno == st.seqno ==>
                 child.core == st.core && Ascending(child.queue, st.seqno) == Distinct(arrivals, st.seqno))
            && child.seqno >= st.seqno
  {
    if exists c :: c in Elements(arrivals) && c.info.seqno == st.seqno {
      var c :| c in Elements(arrivals) && c.info.seqno == st.seqno;
      ForkMoves(st, arrivals, c);
    } else {
      ForkStalls(st, arrivals);
      RunWaitsIff(st.seqno, st.core, arrivals);
    }
  }

  lemma {:induction false} DrainMonotone<S>(st: State<S>)
    ensures Drain(st).seqno >= st.seqno
    decreases st.queue
  {
    if st.queue.Cons? && st.queue.head.info.seqno == st.seqno {
      DrainMonotone(Execute(st.(queue := st.queue.tail), st.queue.head));
    }
  }

  lemma {:induction false} ForkMoves<S>(st: State<S>, arrivals: List<Command<S>>, c: Command<S>)
    requires c in Elements(arrivals) && c.info.seqno == st.seqno
    ensures Run(Fork(st), arrivals).seqno > st.seqno
  {
    var before := Run(Fork(st), arrivals.tail);
    if exists d :: d in Elements(arrivals.tail) && d.info.seqno == st.seqno {
      var d :| d in Elements(arrivals.tail) && d.info.seqno == st.seqno;
      ForkMoves(st, arrivals.tail, d);
    } else {
      ForkStalls(st, arrivals.tail);
    }
    if arrivals.head.info.seqno == before.seqno {
      DrainMonotone(Execute(before, arrivals.head));
    }
  }

  lemma {:induction false} ForkStalls<S>(st: State<S>, arrivals: List<Command<S>>)
    requires forall c :: c in Elements(arrivals) ==> c.info.seqno != st.seqno
    ensures Run(Fork(st), arrivals).seqno == st.seqno && Run(Fork(st), arrivals).core == st.core
  {
    if arrivals.Cons? {
      ForkStalls(st, arrivals.tail);
      assert arrivals.head in Elements(arrivals);
    }
  }

  /** A command that came too late stays in the queue. */
  lemma {:induction false} StaleStays<S>(start: nat, core: Core<S>, arrivals: List<Command<S>>, c: Command<S>)
    requires c in Elements(arrivals) && c.info.seqno < start
    ensures var st := Run(State(start, core, Nil), arrivals);
            c in Elements(st.queue) && st.seqno >= start
  {
    var before, a := Run(State(start, core, Nil), arrivals.tail), arrivals.head;
    RunMonotone(start, core, arrivals.tail);
    InsertedCommands(before.queue, a);
    if c in Elements(arrivals.tail) {
      StaleStays(start, core, arrivals.tail, c);
    }
    if a.info.seqno == before.seqno {
      DrainMonotone(Execute(before, a));
      DrainKeepsOther(Execute(before, a), c);
    }
  }

  lemma {:induction false} RunMonotone<S>(start: nat, core: Core<S>, arrivals: List<Command<S>>)
    ensures Run(State(start, core, Nil), arrivals).seqno >= start
  {
    if arrivals.Cons? {
      RunMonotone(start, core, arrivals.tail);
      DrainMonotone(Execute(Run(State(start, core, Nil), arrivals.tail), arrivals.head));
    }
  }

  lemma {:induction false} DrainKeepsOther<S>(st: State<S>, c: Command<S>)
    requires c.info.seqno < st.seqno && c in Elements(st.queue)
    ensures c in Elements(Drain(st).queue)
    decreases st.queue
  {
    if st.queue.Cons? && st.queue.head.info.seqno == st.seqno {
      DrainKeepsOther(Execute(st.(queue := st.queue.tail), st.queue.head), c);
    }
  }

  /** What a fork leaves, when the child's own commands are numbered from f on, the counter of
      the traced program at the fork.  The child is its parent's table with its own commands
      applied in order if and only if the parent had been brought up to f when it was
      duplicated.  If the parent was behind, the child stands still; if it had gone on, the
      first command of the child jams it. */
  lemma ForkIsInOrderIff<S>(st: State<S>, f: nat, arrivals: List<Command<S>>)
    requires Distinct(arrivals, f)
    ensures var child := Run(Fork(st), arrivals);
            && (Settled(child, Numbered(arrivals), f, st.core) <==> st.seqno == f)
            && (st.seqno < f ==> child.seqno == st.seqno && child.core == st.core)
            && (st.seqno > f && f in Numbered(arrivals) ==> Jammed(child))
  {
    var child := Run(Fork(st), arrivals);
    if st.seqno == f {
      RunSettles(f, st.core, arrivals);
    } else if st.seqno < f {
      NumbersFrom(arrivals, f);
      ForkStalls(st, arrivals);
    } else {
      RunMonotone(st.seqno, st.core, arrivals);
      if f in Numbered(arrivals) {
        CommandAt(arrivals, f);
        StaleStays(st.seqno, st.core, arrivals, Numbered(arrivals)[f]);
        JammedIffOverdue(st.seqno, st.core, arrivals);
        if Settled(child, Numbered(arrivals), f, st.core) {
          AscendingBound(child.queue, child.seqno - 1);
        }
      }
    }
  }

  lemma {:induction false} NumbersFrom<S>(cs: List<Command<S>>, start: nat)
    requires Distinct(cs, start)
    ensures forall c :: c in Elements(cs) ==> c.info.seqno >= start
  {
    if cs.Cons? {
      NumbersFrom(cs.tail, start);
    }
  }

  // ----- Counters

  /** The sum of the sizes of the blocks in a table. */
  ghost function HeapBytes<S>(heap: map<Addr, Cell<S>>): int
    decreases |heap|
  {
    if heap.Keys == {} then 0
    else
      var a := AnyOf(heap.Keys);
      heap[a].size + HeapBytes(heap - {a})
  }

  lemma {:induction false} HeapBytesWithout<S>(heap: map<Addr, Cell<S>>, a: Addr)
    requires a in heap
    ensures HeapBytes(heap) == heap[a].size + HeapBytes(heap - {a})
    decreases |heap|
  {
    var b := AnyOf(heap.Keys);
    if b != a {
      HeapBytesWithout(heap - {b}, a);
      HeapBytesWithout(heap - {a}, b);
      assert heap - {b} - {a} == heap - {a} - {b};
    }
  }

  lemma HeapBytesWith<S>(heap: map<Addr, Cell<S>>, a: Addr, cell: Cell<S>)
    requires a !in heap
    ensures HeapBytes(heap[a := cell]) == HeapBytes(heap) + cell.size
    ensures |heap[a := cell]| == |heap| + 1
  {
    HeapBytesWithout(heap[a := cell], a);
    assert heap[a := cell] - {a} == heap;
  }

  /** bytes_used is the sum of the sizes in the table and n_allocations is its size, as far
      as 32 bits can tell. */
  ghost predicate Counted<S>(core: Core<S>) {
    core.bytes_used == Wrap32(HeapBytes(core.heap)) && core.n_allocations == Wrap32(|core.heap|)
  }

  lemma ReleaseCounts<S>(core: Core<S>, ptr: Addr)
    requires Counted(core)
    ensures Counted(Release(core, ptr))
  {
    hide Wrap32, Wrap31;
    if ptr in core.heap {
      HeapBytesWithout(core.heap, ptr);
      assert core.heap.Keys == (core.heap - {ptr}).Keys + {ptr};
      WrapOnce(HeapBytes(core.heap), 0 - core.heap[ptr].size);
      WrapOnce(|core.heap|, -1);
    }
  }

  lemma ObtainCounts<S>(core: Core<S>, ptr: Addr, size: nat, stack: S)
    requires Counted(core)
    ensures Counted(Obtain(core, ptr, size, stack))
  {
    hide Wrap32, Wrap31;
    if ptr !in core.heap {
      var b := HeapBytes(core.heap);
      HeapBytesWith(core.heap, ptr, Cell(Wrap32(size), stack));
      WrapOnce(b, size);
      WrapOnce(size, b);
      WrapOnce(|core.heap|, 1);
    }
  }

  lemma ApplyCounts<S>(core: Core<S>, seqno: nat, c: Command<S>)
    requires Counted(core)
    ensures Counted(Apply(core, seqno, c))
  {
    ObtainCounts(core, seqno, 1, c.stack);
    ReleaseCounts(core, c.info.old_ptr);
    ObtainCounts(Release(core, c.info.old_ptr), c.info.new_ptr, c.info.size, c.stack);
  }

  lemma {:induction false} DrainCounts<S>(st: State<S>)
    requires Counted(st.core)
    ensures Counted(Drain(st).core)
    decreases st.queue
  {
    if st.queue.Cons? && st.queue.head.info.seqno == st.seqno {
      ApplyCounts(st.core, st.seqno + 1, st.queue.head);
      DrainCounts(Execute(st.(queue := st.queue.tail), st.queue.head));
    }
  }

  /** The counters agree with the table after any commands in any order, also if numbers
      are missing or doubled. */
  lemma {:induction false} RunCounts<S>(st: State<S>, arrivals: List<Command<S>>)
    requires Counted(st.core)
    ensures Counted(Run(st, arrivals).core)
  {
    if arrivals.Cons? {
      RunCounts(st, arrivals.tail);
      var before := Run(st, arrivals.tail);
      if arrivals.head.info.seqno == before.seqno {
        ApplyCounts(before.core, before.seqno + 1, arrivals.head);
        DrainCounts(Execute(before, arrivals.head));
      }
    }
  }

  // ----- One command

  /** What a malloc, realloc or free does: the old pointer goes, and the new one gets a block
      unless it is NULL or still there, in which case the first block stays. */
  lemma CommandTable<S>(core: Core<S>, seqno: nat, c: Command<S>)
    requires c.info.operation.Malloc? || c.info.operation.Realloc? || c.info.operation.Free?
    ensures var kept := if c.info.old_ptr == 0 then core.heap else core.heap - {c.info.old_ptr};
            Apply(core, seqno, c).heap ==
            if c.info.new_ptr == 0 || c.info.new_ptr in kept then kept
            else kept[c.info.new_ptr := Cell(c.info.size % 0x1_0000_0000, c.stack)]
  {
  }

  /** What it does to the counters, which have 32 bits. */
  lemma CommandCounters<S>(core: Core<S>, seqno: nat, c: Command<S>)
    requires c.info.operation.Malloc? || c.info.operation.Realloc? || c.info.operation.Free?
    ensures var after, gone, there := Apply(core, seqno, c), c.info.old_ptr, c.info.new_ptr;
            var goes := gone != 0 && gone in core.heap;
            var comes := there != 0 && (there !in core.heap || there == gone);
            && (after.bytes_used - core.bytes_used + (if goes then core.heap[gone].size else 0)
                  - if comes then c.info.size else 0) % 0x1_0000_0000 == 0
            && (after.n_allocations - core.n_allocations + (if goes then 1 else 0)
                  - if comes then 1 else 0) % 0x1_0000_0000 == 0
            && (goes || comes ==> after.bytes_used < 0x1_0000_0000 && after.n_allocations < 0x1_0000_0000)
  {
  }

  /** What a timer tick and an exit do. */
  lemma OtherCommands<S>(core: Core<S>, seqno: nat, c: Command<S>)
    ensures c.info.operation.Exit? ==> Apply(core, seqno, c) == core
    ensures c.info.operation.Time? && (seqno == 0 || seqno in core.heap) ==> Apply(core, seqno, c) == core
    ensures c.info.operation.Time? && seqno != 0 && seqno !in core.heap ==>
              Apply(core, seqno, c) == Core((core.bytes_used + 1) % 0x1_0000_0000,
                                            (core.n_allocations + 1) % 0x1_0000_0000,
                                            core.heap[seqno := Cell(1, c.stack)])
  {
  }

  // ----- Where blocks come from

  /** The cell at a is what the command c got. */
  ghost predicate Records<S>(cell: Cell<S>, a: Addr, c: Command<S>) {
    && cell.stack == c.stack
    && match c.info.operation
       case Exit => false
       case Time => a == c.info.seqno + 1 && cell.size == 1
       case _ => a == c.info.new_ptr && cell.size == Wrap32(c.info.size)
  }

  /** Everything in the table and in the queue comes from these commands. */
  ghost predicate Recorded<S>(st: State<S>, cs: set<Command<S>>) {
    && (forall a :: a in st.core.heap ==> exists c :: c in cs && Records(st.core.heap[a], a, c))
    && Elements(st.queue) <= cs
  }

  lemma ExecuteRecords<S>(st: State<S>, c: Command<S>, cs: set<Command<S>>)
    requires Recorded(st, cs) && c in cs && c.info.seqno == st.seqno
    ensures Recorded(Execute(st, c), cs)
  {
    var next := Execute(st, c);
    forall a | a in next.core.heap ensures exists d :: d in cs && Records(next.core.heap[a], a, d) {
      if a in st.core.heap && next.core.heap[a] == st.core.heap[a] {
        var d :| d in cs && Records(st.core.heap[a], a, d);
        assert Records(next.core.heap[a], a, d);
      } else {
        assert Records(next.core.heap[a], a, c);
      }
    }
  }

  lemma {:induction false} DrainRecords<S>(st: State<S>, cs: set<Command<S>>)
    requires Recorded(st, cs)
    ensures Recorded(Drain(st), cs)
    decreases st.queue
  {
    if st.queue.Cons? && st.queue.head.info.seqno == st.seqno {
      var rest := st.(queue := st.queue.tail);
      ExecuteRecords(rest, st.queue.head, cs);
      DrainRecords(Execute(rest, st.queue.head), cs);
    }
  }

  lemma ReceiveRecords<S>(st: State<S>, c: Command<S>, cs: set<Command<S>>)
    requires Recorded(st, cs) && c in cs
    ensures Recorded(Receive(st, c), cs)
  {
    if c.info.seqno == st.seqno {
      ExecuteRecords(st, c, cs);
      DrainRecords(Execute(st, c), cs);
    } else {
      InsertedCommands(st.queue, c);
    }
  }

  // ----- The live heap

  /** What a command lets go of and what it gets: nothing on exit, and one byte at the address
      of its number for a timer tick. */
  datatype Request = Request(old_ptr: Addr, new_ptr: Addr, size: nat)

  ghost function RequestOf<S>(c: Command<S>, seqno: nat): Request {
    match c.info.operation
    case Exit => Request(0, 0, 0)
    case Time => Request(0, seqno, 1)
    case _ => Request(c.info.old_ptr, c.info.new_ptr, c.info.size)
  }

  /** The heap of the traced program: what it lets go of is gone, what it gets is there. */
  ghost function Live<S>(heap: map<Addr, Cell<S>>, r: Request, stack: S): map<Addr, Cell<S>> {
    var freed := heap - {r.old_ptr};
    if r.new_ptr == 0 then freed else freed[r.new_ptr := Cell(Wrap32(r.size), stack)]
  }

  /** The program only gets blocks that it does not already have. */
  ghost predicate GetsFresh<S>(heap: map<Addr, Cell<S>>, r: Request, stack: S) {
    r.new_ptr == 0 || r.new_ptr !in heap || r.new_ptr == r.old_ptr || heap[r.new_ptr] == Cell(Wrap32(r.size), stack)
  }

  /** A command makes the table the live heap exactly if what it gets is fresh; freeing a
      pointer that is not live does no harm.  Otherwise the older block stays. */
  lemma ApplyIsLiveIff<S>(core: Core<S>, seqno: nat, c: Command<S>)
    requires 0 !in core.heap
    ensures 0 !in Apply(core, seqno, c).heap
    ensures var r := RequestOf(c, seqno);
            Apply(core, seqno, c).heap == Live(core.heap, r, c.stack) <==> GetsFresh(core.heap, r, c.stack)
  {
    var r := RequestOf(c, seqno);
    assert Release(core, r.old_ptr).heap == core.heap - {r.old_ptr};
    if !GetsFresh(core.heap, r, c.stack) {
      assert Live(core.heap, r, c.stack)[r.new_ptr] == Cell(Wrap32(r.size), c.stack);
    }
  }

  /** What becomes of a heap with the commands numbered start up to but not including end. */
  ghost function LiveRun<S>(m: map<nat, Command<S>>, start: nat, heap: map<Addr, Cell<S>>, end: nat): map<Addr, Cell<S>>
    requires start <= end && forall k :: start <= k < end ==> k in m
  {
    if end == start then heap
    else Live(LiveRun(m, start, heap, end - 1), RequestOf(m[end - 1], end), m[end - 1].stack)
  }

  ghost predicate FreshAt<S>(m: map<nat, Command<S>>, start: nat, heap: map<Addr, Cell<S>>, k: nat)
    requires start < k && forall j :: start <= j < k ==> j in m
  {
    GetsFresh(LiveRun(m, start, heap, k - 1), RequestOf(m[k - 1], k), m[k - 1].stack)
  }

  /** Each of these commands gets a fresh block if it gets one. */
  ghost predicate FreshRun<S>(m: map<nat, Command<S>>, start: nat, heap: map<Addr, Cell<S>>, end: nat)
    requires start <= end && forall k :: start <= k < end ==> k in m
  {
    forall k :: start < k <= end ==> FreshAt(m, start, heap, k)
  }

  /** If the table is the live heap at first, it is so after each of these commands. */
  ghost predicate AlwaysLive<S>(m: map<nat, Command<S>>, start: nat, core: Core<S>, end: nat)
    requires start <= end && forall k :: start <= k < end ==> k in m
  {
    forall k :: start <= k <= end ==> InOrder(m, start, core, k).heap == LiveRun(m, start, core.heap, k)
  }

  /** Whatever order commands of any kind arrive in, and whatever is in the table at first, the
      table is the live heap all along the executed run if and only if the program only ever
      got fresh blocks. */
  lemma RunIsLiveIff<S>(start: nat, core: Core<S>, arrivals: List<Command<S>>)
    requires Distinct(arrivals, start) && 0 !in core.heap
    ensures var st, m := Run(State(start, core, Nil), arrivals), Numbered(arrivals);
            && Settled(st, m, start, core)
            && (AlwaysLive(m, start, core, st.seqno) <==> FreshRun(m, start, core.heap, st.seqno))
  {
    RunSettles(start, core, arrivals);
    SettledIsLiveIff(Run(State(start, core, Nil), arrivals), Numbered(arrivals), start, core);
  }

  /** The same of any state that is settled: of a forked child, which starts from the heap of
      its parent, and of a process whose profile was reset, which starts from none and has
      commands in its queue. */
  lemma SettledIsLiveIff<S>(st: State<S>, m: map<nat, Command<S>>, start: nat, core: Core<S>)
    requires Settled(st, m, start, core) && 0 !in core.heap
    ensures AlwaysLive(m, start, core, st.seqno) <==> FreshRun(m, start, core.heap, st.seqno)
  {
    InOrderIsLiveIff(m, start, core, st.seqno);
  }

  /** process_clear_input: a settled state stays settled, with what is queued as all that has
      been sent. */
  lemma ClearSettles<S>(st: State<S>, m: map<nat, Command<S>>, start: nat, core: Core<S>)
    requires Settled(st, m, start, core)
    ensures var cleared: Core<S> := Core(0, 0, map[]);
            Settled(State(st.seqno, cleared, st.queue), map k | k in m && k >= st.seqno :: m[k], st.seqno, cleared)
  {
  }

  lemma MergeOne<K, V>(m: map<K, V>, n: map<K, V>, k: K, v: V)
    ensures (m + n)[k := v] == m + n[k := v]
  {
  }

  /** From there on as from a new process: commands with new numbers keep it settled. */
  lemma {:induction false} RunStaysSettled<S>(st: State<S>, m: map<nat, Command<S>>, start: nat, core: Core<S>,
                                              arrivals: List<Command<S>>)
    requires Settled(st, m, start, core) && Distinct(arrivals, start)
    requires forall k :: k in Numbered(arrivals) ==> k !in m
    ensures Settled(Run(st, arrivals), m + Numbered(arrivals), start, core)
  {
    hide Settled, Receive;
    if arrivals.Cons? {
      var c := arrivals.head;
      RunStaysSettled(st, m, start, core, arrivals.tail);
      ReceiveSettles(Run(st, arrivals.tail), m + Numbered(arrivals.tail), start, core, c);
      MergeOne(m, Numbered(arrivals.tail), c.info.seqno, c);
    } else {
      assert m + Numbered(arrivals) == m;
    }
  }

  lemma {:induction false} InOrderIsLiveIff<S>(m: map<nat, Command<S>>, start: nat, core: Core<S>, end: nat)
    requires start <= end && (forall k :: start <= k < end ==> k in m) && 0 !in core.heap
    ensures 0 !in InOrder(m, start, core, end).heap
    ensures AlwaysLive(m, start, core, end) <==> FreshRun(m, start, core.heap, end)
  {
    if end != start {
      InOrderIsLiveIff(m, start, core, end - 1);
      ApplyIsLiveIff(InOrder(m, start, core, end - 1), end, m[end - 1]);
      assert AlwaysLive(m, start, core, end) <==>
             && AlwaysLive(m, start, core, end - 1)
             && InOrder(m, start, core, end).heap == LiveRun(m, start, core.heap, end);
      assert FreshRun(m, start, core.heap, end) <==>
             FreshRun(m, start, core.heap, end - 1) && FreshAt(m, start, core.heap, end);
    }
  }
}
