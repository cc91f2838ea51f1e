/** What a process looks like when its stacks are read in some other way than as nodes of a
    stash.  The event engine never looks at a stack, so it does the same on every reading. */
module TraceView {
  import opened Ledger
  import opened StackStash
  import opened Events
  import opened EventTheorems

  type Trace = Path<Addr>

  /** A stack as a value: the number of the stash that its nodes are freed with, and the trace
      that they spell as long as they are not. */
  datatype Held = NoStack | Owned(stash: nat, trace: Trace)

  ghost function HeldBy(stack: Stack): Held {
    if stack == null then NoStack else Owned(stack.home, stack.path)
  }

  ghost function TraceOf(h: Held): Trace {
    if h.NoStack? then Root else h.trace
  }

  // ----- Readings

  ghost function MapHeap<S, T>(f: S -> T, heap: map<Addr, Cell<S>>): map<Addr, Cell<T>> {
    map a | a in heap :: Cell(heap[a].size, f(heap[a].stack))
  }

  ghost function MapCore<S, T>(f: S -> T, core: Core<S>): Core<T> {
    Core(core.bytes_used, core.n_allocations, MapHeap(f, core.heap))
  }

  ghost function MapCommand<S, T>(f: S -> T, c: Command<S>): Command<T> {
    Command(c.info, f(c.stack))
  }

  ghost function MapQueue<S, T>(f: S -> T, queue: List<Command<S>>): List<Command<T>> {
    if queue.Nil? then Nil else Cons(MapCommand(f, queue.head), MapQueue(f, queue.tail))
  }

  ghost function MapState<S, T>(f: S -> T, st: State<S>): State<T> {
    State(st.seqno, MapCore(f, st.core), MapQueue(f, st.queue))
  }

  lemma MapRelease<S, T>(f: S -> T, core: Core<S>, ptr: Addr)
    ensures MapCore(f, Release(core, ptr)) == Release(MapCore(f, core), ptr)
  {
    assert MapHeap(f, core.heap - {ptr}) == MapHeap(f, core.heap) - {ptr};
  }

  lemma MapObtain<S, T>(f: S -> T, core: Core<S>, ptr: Addr, size: nat, stack: S)
    ensures MapCore(f, Obtain(core, ptr, size, stack)) == Obtain(MapCore(f, core), ptr, size, f(stack))
  {
    var cell := Cell(Wrap32(size), stack);
    assert MapHeap(f, core.heap[ptr := cell]) == MapHeap(f, core.heap)[ptr := Cell(Wrap32(size), f(stack))];
  }

  lemma MapApply<S, T>(f: S -> T, core: Core<S>, seqno: nat, c: Command<S>)
    ensures MapCore(f, Apply(core, seqno, c)) == Apply(MapCore(f, core), seqno, MapCommand(f, c))
  {
    hide MapCore, Release, Obtain;
    match c.info.operation
    case Exit =>
    case Time =>
      MapObtain(f, core, seqno, 1, c.stack);
    case Malloc | Realloc | Free =>
      MapRelease(f, core, c.info.old_ptr);
      MapObtain(f, Release(core, c.info.old_ptr), c.info.new_ptr, c.info.size, c.stack);
  }

  lemma {:induction false} MapInsert<S, T>(f: S -> T, queue: List<Command<S>>, c: Command<S>)
    ensures MapQueue(f, InsertSorted(queue, c)) == InsertSorted(MapQueue(f, queue), MapCommand(f, c))
  {
    if queue.Cons? && c.info.seqno > queue.head.info.seqno {
      MapInsert(f, queue.tail, c);
    }
  }

  lemma {:induction false} MapDrain<S, T>(f: S -> T, st: State<S>)
    ensures MapState(f, Drain(st)) == Drain(MapState(f, st))
    decreases st.queue
  {
    hide MapCore, Apply;
    if st.queue.Cons? && st.queue.head.info.seqno == st.seqno {
      MapApply(f, st.core, st.seqno + 1, st.queue.head);
      MapDrain(f, Execute(st.(queue := st.queue.tail), st.queue.head));
    }
  }

  /** Receiving a command and then reading the stacks is the same as reading the stacks and
      then receiving the command with its stack as it reads. */
  lemma MapReceive<S, T>(f: S -> T, st: State<S>, c: Command<S>)
    ensures MapState(f, Receive(st, c)) == Receive(MapState(f, st), MapCommand(f, c))
  {
    hide MapCore, Apply, Drain;
    if c.info.seqno != st.seqno {
      MapInsert(f, st.queue, c);
    } else {
      MapApply(f, st.core, st.seqno + 1, c);
      MapDrain(f, Execute(st, c));
    }
  }

  /** The counters of a process are right for its blocks if and only if they are for any
      reading of them. */
  lemma MapCounted<S, T>(f: S -> T, core: Core<S>)
    ensures Counted(MapCore(f, core)) <==> Counted(core)
  {
    hide Wrap32;
    MapBytes(f, core.heap);
    assert MapHeap(f, core.heap).Keys == core.heap.Keys;
  }

  lemma {:induction false} MapBytes<S, T>(f: S -> T, heap: map<Addr, Cell<S>>)
    ensures HeapBytes(MapHeap(f, heap)) == HeapBytes(heap)
    decreases |heap|
  {
    assert MapHeap(f, heap).Keys == heap.Keys;
    if heap.Keys != {} {
      var a := AnyOf(heap.Keys);
      MapBytes(f, heap - {a});
      assert MapHeap(f, heap - {a}) == MapHeap(f, heap) - {a};
    }
  }

  // ----- Held stacks

  /** Something in the table or in the queue of a process holds a stack of s. */
  ghost predicate Keeps<S>(st: State<S>, s: S) {
    || (exists a :: a in st.core.heap && st.core.heap[a].stack == s)
    || (exists c :: c in Elements(st.queue) && c.stack == s)
  }

  lemma ExecuteKeeps<S>(st: State<S>, c: Command<S>, s: S)
    requires Keeps(Execute(st, c), s)
    ensures Keeps(st, s) || c.stack == s
  {
    var next := Execute(st, c);
    if a :| a in next.core.heap && next.core.heap[a].stack == s {
      assert (a in st.core.heap && st.core.heap[a].stack == s) || c.stack == s;
    }
  }

  lemma {:induction false} DrainKeeps<S>(st: State<S>, s: S)
    requires Keeps(Drain(st), s)
    ensures Keeps(st, s)
    decreases st.queue
  {
    if st.queue.Cons? && st.queue.head.info.seqno == st.seqno {
      var rest := st.(queue := st.queue.tail);
      DrainKeeps(Execute(rest, st.queue.head), s);
      ExecuteKeeps(rest, st.queue.head, s);
      assert st.queue.head in Elements(st.queue);
    }
  }

  /** A process comes to hold no stack but the one that is received. */
  lemma ReceiveKeeps<S>(st: State<S>, c: Command<S>, s: S)
    requires Keeps(Receive(st, c), s)
    ensures Keeps(st, s) || c.stack == s
  {
    if c.info.seqno != st.seqno {
      InsertedCommands(st.queue, c);
    } else {
      DrainKeeps(Execute(st, c), s);
      ExecuteKeeps(st, c, s);
    }
  }

  /** Readings that agree on all stacks that are held show the same. */
  lemma SameReading<S, T>(f: S -> T, g: S -> T, st: State<S>)
    requires forall s :: Keeps(st, s) ==> f(s) == g(s)
    ensures MapState(f, st) == MapState(g, st)
  {
    forall a | a in st.core.heap ensures f(st.core.heap[a].stack) == g(st.core.heap[a].stack) {
      assert Keeps(st, st.core.heap[a].stack);
    }
    forall c | c in Elements(st.queue) ensures f(c.stack) == g(c.stack) {
      assert Keeps(st, c.stack);
    }
    assert MapHeap(f, st.core.heap) == MapHeap(g, st.core.heap);
    SameQueue(f, g, st.queue);
  }

  lemma {:induction false} SameQueue<S, T>(f: S -> T, g: S -> T, queue: List<Command<S>>)
    requires forall c :: c in Elements(queue) ==> f(c.stack) == g(c.stack)
    ensures MapQueue(f, queue) == MapQueue(g, queue)
  {
    if queue.Cons? {
      SameQueue(f, g, queue.tail);
    }
  }
}
