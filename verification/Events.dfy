/** The event engine of src/process.c on values: what one command does to the table of
    live blocks, and how commands that arrive out of order are put back into order. */
module Events {
  import opened StackStash

  /** The operations that reach process_command; the server answers the other ones itself
      when a process or thread connects. */
  datatype Operation = Malloc | Realloc | Free | Time | Exit

  datatype Info = Info(operation: Operation, seqno: nat, old_ptr: Addr, new_ptr: Addr, size: nat)

  datatype Command<S> = Command(info: Info, stack: S)

  datatype List<T> = Nil | Cons(head: T, tail: List<T>)

  ghost function Elements<T>(list: List<T>): set<T> {
    if list.Nil? then {} else {list.head} + Elements(list.tail)
  }

  ghost predicate NoRepeats<T>(list: List<T>) {
    list.Cons? ==> list.head !in Elements(list.tail) && NoRepeats(list.tail)
  }

  /** What the table records of a block; S is the kind of stack it carries. */
  datatype Cell<S> = Cell(size: nat, stack: S)

  datatype Core<S> = Core(bytes_used: nat, n_allocations: nat, heap: map<Addr, Cell<S>>)

  datatype State<S> = State(seqno: nat, core: Core<S>, queue: List<Command<S>>)

  // ----- One command

  function Release<S>(core: Core<S>, ptr: Addr): Core<S> {
    if ptr != 0 && ptr in core.heap then
      Core(Wrap32(core.bytes_used - core.heap[ptr].size), Wrap32(core.n_allocations - 1), core.heap - {ptr})
    else core
  }

  function Obtain<S>(core: Core<S>, ptr: Addr, size: nat, stack: S): Core<S> {
    if ptr != 0 && ptr !in core.heap then
      Core(Wrap32(core.bytes_used + size), Wrap32(core.n_allocations + 1), core.heap[ptr := Cell(Wrap32(size), stack)])
    else core
  }

  /** The switch in process_command; seqno has already been advanced.  A timer tick is
      recorded as a block of one byte at the address seqno. */
  function Apply<S>(core: Core<S>, seqno: nat, c: Command<S>): Core<S> {
    match c.info.operation
    case Exit => core
    case Time => Obtain(core, seqno, 1, c.stack)
    case _ => Obtain(Release(core, c.info.old_ptr), c.info.new_ptr, c.info.size, c.stack)
  }

  /** g_list_insert_sorted with queue_compare: before the first element that is not smaller. */
  function InsertSorted<S>(queue: List<Command<S>>, c: Command<S>): List<Command<S>> {
    if queue.Nil? || c.info.seqno <= queue.head.info.seqno then Cons(c, queue)
    else Cons(queue.head, InsertSorted(queue.tail, c))
  }

  function Execute<S>(st: State<S>, c: Command<S>): State<S> {
    State(st.seqno + 1, Apply(st.core, st.seqno + 1, c), st.queue)
  }

  /** Executes queued commands while the first one is due. */
  function Drain<S>(st: State<S>): State<S>
    decreases st.queue
  {
    if st.queue.Cons? && st.queue.head.info.seqno == st.seqno then
      Drain(Execute(st.(queue := st.queue.tail), st.queue.head))
    else st
  }

  function Receive<S>(st: State<S>, c: Command<S>): State<S> {
    if c.info.seqno != st.seqno then st.(queue := InsertSorted(st.queue, c))
    else Drain(Execute(st, c))
  }

  /** Receives the commands of a list whose latest arrival is outermost. */
  ghost function Run<S>(st: State<S>, arrivals: List<Command<S>>): State<S> {
    if arrivals.Nil? then st else Receive(Run(st, arrivals.tail), arrivals.head)
  }

  ghost function Count<T>(list: List<T>): nat {
    if list.Nil? then 0 else 1 + Count(list.tail)
  }

  lemma {:induction false} DrainShrinks<S>(st: State<S>)
    ensures Count(Drain(st).queue) <= Count(st.queue)
    ensures Drain(Drain(st)) == Drain(st)
    decreases st.queue
  {
    if st.queue.Cons? && st.queue.head.info.seqno == st.seqno {
      DrainShrinks(Execute(st.(queue := st.queue.tail), st.queue.head));
    }
  }

  // ----- Commands by number

  ghost function Numbered<S>(cs: List<Command<S>>): map<nat, Command<S>> {
    if cs.Nil? then map[] else Numbered(cs.tail)[cs.head.info.seqno := cs.head]
  }

  /** No number below start and none twice: what the atomic counter of the traced
      program gives. */
  ghost predicate Distinct<S>(cs: List<Command<S>>, start: nat) {
    cs.Cons? ==>
      && cs.head.info.seqno >= start
      && cs.head.info.seqno !in Numbered(cs.tail)
      && Distinct(cs.tail, start)
  }

  /** The commands numbered start, start + 1, ... up to but not including end, in this order. */
  ghost function InOrder<S>(m: map<nat, Command<S>>, start: nat, core: Core<S>, end: nat): Core<S>
    requires start <= end && forall k :: start <= k < end ==> k in m
  {
    if end == start then core else Apply(InOrder(m, start, core, end - 1), end, m[end - 1])
  }

  lemma {:induction false} InOrderFrame<S>(m: map<nat, Command<S>>, start: nat, core: Core<S>, end: nat, k: nat,
          c: Command<S>)
    requires start <= end && forall k :: start <= k < end ==> k in m
    requires end <= k
    ensures InOrder(m[k := c], start, core, end) == InOrder(m, start, core, end)
  {
    if end != start {
      InOrderFrame(m, start, core, end - 1, k, c);
    }
  }

  ghost predicate Ascending<S>(queue: List<Command<S>>, above: int) {
    queue.Cons? ==> queue.head.info.seqno > above && Ascending(queue.tail, queue.head.info.seqno)
  }

  /** The queue holds exactly the commands of m numbered from or above. */
  ghost predicate Queued<S>(queue: List<Command<S>>, m: map<nat, Command<S>>, from: nat) {
    && Ascending(queue, from - 1)
    && (forall k :: k in m ==> m[k].info.seqno == k)
    && (forall k :: k in m && k >= from ==> m[k] in Elements(queue))
    && (forall c :: c in Elements(queue) ==> c.info.seqno in m && c.info.seqno >= from && m[c.info.seqno] == c)
  }

  /** Of the commands in m, the state has executed a run from start in order and queues the rest. */
  ghost predicate Consistent<S>(st: State<S>, m: map<nat, Command<S>>, start: nat, core: Core<S>) {
    && start <= st.seqno
    && (forall k :: start <= k < st.seqno ==> k in m)
    && (forall k :: k in m ==> start <= k)
    && st.core == InOrder(m, start, core, st.seqno)
    && Queued(st.queue, m, st.seqno)
  }

  /** The executed run is as long as it can be. */
  ghost predicate Settled<S>(st: State<S>, m: map<nat, Command<S>>, start: nat, core: Core<S>) {
    Consistent(st, m, start, core) && st.seqno !in m
  }

  // ----- The queue

  lemma {:induction false} AscendingBound<S>(queue: List<Command<S>>, above: int)
    requires Ascending(queue, above)
    ensures forall c :: c in Elements(queue) ==> c.info.seqno > above
  {
    if queue.Cons? {
      AscendingBound(queue.tail, queue.head.info.seqno);
    }
  }

  ghost function Append<T>(front: List<T>, back: List<T>): List<T> {
    if front.Nil? then back else Cons(front.head, Append(front.tail, back))
  }

  /** A command is queued behind all that have smaller numbers, and before the first that has not. */
  lemma {:induction false} InsertedBetween<S>(queue: List<Command<S>>, c: Command<S>)
    returns (front: List<Command<S>>, back: List<Command<S>>)
    ensures queue == Append(front, back) && InsertSorted(queue, c) == Append(front, Cons(c, back))
    ensures forall d :: d in Elements(front) ==> d.info.seqno < c.info.seqno
    ensures back.Cons? ==> c.info.seqno <= back.head.info.seqno
  {
    if queue.Nil? || c.info.seqno <= queue.head.info.seqno {
      front, back := Nil, queue;
    } else {
      front, back := InsertedBetween(queue.tail, c);
      front := Cons(queue.head, front);
    }
  }

  lemma {:induction false} InsertedCommands<S>(queue: List<Command<S>>, c: Command<S>)
    ensures Elements(InsertSorted(queue, c)) == Elements(queue) + {c}
  {
    if queue.Cons? && c.info.seqno > queue.head.info.seqno {
      InsertedCommands(queue.tail, c);
    }
  }

  lemma {:induction false} InsertedAscending<S>(queue: List<Command<S>>, c: Command<S>, above: int)
    requires Ascending(queue, above) && c.info.seqno > above
    requires forall d :: d in Elements(queue) ==> d.info.seqno != c.info.seqno
    ensures Ascending(InsertSorted(queue, c), above)
  {
    if queue.Cons? && c.info.seqno > queue.head.info.seqno {
      InsertedAscending(queue.tail, c, queue.head.info.seqno);
    }
  }

  /** A strictly sorted queue is determined by what it holds. */
  lemma {:induction false} AscendingUnique<S>(a: List<Command<S>>, b: List<Command<S>>, above: int)
    requires Ascending(a, above) && Ascending(b, above)
    requires Elements(a) == Elements(b)
    ensures a == b
  {
    if a.Nil? {
      assert b.Nil?;
    } else {
      assert a.head in Elements(a);
      assert b.Cons? && b.head in Elements(b);
      AscendingBound(a.tail, a.head.info.seqno);
      AscendingBound(b.tail, b.head.info.seqno);
      assert a.head == b.head;
      assert Elements(a.tail) == Elements(a) - {a.head};
      assert Elements(b.tail) == Elements(b) - {b.head};
      AscendingUnique(a.tail, b.tail, a.head.info.seqno);
    }
  }

  // ----- Reordering

  lemma DrainStep<S>(st: State<S>, m: map<nat, Command<S>>, start: nat, core: Core<S>)
    requires Consistent(st, m, start, core)
    requires st.queue.Cons? && st.queue.head.info.seqno == st.seqno
    ensures Consistent(Execute(st.(queue := st.queue.tail), st.queue.head), m, start, core)
  {
    AscendingBound(st.queue.tail, st.seqno);
    assert st.queue.head in Elements(st.queue);
  }

  lemma {:induction false} DrainSettles<S>(st: State<S>, m: map<nat, Command<S>>, start: nat, core: Core<S>)
    requires Consistent(st, m, start, core)
    ensures Settled(Drain(st), m, start, core)
    decreases st.queue
  {
    if st.queue.Cons? && st.queue.head.info.seqno == st.seqno {
      DrainStep(st, m, start, core);
      DrainSettles(Execute(st.(queue := st.queue.tail), st.queue.head), m, start, core);
    } else if st.queue.Cons? {
      assert st.queue.head in Elements(st.queue);
      AscendingBound(st.queue.tail, st.queue.head.info.seqno);
    }
  }

  lemma ReceiveEarly<S>(st: State<S>, m: map<nat, Command<S>>, start: nat, core: Core<S>, c: Command<S>)
    requires Settled(st, m, start, core)
    requires c.info.seqno > st.seqno && c.info.seqno !in m
    ensures Queued(InsertSorted(st.queue, c), m[c.info.seqno := c], st.seqno)
  {
    InsertedCommands(st.queue, c);
    InsertedAscending(st.queue, c, st.seqno - 1);
  }

  lemma ReceiveDue<S>(st: State<S>, m: map<nat, Command<S>>, start: nat, core: Core<S>, c: Command<S>)
    requires Settled(st, m, start, core) && c.info.seqno == st.seqno
    ensures Consistent(Execute(st, c), m[c.info.seqno := c], start, core)
  {
    InOrderFrame(m, start, core, st.seqno, st.seqno, c);
    AscendingBound(st.queue, st.seqno - 1);
    assert st.queue.Cons? ==> st.queue.head in Elements(st.queue);
  }

  lemma ReceiveSettles<S>(st: State<S>, m: map<nat, Command<S>>, start: nat, core: Core<S>, c: Command<S>)
    requires Settled(st, m, start, core)
    requires c.info.seqno >= start && c.info.seqno !in m
    ensures Settled(Receive(st, c), m[c.info.seqno := c], start, core)
  {
    InOrderFrame(m, start, core, st.seqno, c.info.seqno, c);
    if c.info.seqno != st.seqno {
      ReceiveEarly(st, m, start, core, c);
    } else {
      ReceiveDue(st, m, start, core, c);
      DrainSettles(Execute(st, c), m[c.info.seqno := c], start, core);
    }
  }

  /** Whatever order the commands arrive in, the state is that of executing, in the order
      of their numbers, the longest run that starts at the first number. */
  lemma {:induction false} RunSettles<S>(start: nat, core: Core<S>, arrivals: List<Command<S>>)
    requires Distinct(arrivals, start)
    ensures Settled(Run(State(start, core, Nil), arrivals), Numbered(arrivals), start, core)
  {
    if arrivals.Cons? {
      RunSettles(start, core, arrivals.tail);
      ReceiveSettles(Run(State(start, core, Nil), arrivals.tail), Numbered(arrivals.tail), start, core, arrivals.head);
    }
  }

  lemma SettledUnique<S>(a: State<S>, b: State<S>, m: map<nat, Command<S>>, start: nat, core: Core<S>)
    requires Settled(a, m, start, core) && Settled(b, m, start, core)
    ensures a == b
  {
    assert a.seqno == b.seqno;
    AscendingUnique(a.queue, b.queue, a.seqno - 1);
  }

  lemma {:induction false} NumberOf<S>(cs: List<Command<S>>, start: nat, c: Command<S>)
    requires Distinct(cs, start) && c in Elements(cs)
    ensures c.info.seqno in Numbered(cs) && Numbered(cs)[c.info.seqno] == c
  {
    if c != cs.head {
      NumberOf(cs.tail, start, c);
    }
  }

  lemma {:induction false} CommandAt<S>(cs: List<Command<S>>, k: nat)
    requires k in Numbered(cs)
    ensures Numbered(cs)[k].info.seqno == k && Numbered(cs)[k] in Elements(cs)
  {
    if k != cs.head.info.seqno {
      CommandAt(cs.tail, k);
    }
  }

  lemma NumberedIncluded<S>(start: nat, a: List<Command<S>>, b: List<Command<S>>)
    requires Distinct(a, start) && Distinct(b, start) && Elements(a) <= Elements(b)
    ensures forall k :: k in Numbered(a) ==> k in Numbered(b) && Numbered(b)[k] == Numbered(a)[k]
  {
    forall k | k in Numbered(a)
      ensures k in Numbered(b) && Numbered(b)[k] == Numbered(a)[k]
    {
      CommandAt(a, k);
      NumberOf(b, start, Numbered(a)[k]);
    }
  }

  /** Two arrival orders of the same commands lead to the same state, queue included. */
  lemma OrderIsInvisible<S>(start: nat, core: Core<S>, a: List<Command<S>>, b: List<Command<S>>)
    requires Distinct(a, start) && Distinct(b, start) && Elements(a) == Elements(b)
    ensures Run(State(start, core, Nil), a) == Run(State(start, core, Nil), b)
  {
    NumberedIncluded(start, a, b);
    NumberedIncluded(start, b, a);
    assert Numbered(a) == Numbered(b);
    RunSettles(start, core, a);
    RunSettles(start, core, b);
    SettledUnique(Run(State(start, core, Nil), a), Run(State(start, core, Nil), b), Numbered(a), start, core);
  }

  /** Once every number has arrived nothing is left waiting. */
  lemma AllArrived<S>(start: nat, core: Core<S>, arrivals: List<Command<S>>, end: nat)
    requires Distinct(arrivals, start) && start <= end
    requires forall k :: k in Numbered(arrivals) <==> start <= k < end
    ensures Run(State(start, core, Nil), arrivals) ==
            State(end, InOrder(Numbered(arrivals), start, core, end), Nil)
  {
    RunSettles(start, core, arrivals);
    var st := Run(State(start, core, Nil), arrivals);
    assert st.seqno == end;
    assert Elements(st.queue) == {};
  }
}
