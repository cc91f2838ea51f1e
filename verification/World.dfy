/** Whole runs of the program on values: any number of processes, each with its window and its
    stash, and any sequence of commands, forks, resets and leak reports. */
module World {
  import opened Ledger
  import opened StackStash
  import opened Events
  import opened EventTheorems
  import opened TraceView
  import opened LeakDetect
  import opened HeapLeaks
  import opened Reachability

  /** What may happen next to the process with number i and its window; a number that has not
      been given out yet stands for nothing.
      Deliver: a thread sends a command with a trace (input_func, src/process.c:601-664).
      Branch: the process forks (src/server.c:536-539, src/main.c:973-981).
      Start: a process is started (src/main.c:983-1004, src/server.c:515-523).
      Restart: it executes another program (src/process.c:515-520, src/main.c:866-870).
      Clear: the profile is reset (src/main.c:1213-1222).
      Report: leaks are looked for (src/main.c:1150-1178).
      Finish: the process ends or is detached (src/main.c:872-898). */
  datatype Action =
    | Deliver(i: nat, info: Info, addrs: seq<Addr>)
    | Branch(i: nat)
    | Start
    | Restart(i: nat)
    | Clear(i: nat)
    | Report(i: nat, areas: List<Area>, memory: Memory, is_open: bool)
    | Finish(i: nat)

  predicate Possible(actions: List<Action>) {
    actions.Cons? ==> (actions.head.Report? ==> actions.head.memory.Valid()) && Possible(actions.tail)
  }

  // ----- Processes and windows

  /** A process and the leak list of its window: addresses and stacks. */
  datatype Seat<S(==)> = Seat(state: State<S>, leaks: set<(Addr, S)>)

  ghost function NewSeat<S>(): Seat<S> {
    Seat(State(0, Core(0, 0, map[]), Nil), {})
  }

  ghost function Leaks<S>(seat: Seat<S>, areas: List<Area>, memory: Memory): set<(Addr, S)> {
    set x | x in LeakedAt(memory, seat.state.core.heap, Elements(areas)) :: (x, seat.state.core.heap[x].stack)
  }

  /** What an action makes of its process and window; stack is what a command carries. */
  ghost function Evolve<S>(seat: Seat<S>, a: Action, stack: S): Seat<S> {
    match a
    case Deliver(_, info, _) => seat.(state := Receive(seat.state, Command(info, stack)))
    case Restart(_) => NewSeat()
    case Clear(_) => Seat(State(seat.state.seqno, Core(0, 0, map[]), seat.state.queue), {})
    case Report(_, areas, memory, is_open) => seat.(leaks := if is_open then Leaks(seat, areas, memory) else {})
    case Finish(_) => seat.(leaks := {})
    case _ => seat
  }

  /** The stack that a command arrives with: an exit has none, nor has an empty trace. */
  ghost function Sent(stash: nat, info: Info, addrs: seq<Addr>): Held {
    if info.operation.Exit? || addrs == [] then NoStack else Owned(stash, FromList(addrs, 0))
  }

  ghost function Carried(stash: nat, a: Action): Held {
    if a.Deliver? then Sent(stash, a.info, a.addrs) else NoStack
  }

  // ----- Worlds

  /** All processes with the numbers of their stashes, the next number for a stash, and the
      stashes that have been freed. */
  datatype World = World(seats: seq<Seat<Held>>, stashes: seq<nat>, next: nat, freed: set<nat>)

  ghost function AtFirst(): World {
    World([], [], 0, {})
  }

  /** Stashes are numbered once, and those in use have not been freed. */
  ghost predicate Good(w: World) {
    && |w.stashes| == |w.seats|
    && (forall i :: 0 <= i < |w.stashes| ==> w.stashes[i] < w.next && w.stashes[i] !in w.freed)
    && (forall i, j :: 0 <= i < j < |w.stashes| ==> w.stashes[i] != w.stashes[j])
    && (forall s :: s in w.freed ==> s < w.next)
  }

  /** One action.  A reset frees the stash of its process, whoever still holds its stacks. */
  ghost function Next(w: World, a: Action): World
    requires Good(w)
  {
    if a.Start? then World(w.seats + [NewSeat()], w.stashes + [w.next], w.next + 1, w.freed)
    else if a.i >= |w.seats| then w
    else if a.Branch? then
      World(w.seats + [Seat(Fork(w.seats[a.i].state), {})], w.stashes + [w.next], w.next + 1, w.freed)
    else
      var seats := w.seats[a.i := Evolve(w.seats[a.i], a, Carried(w.stashes[a.i], a))];
      if a.Restart? || a.Clear? then
        World(seats, w.stashes[a.i := w.next], w.next + 1, w.freed + {w.stashes[a.i]})
      else w.(seats := seats)
  }

  lemma NextGood(w: World, a: Action)
    requires Good(w)
    ensures Good(Next(w, a)) && |Next(w, a).seats| >= |w.seats|
  {
  }

  ghost function AfterAll(w: World, actions: List<Action>): (r: World)
    requires Good(w)
    ensures Good(r) && |r.seats| >= |w.seats|
    decreases actions
  {
    NextGood(w, if actions.Nil? then Start else actions.head);
    if actions.Nil? then w else AfterAll(Next(w, actions.head), actions.tail)
  }

  /** What a reset makes of a world, part by part. */
  lemma ResetIs(w: World, a: Action)
    requires Good(w) && (a.Restart? || a.Clear?) && a.i < |w.seats|
    ensures Good(Next(w, a)) && |w.stashes| == |w.seats| && forall s :: s in w.freed ==> s < w.next
    ensures Next(w, a).seats == w.seats[a.i :=
              if a.Restart? then NewSeat()
              else Seat(State(w.seats[a.i].state.seqno, Core(0, 0, map[]), w.seats[a.i].state.queue), {})]
    ensures Next(w, a).stashes == w.stashes[a.i := w.next] && Next(w, a).next == w.next + 1
    ensures Next(w, a).freed == w.freed + {w.stashes[a.i]}
  {
  }

  /** What an action does to a world in which all processes stay. */
  lemma StayIs(w: World, a: Action)
    requires Good(w) && (a.Deliver? || a.Report? || a.Finish?) && a.i < |w.seats|
    ensures Good(Next(w, a)) && |w.stashes| == |w.seats|
    ensures Next(w, a) == w.(seats := w.seats[a.i := Evolve(w.seats[a.i], a, Carried(w.stashes[a.i], a))])
  {
  }

  /** What a new process makes of a world. */
  lemma NewIs(w: World, a: Action)
    requires Good(w) && (a.Start? || (a.Branch? && a.i < |w.seats|))
    ensures Good(Next(w, a)) && |w.stashes| == |w.seats| && forall s :: s in w.freed ==> s < w.next
    ensures Next(w, a).seats == w.seats + [if a.Start? then NewSeat() else Seat(Fork(w.seats[a.i].state), {})]
    ensures Next(w, a).stashes == w.stashes + [w.next] && Next(w, a).next == w.next + 1
    ensures Next(w, a).freed == w.freed
  {
  }

  // ----- References that get lost

  /** The action resets a window that has leaks on its list. */
  ghost predicate Loses(w: World, a: Action) {
    (a.Restart? || a.Clear? || a.Finish?) && a.i < |w.seats| && w.seats[a.i].leaks != {}
  }

  /** Some action of a run does. */
  ghost predicate Lossy(w: World, actions: List<Action>)
    requires Good(w)
    decreases actions
  {
    NextGood(w, if actions.Nil? then Start else actions.head);
    actions.Cons? && (Loses(w, actions.head) || Lossy(Next(w, actions.head), actions.tail))
  }

  // ----- Stacks that dangle

  /** A process or its window holds the stack. */
  ghost predicate HeldIn<S>(seat: Seat<S>, s: S) {
    Keeps(seat.state, s) || exists l :: l in seat.leaks && l.1 == s
  }

  ghost predicate Dangles(w: World, s: Held) {
    s.Owned? && s.stash in w.freed
  }

  /** No table, queue or leak list holds a stack whose stash has been freed. */
  ghost predicate Sound(w: World) {
    forall i, s :: 0 <= i < |w.seats| && HeldIn(w.seats[i], s) ==> !Dangles(w, s)
  }

  ghost predicate AlwaysSound(w: World, actions: List<Action>)
    requires Good(w)
    decreases actions
  {
    NextGood(w, if actions.Nil? then Start else actions.head);
    Sound(w) && (actions.Cons? ==> AlwaysSound(Next(w, actions.head), actions.tail))
  }

  ghost predicate Queued<S>(queue: List<Command<S>>, s: S) {
    exists c :: c in Elements(queue) && c.stack == s
  }

  /** The stack belongs to process i and is held by process j or its window, where the queue
      of i itself matters to a profile reset only. */
  ghost predicate Foreign(w: World, a: Action, j: nat, s: Held)
    requires Good(w) && !a.Start? && a.i < |w.seats| && j < |w.seats|
  {
    && s.Owned? && s.stash == w.stashes[a.i]
    && if j != a.i then HeldIn(w.seats[j], s) else a.Clear? && Queued(w.seats[j].state.queue, s)
  }

  /** The action frees a stash of which some stack is still held. */
  ghost predicate Orphans(w: World, a: Action)
    requires Good(w)
  {
    (a.Restart? || a.Clear?) && a.i < |w.seats| && exists j, s :: 0 <= j < |w.seats| && Foreign(w, a, j, s)
  }

  /** Some action of a run does. */
  ghost predicate Orphaning(w: World, actions: List<Action>)
    requires Good(w)
    decreases actions
  {
    NextGood(w, if actions.Nil? then Start else actions.head);
    actions.Cons? && (Orphans(w, actions.head) || Orphaning(Next(w, actions.head), actions.tail))
  }

  lemma EvolveHolds<S>(seat: Seat<S>, a: Action, stack: S, s: S)
    requires !a.Restart? && !a.Clear? && HeldIn(Evolve(seat, a, stack), s)
    ensures HeldIn(seat, s) || (a.Deliver? && s == stack)
  {
    if a.Deliver? && Keeps(Receive(seat.state, Command(a.info, stack)), s) {
      ReceiveKeeps(seat.state, Command(a.info, stack), s);
    }
    if a.Report? && a.is_open {
      forall l | l in Leaks(seat, a.areas, a.memory) ensures Keeps(seat.state, l.1) {
        assert l.0 in seat.state.core.heap;
      }
    }
  }

  lemma NewSeatHoldsNothing<S>(s: S)
    ensures !HeldIn(NewSeat(), s)
  {
  }

  /** A reset leaves nothing but the queue, and that only of a profile. */
  lemma ResetHolds<S>(seat: Seat<S>, a: Action, stack: S, s: S)
    requires a.Restart? || a.Clear?
    ensures HeldIn(Evolve(seat, a, stack), s) <==> a.Clear? && Queued(seat.state.queue, s)
  {
    if a.Restart? {
      NewSeatHoldsNothing(s);
    }
  }

  /** Nothing dangles because of what is not a reset. */
  lemma NoResetKeepsSound(w: World, a: Action)
    requires Good(w) && Sound(w) && !a.Restart? && !a.Clear?
    ensures Sound(Next(w, a))
  {
    var next := Next(w, a);
    forall i, s | 0 <= i < |next.seats| && HeldIn(next.seats[i], s) ensures !Dangles(next, s) {
      if a.Start? && i == |w.seats| {
        NewSeatHoldsNothing(s);
      } else if i == |w.seats| {
        assert HeldIn(w.seats[a.i], s);
        assert !Dangles(w, s);
      } else if !a.Start? && a.i == i && !a.Branch? {
        EvolveHolds(w.seats[i], a, Carried(w.stashes[i], a), s);
        assert HeldIn(w.seats[i], s) ==> !Dangles(w, s);
        assert s == Carried(w.stashes[i], a) ==> !Dangles(w, s);
        assert !Dangles(w, s);
      } else {
        assert next.seats[i] == w.seats[i];
        assert HeldIn(w.seats[i], s);
        assert !Dangles(w, s);
      }
    }
  }

  lemma ResetKeepsSoundIff(w: World, a: Action)
    requires Good(w) && Sound(w) && (a.Restart? || a.Clear?) && a.i < |w.seats|
    ensures Sound(Next(w, a)) <==> !Orphans(w, a)
  {
    var next := Next(w, a);
    forall j, s | 0 <= j < |w.seats|
      ensures HeldIn(next.seats[j], s) && Dangles(next, s) <==> Foreign(w, a, j, s)
    {
      if j == a.i {
        ResetHolds(w.seats[j], a, Carried(w.stashes[j], a), s);
      }
      assert HeldIn(w.seats[j], s) ==> !Dangles(w, s);
    }
    if Orphans(w, a) {
      var j, s :| 0 <= j < |w.seats| && Foreign(w, a, j, s);
      assert HeldIn(next.seats[j], s) && Dangles(next, s);
    }
  }

  /** Stacks dangle after one more action if and only if it orphans some. */
  lemma StepIsSoundIff(w: World, a: Action)
    requires Good(w) && Sound(w)
    ensures Sound(Next(w, a)) <==> !Orphans(w, a)
  {
    if (a.Restart? || a.Clear?) && a.i < |w.seats| {
      ResetKeepsSoundIff(w, a);
    } else if !a.Restart? && !a.Clear? {
      NoResetKeepsSound(w, a);
    }
  }

  /** No stack dangles throughout a run if and only if no reset of the run frees the stash of
      a process while one of its stacks is in the table, the queue or on the leak list of
      another one, or, for a profile reset, in its own queue. */
  lemma {:induction false} RunIsSoundIff(w: World, actions: List<Action>)
    requires Good(w) && Sound(w)
    ensures AlwaysSound(w, actions) <==> !Orphaning(w, actions)
    ensures AlwaysSound(w, actions) ==> Sound(AfterAll(w, actions))
    decreases actions
  {
    if actions.Cons? {
      StepIsSoundIff(w, actions.head);
      NextGood(w, actions.head);
      if Sound(Next(w, actions.head)) {
        RunIsSoundIff(Next(w, actions.head), actions.tail);
      }
    }
  }

  // ----- Readings of a world

  /** What following the pointer of a stack gives. */
  datatype Reading = Lost | Known(trace: Trace)

  ghost function Known0(s: Held): Reading {
    Known(TraceOf(s))
  }

  ghost function Reads(freed: set<nat>): Held -> Reading {
    (s: Held) => if s.Owned? && s.stash in freed then Lost else Known0(s)
  }

  /** Leaves a stack out. */
  ghost function Bare(s: Held): bool {
    true
  }

  ghost function MapSeat<S, T>(f: S -> T, seat: Seat<S>): Seat<T> {
    Seat(MapState(f, seat.state), set l | l in seat.leaks :: (l.0, f(l.1)))
  }

  lemma MapEvolve<S, T>(f: S -> T, seat: Seat<S>, a: Action, stack: S)
    ensures MapSeat(f, Evolve(seat, a, stack)) == Evolve(MapSeat(f, seat), a, f(stack))
  {
    match a
    case Deliver(_, info, _) =>
      MapReceive(f, seat.state, Command(info, stack));
    case Report(_, areas, memory, is_open) =>
      var mapped := MapSeat(f, seat);
      SameHeapLeaks(memory, seat.state.core.heap, mapped.state.core.heap, Elements(areas));
      MapLeaks(f, seat, areas, memory);
    case _ =>
      assert MapHeap(f, map[]) == map[];
  }

  lemma MapLeaks<S, T>(f: S -> T, seat: Seat<S>, areas: List<Area>, memory: Memory)
    requires LeakedAt(memory, seat.state.core.heap, Elements(areas)) ==
             LeakedAt(memory, MapHeap(f, seat.state.core.heap), Elements(areas))
    ensures Leaks(MapSeat(f, seat), areas, memory) == set l | l in Leaks(seat, areas, memory) :: (l.0, f(l.1))
  {
    var heap, mapped := seat.state.core.heap, MapSeat(f, seat);
    forall l | l in Leaks(mapped, areas, memory)
      ensures exists k: (Addr, S) :: k in Leaks(seat, areas, memory) && l == (k.0, f(k.1))
    {
      var k := (l.0, heap[l.0].stack);
      assert k in Leaks(seat, areas, memory) && l == (k.0, f(k.1));
    }
  }

  /** The reading does not depend on the number of a stash. */
  ghost predicate Blind<S(!new)>(f: Held -> S) {
    forall n: nat, m: nat, t: Trace :: f(Owned(n, t)) == f(Owned(m, t))
  }

  ghost predicate Concerns(a: Action, i: nat) {
    !a.Start? && a.i == i
  }

  /** One process alone, taking only the actions that concern it. */
  ghost function Alone<S>(f: Held -> S, seat: Seat<S>, actions: List<Action>, i: nat): Seat<S>
    decreases actions
  {
    if actions.Nil? then seat
    else
      var a := actions.head;
      Alone(f, if Concerns(a, i) then Evolve(seat, a, f(Carried(0, a))) else seat, actions.tail, i)
  }

  lemma {:induction false} Independent<S(!new)>(f: Held -> S, w: World, actions: List<Action>, i: nat)
    requires Good(w) && i < |w.seats| && Blind(f)
    ensures MapSeat(f, AfterAll(w, actions).seats[i]) == Alone(f, MapSeat(f, w.seats[i]), actions, i)
    decreases actions
  {
    if actions.Cons? {
      var a := actions.head;
      NextGood(w, a);
      if Concerns(a, i) {
        MapEvolve(f, w.seats[i], a, Carried(w.stashes[i], a));
        assert f(Carried(w.stashes[i], a)) == f(Carried(0, a));
        assert a.Branch? ==> Next(w, a).seats[i] == w.seats[i];
      }
      Independent(f, Next(w, a), actions.tail, i);
    }
  }

  /** Apart from stacks, no process or window is changed by what happens to another one, not
      even to a forked child, which shares the blocks of its parent. */
  lemma ProcessesAreIndependent(w: World, actions: List<Action>, i: nat)
    requires Good(w) && i < |w.seats|
    ensures MapSeat(Bare, AfterAll(w, actions).seats[i]) == Alone(Bare, MapSeat(Bare, w.seats[i]), actions, i)
  {
    Independent(Bare, w, actions, i);
  }

  /** Where nothing dangles, every pointer reads as the trace that was sent. */
  lemma SoundReads(w: World, i: nat)
    requires Sound(w) && i < |w.seats|
    ensures MapSeat(Reads(w.freed), w.seats[i]) == MapSeat(Known0, w.seats[i])
  {
    var f, seat := Reads(w.freed), w.seats[i];
    forall s | HeldIn(seat, s) ensures f(s) == Known0(s) {
      assert !Dangles(w, s);
    }
    SameReading(f, Known0, seat.state);
    forall l | l in seat.leaks ensures f(l.1) == Known0(l.1) {
      assert HeldIn(seat, l.1);
    }
  }

  /** With its stacks as well, each process is what its own events make of it, if the run
      orphans none. */
  lemma TracesAreIndependent(w: World, actions: List<Action>, i: nat)
    requires Good(w) && Sound(w) && i < |w.seats| && !Orphaning(w, actions)
    ensures var end := AfterAll(w, actions);
            MapSeat(Reads(end.freed), end.seats[i]) == Alone(Known0, MapSeat(Reads(w.freed), w.seats[i]), actions, i)
  {
    RunIsSoundIff(w, actions);
    Independent(Known0, w, actions, i);
    SoundReads(w, i);
    SoundReads(AfterAll(w, actions), i);
  }

  // ----- What was sent

  /** A command as the traced program sends it: with all addresses of its stack, innermost
      first, except that an exit has no stack. */
  ghost function CommandOf(info: Info, addrs: seq<Addr>): Command<Trace> {
    Command(info, if info.operation.Exit? then Root else FromList(addrs, 0))
  }

  ghost function SentBy(a: Action): set<Command<Trace>> {
    if a.Deliver? then {CommandOf(a.info, a.addrs)} else {}
  }

  /** All commands of a run, with the traces they were sent with. */
  ghost function AllSent(actions: List<Action>): set<Command<Trace>> {
    if actions.Nil? then {} else AllSent(actions.tail) + SentBy(actions.head)
  }

  /** Every stack is labelled with the trace of a command in cs, with its address and size. */
  ghost predicate Labelled(w: World, cs: set<Command<Trace>>) {
    forall i :: 0 <= i < |w.seats| ==> Recorded(MapState(TraceOf, w.seats[i].state), cs)
  }

  lemma NextLabelled(w: World, a: Action, cs: set<Command<Trace>>)
    requires Good(w) && Labelled(w, cs) && SentBy(a) <= cs
    ensures Labelled(Next(w, a), cs)
  {
    var next := Next(w, a);
    forall i | 0 <= i < |next.seats| ensures Recorded(MapState(TraceOf, next.seats[i].state), cs) {
      if i < |w.seats| && Concerns(a, i) && a.Deliver? {
        var c := Command(a.info, Carried(w.stashes[i], a));
        MapReceive(TraceOf, w.seats[i].state, c);
        assert MapCommand(TraceOf, c) in SentBy(a);
        ReceiveRecords(MapState(TraceOf, w.seats[i].state), MapCommand(TraceOf, c), cs);
      } else if i < |w.seats| {
        assert Recorded(MapState(TraceOf, w.seats[i].state), cs);
      } else if a.Branch? {
        assert Recorded(MapState(TraceOf, w.seats[a.i].state), cs);
      }
    }
  }

  lemma {:induction false} RunLabelled(w: World, actions: List<Action>, cs: set<Command<Trace>>)
    requires Good(w) && Labelled(w, cs) && AllSent(actions) <= cs
    ensures Labelled(AfterAll(w, actions), cs)
    decreases actions
  {
    if actions.Cons? {
      NextGood(w, actions.head);
      NextLabelled(w, actions.head, cs);
      RunLabelled(Next(w, actions.head), actions.tail, cs);
    }
  }

  /** The block at a of process i has the size of a command that was sent for its address, and
      following its stack gives the trace of that command, or nothing if that has been freed. */
  ghost predicate SentOrLost(w: World, i: nat, a: Addr, cs: set<Command<Trace>>)
    requires i < |w.seats| && a in w.seats[i].state.core.heap
  {
    var cell := w.seats[i].state.core.heap[a];
    exists c :: c in cs && Records(Cell(cell.size, c.stack), a, c)
           && Reads(w.freed)(cell.stack) in {Known(c.stack), Lost}
  }

  /** After any run, every block of every process, inherited or not, has the size of a command
      that was sent for its address.  It reads the trace of that command unless its stack
      dangles, which it never does if the run orphans none. */
  lemma BlocksAreSent(w: World, actions: List<Action>, cs: set<Command<Trace>>)
    requires Good(w) && Sound(w) && Labelled(w, cs) && AllSent(actions) <= cs
    ensures var end := AfterAll(w, actions);
            forall i, a :: 0 <= i < |end.seats| && a in end.seats[i].state.core.heap ==>
              && SentOrLost(end, i, a, cs)
              && (!Orphaning(w, actions) ==> !Dangles(end, end.seats[i].state.core.heap[a].stack))
  {
    var end := AfterAll(w, actions);
    RunIsSoundIff(w, actions);
    RunLabelled(w, actions, cs);
    forall i, a | 0 <= i < |end.seats| && a in end.seats[i].state.core.heap
      ensures SentOrLost(end, i, a, cs)
      ensures !Orphaning(w, actions) ==> !Dangles(end, end.seats[i].state.core.heap[a].stack)
    {
      var cell := end.seats[i].state.core.heap[a];
      var st := MapState(TraceOf, end.seats[i].state);
      assert Recorded(st, cs) && a in st.core.heap;
      var c :| c in cs && Records(st.core.heap[a], a, c);
      assert Records(Cell(cell.size, c.stack), a, c) && TraceOf(cell.stack) == c.stack;
      assert HeldIn(end.seats[i], cell.stack);
    }
  }

  lemma FromTheStart(actions: List<Action>)
    ensures Good(AtFirst()) && Sound(AtFirst()) && Labelled(AtFirst(), {})
    ensures Labelled(AfterAll(AtFirst(), actions), AllSent(actions))
    ensures !Orphaning(AtFirst(), actions) ==> Sound(AfterAll(AtFirst(), actions))
  {
    RunLabelled(AtFirst(), actions, AllSent(actions));
    RunIsSoundIff(AtFirst(), actions);
  }

  // ----- Nothing that was sent is lost

  /** The commands that a run delivers to process i after those of before, the latest outermost. */
  ghost function Arrivals(actions: List<Action>, i: nat, before: List<Command<Trace>>): List<Command<Trace>>
    decreases actions
  {
    if actions.Nil? then before
    else
      var a := actions.head;
      Arrivals(actions.tail, i, if a.Deliver? && a.i == i then Cons(CommandOf(a.info, a.addrs), before) else before)
  }

  /** No action resets process i. */
  ghost predicate Spared(actions: List<Action>, i: nat) {
    actions.Cons? ==>
      && !((actions.head.Restart? || actions.head.Clear?) && actions.head.i == i)
      && Spared(actions.tail, i)
  }

  lemma StepDelivers(w: World, a: Action, i: nat, st: State<Trace>)
    requires Good(w) && i < |w.seats| && MapState(TraceOf, w.seats[i].state) == st
    requires !((a.Restart? || a.Clear?) && a.i == i)
    ensures i < |Next(w, a).seats|
    ensures MapState(TraceOf, Next(w, a).seats[i].state) ==
            if a.Deliver? && a.i == i then Receive(st, CommandOf(a.info, a.addrs)) else st
  {
    if a.Deliver? && a.i == i {
      var c := Command(a.info, Carried(w.stashes[i], a));
      MapReceive(TraceOf, w.seats[i].state, c);
      assert MapCommand(TraceOf, c) == CommandOf(a.info, a.addrs);
    }
  }

  /** Between two resets, a process is what its engine makes of everything that is delivered to
      it, in the order of arrival, whatever happens to others. */
  lemma {:induction false} RunDelivers(w: World, actions: List<Action>, i: nat, start: State<Trace>,
                                       before: List<Command<Trace>>)
    requires Good(w) && i < |w.seats| && Spared(actions, i)
    requires MapState(TraceOf, w.seats[i].state) == Run(start, before)
    ensures MapState(TraceOf, AfterAll(w, actions).seats[i].state) == Run(start, Arrivals(actions, i, before))
    decreases actions
  {
    hide MapState, Receive;
    if actions.Cons? {
      var a := actions.head;
      NextGood(w, a);
      StepDelivers(w, a, i, Run(start, before));
      var more := if a.Deliver? && a.i == i then Cons(CommandOf(a.info, a.addrs), before) else before;
      RunDelivers(Next(w, a), actions.tail, i, start, more);
    }
  }

  /** So, from where nothing is queued (a new, restarted or just forked process) until it is
      reset, its table is the live heap of the traced program after every executed command if
      and only if that program only got fresh pointers. */
  lemma LiveUntilReset(w: World, actions: List<Action>, i: nat)
    requires Good(w) && i < |w.seats| && Spared(actions, i)
    requires w.seats[i].state.queue == Nil && 0 !in w.seats[i].state.core.heap
    requires Distinct(Arrivals(actions, i, Nil), w.seats[i].state.seqno)
    ensures var start := MapState(TraceOf, w.seats[i].state);
            var end := MapState(TraceOf, AfterAll(w, actions).seats[i].state);
            var m := Numbered(Arrivals(actions, i, Nil));
            && Settled(end, m, start.seqno, start.core)
            && (AlwaysLive(m, start.seqno, start.core, end.seqno) <==>
                FreshRun(m, start.seqno, start.core.heap, end.seqno))
  {
    var start := MapState(TraceOf, w.seats[i].state);
    RunDelivers(w, actions, i, start, Nil);
    RunIsLiveIff(start.seqno, start.core, Arrivals(actions, i, Nil));
  }

  lemma SoundAt(w: World, i: nat, a: Addr)
    requires Sound(w) && i < |w.seats| && a in w.seats[i].state.core.heap
    ensures !Dangles(w, w.seats[i].state.core.heap[a].stack)
  {
    assert HeldIn(w.seats[i], w.seats[i].state.core.heap[a].stack);
  }

  // ----- Counters

  ghost predicate AllCounted(w: World) {
    forall i :: 0 <= i < |w.seats| ==> Counted(w.seats[i].state.core)
  }

  lemma EvolveCounts(seat: Seat<Held>, a: Action, stack: Held)
    requires Counted(seat.state.core)
    ensures Counted(Evolve(seat, a, stack).state.core)
  {
    if a.Deliver? {
      RunCounts(seat.state, Cons(Command(a.info, stack), Nil));
      assert Run(seat.state, Nil) == seat.state;
    } else {
      EmptyCounts();
    }
  }

  lemma EmptyCounts()
    ensures Counted<Held>(Core(0, 0, map[]))
  {
  }

  lemma NextCounts(w: World, a: Action)
    requires Good(w) && AllCounted(w)
    ensures AllCounted(Next(w, a))
  {
    hide Counted, Evolve;
    EmptyCounts();
    if !a.Start? && a.i < |w.seats| && !a.Branch? {
      EvolveCounts(w.seats[a.i], a, Carried(w.stashes[a.i], a));
    }
  }

  // ----- Runs on which the program fails

  /** The first action of a run, and the rest of it. */
  lemma RunStep(w: World, a: Action, rest: List<Action>, next: World)
    requires Good(w) && Next(w, a) == next && Good(next)
    ensures AfterAll(w, Cons(a, rest)) == AfterAll(next, rest)
    ensures Orphaning(w, Cons(a, rest)) <==> Orphans(w, a) || Orphaning(next, rest)
    ensures Lossy(w, Cons(a, rest)) <==> Loses(w, a) || Lossy(next, rest)
  {
  }

  lemma RunEnd(w: World)
    requires Good(w)
    ensures AfterAll(w, Nil) == w && !Lossy(w, Nil)
  {
  }

  /** The same of what has to hold before every action. */
  lemma RunOnwards(w: World, actions: List<Action>)
    requires Good(w) && AllCounted(w) && Possible(actions) && actions.Cons?
    ensures Good(Next(w, actions.head)) && AllCounted(Next(w, actions.head)) && Possible(actions.tail)
    ensures actions.head.Report? ==> actions.head.memory.Valid()
    ensures AfterAll(w, actions) == AfterAll(Next(w, actions.head), actions.tail)
    ensures Lossy(w, actions) <==> Loses(w, actions.head) || Lossy(Next(w, actions.head), actions.tail)
  {
    NextGood(w, actions.head);
    NextCounts(w, actions.head);
    hide Next, Loses, Good, AllCounted;
    RunStep(w, actions.head, actions.tail, Next(w, actions.head));
  }

  ghost function Malloc8(seqno: nat): Action {
    Deliver(0, Info(Malloc, seqno, 0, 4096, 8), [77])
  }

  /** The stack of Malloc8 in stash 0. */
  ghost function Stack77(): Held {
    Owned(0, Frame(Root, 77))
  }

  ghost function Heap8(): map<Addr, Cell<Held>> {
    map[4096 := Cell(8, Stack77())]
  }

  /** A process that has got the block, or has queued the command for it. */
  ghost function Getter(seqno: nat): Seat<Held> {
    Seat(State(seqno, Core(8, 1, Heap8()), Nil), {})
  }

  ghost function Waiter(): Seat<Held> {
    Seat(State(0, Core(0, 0, map[]), Cons(Command(Malloc8(1).info, Stack77()), Nil)), {})
  }

  /** A process with the block, which is on the leak list. */
  ghost function Lister(): Seat<Held> {
    Getter(1).(leaks := {(4096, Stack77())})
  }

  ghost function One(seat: Seat<Held>): World {
    World([seat], [0], 1, {})
  }

  lemma Starting()
    ensures Next(AtFirst(), Start) == One(NewSeat()) && Good(One(NewSeat()))
  {
  }

  lemma Getting(seqno: nat)
    requires seqno <= 1
    ensures Next(One(NewSeat()), Malloc8(seqno)) == One(if seqno == 0 then Getter(1) else Waiter())
  {
    assert FromList([77], 0) == Frame(Root, 77);
    assert Carried(0, Malloc8(seqno)) == Stack77();
  }

  /** A leak is reported, and then the process executes another program. */
  ghost function LosingRun(): List<Action> {
    Cons(Start, Cons(Malloc8(0), Cons(Report(0, Nil, Memory(map[], 8), true), Cons(Restart(0), Nil))))
  }

  lemma LosingRunLoses()
    ensures Possible(LosingRun()) && Lossy(AtFirst(), LosingRun())
  {
    hide Next, Lossy, AfterAll, Orphaning, Orphans, Evolve, Loses, Good;
    Starting();
    Getting(0);
    Reporting();
    Losing();
    RunStep(AtFirst(), Start, LosingRun().tail, One(NewSeat()));
    RunStep(One(NewSeat()), Malloc8(0), LosingRun().tail.tail, One(Getter(1)));
    RunStep(One(Getter(1)), Report(0, Nil, Memory(map[], 8), true), Cons(Restart(0), Nil), One(Lister()));
    RunStep(One(Lister()), Restart(0), Nil, Next(One(Lister()), Restart(0)));
  }

  lemma Losing()
    ensures Good(One(Lister())) && Loses(One(Lister()), Restart(0)) && Good(Next(One(Lister()), Restart(0)))
  {
    assert (4096, Stack77()) in Lister().leaks;
    NextGood(One(Lister()), Restart(0));
  }

  lemma Reporting()
    ensures Next(One(Getter(1)), Report(0, Nil, Memory(map[], 8), true)) == One(Lister())
  {
    var memory := Memory(map[], 8);
    assert Elements<Area>(Nil) == {};
    ReachedInClosed(RootTargetsAt(memory, Heap8(), {}), EdgesAt(memory, Heap8()), {}, 4096);
    assert LeakedAt(memory, Heap8(), {}) == {4096};
    assert Leaks(Getter(1), Nil, memory) == {(4096, Stack77())} by {
      assert forall l :: l in Leaks(Getter(1), Nil, memory) ==> l == (4096, Stack77());
      assert 4096 in LeakedAt(memory, Heap8(), {});
    }
  }

  /** A process forks, and then executes another program while its child goes on. */
  ghost function ForkAndExec(): List<Action> {
    Cons(Start, Cons(Malloc8(0), Cons(Branch(0), Cons(Restart(0), Nil))))
  }

  /** The child is left with a block of which the stack dangles. */
  lemma ForkAndExecOrphans()
    ensures var end := AfterAll(AtFirst(), ForkAndExec());
            && Orphaning(AtFirst(), ForkAndExec())
            && |end.seats| == 2 && 4096 in end.seats[1].state.core.heap
            && Reads(end.freed)(end.seats[1].state.core.heap[4096].stack) == Lost
  {
    hide Next, AfterAll, Orphaning, Orphans, Lossy, Loses, Evolve, Good;
    var both, end := World([Getter(1), Getter(1)], [0, 1], 2, {}), World([NewSeat(), Getter(1)], [2, 1], 3, {0});
    Starting();
    Getting(0);
    Forking();
    RunStep(AtFirst(), Start, ForkAndExec().tail, One(NewSeat()));
    RunStep(One(NewSeat()), Malloc8(0), ForkAndExec().tail.tail, One(Getter(1)));
    RunStep(One(Getter(1)), Branch(0), Cons(Restart(0), Nil), both);
    RunStep(both, Restart(0), Nil, end);
    RunEnd(end);
  }

  lemma Forking()
    ensures var both := World([Getter(1), Getter(1)], [0, 1], 2, {});
            && Next(One(Getter(1)), Branch(0)) == both && Good(both) && Orphans(both, Restart(0))
            && Next(both, Restart(0)) == World([NewSeat(), Getter(1)], [2, 1], 3, {0})
  {
    var both := World([Getter(1), Getter(1)], [0, 1], 2, {});
    assert 4096 in Getter(1).state.core.heap && Getter(1).state.core.heap[4096].stack == Stack77();
    assert Keeps(Getter(1).state, Stack77());
    assert Foreign(both, Restart(0), 1, Stack77());
  }

  /** A command arrives early, the profile is reset, and then the missing command arrives. */
  ghost function EarlyAndReset(): List<Action> {
    Cons(Start, Cons(Malloc8(1), Cons(Clear(0), Cons(Nothing(), Nil))))
  }

  ghost function Nothing(): Action {
    Deliver(0, Info(Free, 0, 0, 0, 0), [])
  }

  /** A block is made of a command of which the stack dangles. */
  lemma EarlyAndResetOrphans()
    ensures var end := AfterAll(AtFirst(), EarlyAndReset());
            && Orphaning(AtFirst(), EarlyAndReset())
            && |end.seats| == 1 && 4096 in end.seats[0].state.core.heap
            && Reads(end.freed)(end.seats[0].state.core.heap[4096].stack) == Lost
  {
    hide Next, AfterAll, Orphaning, Orphans, Lossy, Loses, Evolve, Good;
    var cleared, end := World([Waiter()], [1], 2, {0}), World([Getter(2)], [1], 2, {0});
    Starting();
    Getting(1);
    Clearing();
    Draining();
    RunStep(AtFirst(), Start, EarlyAndReset().tail, One(NewSeat()));
    RunStep(One(NewSeat()), Malloc8(1), EarlyAndReset().tail.tail, One(Waiter()));
    RunStep(One(Waiter()), Clear(0), Cons(Nothing(), Nil), cleared);
    RunStep(cleared, Nothing(), Nil, end);
    RunEnd(end);
  }

  lemma Clearing()
    ensures Next(One(Waiter()), Clear(0)) == World([Waiter()], [1], 2, {0}) && Orphans(One(Waiter()), Clear(0))
  {
    assert Waiter().state.queue.head in Elements(Waiter().state.queue);
    assert Foreign(One(Waiter()), Clear(0), 0, Stack77());
  }

  lemma Draining()
    ensures Next(World([Waiter()], [1], 2, {0}), Nothing()) == World([Getter(2)], [1], 2, {0})
  {
    var early, empty: Core<Held> := Waiter().state.queue.head, Core(0, 0, map[]);
    assert Apply(empty, 2, early) == Getter(2).state.core;
    assert Drain(Getter(2).state) == Getter(2).state;
    assert Drain(State(1, empty, Cons(early, Nil))) == Drain(Execute(State(1, empty, Nil), early)) == Getter(2).state;
    assert Apply(empty, 1, Command(Nothing().info, NoStack)) == empty;
  }
}
