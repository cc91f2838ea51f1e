/** The program itself: it keeps its processes, windows and stashes as the values of a world
    say, event by event. */
module Session {
  import opened Ledger
  import opened StackStash
  import opened StashTheorems
  import opened Events
  import opened EventTheorems
  import opened TraceView
  import opened Process
  import opened LeakDetect
  import opened LeakReport
  import opened HeapLeaks
  import opened World

  /** The addresses and stacks on a leak list. */
  ghost function LeakPairs(leaks: List<Block>): set<(Addr, Held)> {
    set b | b in Elements(leaks) :: (b.addr, HeldBy(b.stack))
  }

  class Session {
    const server: MPServer
    var processes: seq<MPProcess>
    /** The window of each process. */
    var windows: seq<ProcessWindow>
    /** The stash of each process. */
    var stashes: seq<StackStash>
    /** All stashes there ever were, and all their nodes. */
    ghost var stashed: set<StackStash>
    ghost var tries: set<StackNode>

    /** A session starts without processes. */
    constructor ()
      ensures Valid(AtFirst()) && server.Exact()
      ensures fresh(server) && stashed == {} && tries == {}
      ensures fresh(server.tables.Keys) && fresh(server.lists.Keys) && fresh(server.blocks)
    {
      server := new MPServer();
      processes, windows, stashes, stashed, tries := [], [], [], {}, {};
    }

    ghost predicate Members()
      reads this`processes, this`windows, server
    {
      && |windows| == |processes|
      && (forall i :: 0 <= i < |processes| ==>
           && processes[i].server == server && processes[i] in server.tables
           && windows[i] in server.lists && windows[i].process == processes[i])
      && (forall i, j :: 0 <= i < j < |processes| ==>
           processes[i] != processes[j] && windows[i] != windows[j])
    }

    /** The stash of each process is intact; every other one has been freed. */
    ghost predicate Stashes(numbers: seq<nat>, next: nat, freed: set<nat>)
      reads this`stashes, this`stashed, this`tries, stashed, tries
    {
      && |numbers| == |stashes|
      && (forall i :: 0 <= i < |stashes| ==>
           && stashes[i] in stashed && stashes[i].nodes <= tries
           && stashes[i].id == numbers[i] && stashes[i].ref_count == 1 && stashes[i].Valid())
      && (forall i, j :: 0 <= i < j < |stashes| ==> stashes[i] != stashes[j] && stashes[i].nodes !! stashes[j].nodes)
      && (forall s :: s in stashed ==> s.id < next && (s.ref_count == 0 <==> s.id in freed))
      && (forall s, t :: s in stashed && t in stashed && s.id == t.id ==> s == t)
    }

    /** The processes and windows, in the order of their numbers, look like seats. */
    ghost predicate Shows(seats: seq<Seat<Held>>)
      reads this`processes, this`windows, processes, windows`leaks
    {
      && |seats| == |processes| == |windows|
      && (forall i :: 0 <= i < |processes| ==> MapState(HeldBy, processes[i].View()) == seats[i].state)
      && (forall i :: 0 <= i < |processes| ==> LeakPairs(windows[i].leaks) == seats[i].leaks)
    }

    /** The session is as the world says. */
    ghost predicate Valid(w: World)
      reads this, stashed, tries, server, server.tables.Keys, server.lists.Keys, server.blocks
    {
      && Good(w) && Members() && Shows(w.seats) && server.Accounted()
      && Stashes(w.stashes, w.next, w.freed) && |stashes| == |processes|
    }

    /** input_func: the trace goes into the stash, and its node goes with the command. */
    method StackFor(i: nat, info: Info, addrs: seq<Addr>, ghost numbers: seq<nat>, ghost next: nat,
        ghost freed: set<nat>)
      returns (stack: Stack)
      requires Stashes(numbers, next, freed) && i < |stashes|
      modifies this`tries, stashed, tries
      ensures Stashes(numbers, next, freed) && HeldBy(stack) == Sent(numbers[i], info, addrs)
      ensures stack == null <==> info.operation.Exit? || addrs == []
      ensures stack != null ==> Linked(stack) && Climb(stack) == addrs && stack.home == numbers[i]
      ensures fresh(tries - old(tries))
    {
      hide StackStash.Valid;
      stack := null;
      if !info.operation.Exit? {
        var node := stashes[i].AddTrace(addrs, -1);
        tries := tries + stashes[i].nodes;
        NodeIsStack(stashes[i], node, addrs);
        stack := node;
      }
    }

    static lemma NodeIsStack(stash: StackStash, node: StackNode?, addrs: seq<Addr>)
      requires stash.Valid() && (addrs == [] ==> node == null)
      requires addrs != [] ==> FromList(addrs, 0) in stash.at && node == stash.at[FromList(addrs, 0)]
      ensures node == null <==> addrs == []
      ensures node != null ==> Linked(node) && node.path == FromList(addrs, 0) && node.home == stash.id
      ensures node != null ==> Climb(node) == addrs
    {
      if node != null {
        assert node in stash.nodes;
        ClimbRebuilds(node, addrs, 0);
      }
    }

    /** process_command for a process of the session. */
    method FeedProcess(i: nat, info: Info, stack: Stack, ghost seats: seq<Seat<Held>>)
      requires Members() && server.Accounted() && Shows(seats) && i < |processes|
      modifies server.tables.Keys, server`tables, server`blocks, server.blocks`refcount
      ensures Members() && server.Accounted()
      ensures Shows(seats[i := seats[i].(state := Receive(seats[i].state, Command(info, HeldBy(stack))))])
      ensures server.tables.Keys == old(server.tables.Keys) && fresh(server.blocks - old(server.blocks))
    {
      hide MPServer.Accounted, Receive, MPProcess.TheCore, MapState;
      MapReceive(HeldBy, processes[i].View(), Command(info, stack));
      processes[i].ProcessCommand(info, stack);
    }

    /** One round of the loop in input_func. */
    method FeedTrace(i: nat, info: Info, addrs: seq<Addr>, ghost w: World)
      requires Members() && Stashes(w.stashes, w.next, w.freed) && server.Accounted() && Shows(w.seats)
      requires i < |processes| && i < |stashes|
      modifies this`tries, stashed, tries, server.tables.Keys, server`tables, server`blocks, server.blocks`refcount
      ensures Members() && Stashes(w.stashes, w.next, w.freed) && server.Accounted()
      ensures Shows(w.seats[i := w.seats[i].(state :=
                Receive(w.seats[i].state, Command(info, Sent(w.stashes[i], info, addrs))))])
      ensures fresh(tries - old(tries))
      ensures server.tables.Keys == old(server.tables.Keys) && fresh(server.blocks - old(server.blocks))
    {
      hide Members, Stashes, Shows, MPServer.Accounted, Receive, Sent;
      AsMany(w.seats);
      var stack := StackFor(i, info, addrs, w.stashes, w.next, w.freed);
      FeedProcess(i, info, stack, w.seats);
    }

    /** stack_stash_unref, which frees the stash, and get_stack_stash when the next trace arrives. */
    method RenewStash(i: nat, ghost numbers: seq<nat>, ghost next: nat, ghost freed: set<nat>)
      requires Stashes(numbers, next, freed) && i < |stashes| && forall s :: s in freed ==> s < next
      modifies this`stashes, this`stashed, stashed`ref_count
      ensures Stashes(numbers[i := next], next + 1, freed + {numbers[i]})
      ensures |stashes| == old(|stashes|) && fresh(stashed - old(stashed))
    {
      hide StackStash.Valid;
      stashes[i].Unref();
      var stash := new StackStash(next);
      stashes := stashes[i := stash];
      stashed := stashed + {stash};
    }

    method AddStash(ghost numbers: seq<nat>, ghost next: nat, ghost freed: set<nat>)
      requires Stashes(numbers, next, freed) && forall s :: s in freed ==> s < next
      modifies this`stashes, this`stashed
      ensures Stashes(numbers + [next], next + 1, freed)
      ensures |stashes| == old(|stashes|) + 1 && fresh(stashed - old(stashed))
    {
      hide StackStash.Valid;
      var stash := new StackStash(next);
      stashes := stashes + [stash];
      stashed := stashed + {stash};
    }

    /** A process that has just been made gets its window: init_process */
    method AddProcess(process: MPProcess, ghost state: State<Held>, ghost seats: seq<Seat<Held>>)
      requires Members() && server.Accounted() && Shows(seats)
      requires process.server == server && process in server.tables && process !in processes
      requires MapState(HeldBy, process.View()) == state
      modifies this`processes, this`windows, server`lists
      ensures Members() && server.Accounted() && Shows(seats + [Seat(state, {})])
      ensures |processes| == old(|processes|) + 1
      ensures fresh(server.lists.Keys - old(server.lists.Keys))
    {
      hide MPServer.Accounted, MPProcess.View, MapState;
      var window := OpenWindow(process);
      assert LeakPairs(window.leaks) == {};
      processes, windows := processes + [process], windows + [window];
    }

    /** A fork: the child takes over the state of its parent, but nothing that is queued. */
    method DuplicateProcess(i: nat, ghost seats: seq<Seat<Held>>)
      requires Members() && server.Accounted() && Shows(seats) && i < |processes|
      modifies this`processes, this`windows, server`tables, server`lists, server.blocks`refcount
      ensures Members() && server.Accounted() && Shows(seats + [Seat(Fork(seats[i].state), {})])
      ensures |processes| == old(|processes|) + 1
      ensures fresh(server.lists.Keys - old(server.lists.Keys)) && fresh(server.tables.Keys - old(server.tables.Keys))
    {
      hide MPServer.Accounted, MPProcess.TheCore;
      var child := processes[i].Duplicate();
      AddProcess(child, Fork(seats[i].state), seats);
    }

    /** process_new, and its window. */
    method MakeProcess(ghost seats: seq<Seat<Held>>)
      requires Members() && server.Accounted() && Shows(seats)
      modifies this`processes, this`windows, server`tables, server`lists
      ensures Members() && server.Accounted() && Shows(seats + [NewSeat()])
      ensures |processes| == old(|processes|) + 1
      ensures fresh(server.lists.Keys - old(server.lists.Keys)) && fresh(server.tables.Keys - old(server.tables.Keys))
    {
      hide MPServer.Accounted, MPProcess.TheCore;
      var process := NewProcess(server);
      AddProcess(process, State(0, Core(0, 0, map[]), Nil), seats);
    }

    /** process_reinit for a process of the session. */
    method ReinitProcess(i: nat, ghost seats: seq<Seat<Held>>)
      requires Members() && server.Accounted() && Shows(seats) && i < |processes|
      modifies server.tables.Keys, server`tables, server.blocks`refcount
      ensures Members() && server.Accounted()
      ensures Shows(seats[i := seats[i].(state := State(0, Core(0, 0, map[]), Nil))])
      ensures server.tables.Keys == old(server.tables.Keys)
    {
      hide MPServer.Accounted, MPProcess.TheCore;
      processes[i].Reinit();
    }

    /** process_clear_input for a process of the session. */
    method ClearProcess(i: nat, ghost seats: seq<Seat<Held>>)
      requires Members() && server.Accounted() && Shows(seats) && i < |processes|
      modifies server.tables.Keys, server`tables, server.blocks`refcount
      ensures Members() && server.Accounted()
      ensures Shows(seats[i := seats[i].(state := State(seats[i].state.seqno, Core(0, 0, map[]),
                seats[i].state.queue))])
      ensures server.tables.Keys == old(server.tables.Keys)
    {
      hide MPServer.Accounted;
      processes[i].ClearInput();
    }

    /** process_window_reset for the window of a process. */
    method ResetWindow(i: nat, ghost seats: seq<Seat<Held>>)
      requires Members() && server.Accounted() && Shows(seats) && i < |processes|
      modifies server.lists.Keys, server`lists, server`dropped
      ensures Members() && server.Accounted() && Shows(seats[i := seats[i].(leaks := {})])
      ensures server.Exact() <==> old(server.Exact()) && seats[i].leaks == {}
      ensures server.lists.Keys == old(server.lists.Keys)
    {
      hide MPServer.Accounted, MPServer.Exact, MPProcess.View, MapState;
      NoPairs(windows[i].leaks);
      WindowReset(windows[i], server);
    }

    /** process_reinit, and then the window. */
    method RestartProcess(i: nat, ghost seats: seq<Seat<Held>>)
      requires Members() && server.Accounted() && Shows(seats) && i < |processes|
      modifies server.tables.Keys, server.lists.Keys, server`tables, server`lists, server`dropped,
          server.blocks`refcount
      ensures Members() && server.Accounted() && Shows(seats[i := NewSeat()])
      ensures server.Exact() <==> old(server.Exact()) && seats[i].leaks == {}
      ensures server.tables.Keys == old(server.tables.Keys) && server.lists.Keys == old(server.lists.Keys)
    {
      hide Members, Shows, MPServer.Accounted, MPServer.Exact;
      AsMany(seats);
      server.ExactIffNothingDropped();
      ReinitProcess(i, seats);
      server.ExactIffNothingDropped();
      ghost var now := seats[i := seats[i].(state := State(0, Core(0, 0, map[]), Nil))];
      ResetWindow(i, now);
      assert now[i := now[i].(leaks := {})] == seats[i := NewSeat()];
    }

    /** The window, and then process_clear_input. */
    method ForgetProcess(i: nat, ghost seats: seq<Seat<Held>>)
      requires Members() && server.Accounted() && Shows(seats) && i < |processes|
      modifies server.tables.Keys, server.lists.Keys, server`tables, server`lists, server`dropped,
          server.blocks`refcount
      ensures Members() && server.Accounted()
      ensures Shows(seats[i := Seat(State(seats[i].state.seqno, Core(0, 0, map[]), seats[i].state.queue), {})])
      ensures server.Exact() <==> old(server.Exact()) && seats[i].leaks == {}
      ensures server.tables.Keys == old(server.tables.Keys) && server.lists.Keys == old(server.lists.Keys)
    {
      hide Members, Shows, MPServer.Accounted, MPServer.Exact;
      AsMany(seats);
      ResetWindow(i, seats);
      server.ExactIffNothingDropped();
      ghost var now := seats[i := seats[i].(leaks := {})];
      ClearProcess(i, now);
      server.ExactIffNothingDropped();
      assert now[i := now[i].(state := State(now[i].state.seqno, Core(0, 0, map[]), now[i].state.queue))] ==
             seats[i := Seat(State(seats[i].state.seqno, Core(0, 0, map[]), seats[i].state.queue), {})];
    }

    static lemma NoPairs(leaks: List<Block>)
      ensures LeakPairs(leaks) == {} <==> leaks == Nil
    {
      if leaks.Cons? {
        assert (leaks.head.addr, HeldBy(leaks.head.stack)) in LeakPairs(leaks);
      }
    }

    /** generate_leak_cb */
    method ReportProcess(i: nat, areas: List<Area>, memory: Memory, is_open: bool, ghost seats: seq<Seat<Held>>)
      requires Members() && server.Accounted() && Shows(seats) && i < |processes| && memory.Valid()
      modifies server.lists.Keys, server`lists, server.blocks`marked, server.blocks`refcount
      ensures Members() && server.Accounted()
      ensures Shows(seats[i := seats[i].(leaks := if is_open then Leaks(seats[i], areas, memory) else {})])
      ensures server.lists.Keys == old(server.lists.Keys)
    {
      hide MPServer.Accounted, MPProcess.View, MapState, Leaked, Leaks, Wrap32, SameSizes, LeakPairs;
      ghost var process := processes[i];
      ghost var roots := GenerateLeak(windows[i], server, areas, memory, is_open);
      if is_open {
        ReportedPairs(process, seats[i], windows[i].leaks, areas, memory, roots);
      } else {
        NoPairs(windows[i].leaks);
      }
    }

    static lemma ReportedPairs(process: MPProcess, seat: Seat<Held>, leaks: List<Block>, areas: List<Area>,
                               memory: Memory, roots: List<Block>)
      requires process.Registered() && process.server.Accounted() && MapState(HeldBy, process.View()) == seat.state
      requires RootAreas(roots) == areas && Elements(leaks) == Leaked(memory, process.block_table, Elements(roots))
      ensures LeakPairs(leaks) == Leaks(seat, areas, memory)
    {
      hide MPServer.Accounted, LeakedAt, Reachable;
      process.MyTable();
      var table, heap := process.block_table, seat.state.core.heap;
      assert SameSizes(table, heap);
      LeakedSame(memory, table, heap, roots);
      forall b | b in Elements(leaks)
        ensures heap[b.addr].stack == HeldBy(b.stack) && b.addr in LeakedAt(memory, heap, Elements(areas))
      {
        assert b.addr in AddrsOf(Elements(leaks));
      }
      forall x | x in LeakedAt(memory, heap, Elements(areas)) ensures exists b :: b in Elements(leaks) && b.addr == x {
        assert x in AddrsOf(Leaked(memory, table, Elements(roots)));
      }
    }

    lemma AsMany(seats: seq<Seat<Held>>)
      requires Shows(seats)
      ensures |seats| == |processes|
    {
    }

    /** input_func and process_command */
    method DeliverTo(i: nat, info: Info, addrs: seq<Addr>, ghost w: World)
      requires Valid(w) && i < |processes|
      modifies this, stashed, tries, server, server.tables.Keys, server.lists.Keys, server.blocks
      ensures Valid(Next(w, Deliver(i, info, addrs)))
      ensures server.Exact() <==> old(server.Exact()) && !Loses(w, Deliver(i, info, addrs))
      ensures fresh(stashed - old(stashed)) && fresh(tries - old(tries)) && fresh(server.blocks - old(server.blocks))
      ensures fresh(server.tables.Keys - old(server.tables.Keys)) && fresh(server.lists.Keys - old(server.lists.Keys))
    {
      hide Members, Stashes, Shows, MPServer.Accounted, MPServer.Exact, Next, Good;
      AsMany(w.seats);
      StayIs(w, Deliver(i, info, addrs));
      server.ExactIffNothingDropped();
      FeedTrace(i, info, addrs, w);
      server.ExactIffNothingDropped();
    }

    /** process_duplicate, and the window for the child */
    method BranchFrom(i: nat, ghost w: World)
      requires Valid(w) && i < |processes|
      modifies this, stashed, tries, server, server.tables.Keys, server.lists.Keys, server.blocks
      ensures Valid(Next(w, Branch(i)))
      ensures server.Exact() <==> old(server.Exact()) && !Loses(w, Branch(i))
      ensures fresh(stashed - old(stashed)) && fresh(tries - old(tries)) && fresh(server.blocks - old(server.blocks))
      ensures fresh(server.tables.Keys - old(server.tables.Keys)) && fresh(server.lists.Keys - old(server.lists.Keys))
    {
      hide Members, Stashes, Shows, MPServer.Accounted, MPServer.Exact, Next, Good, Evolve;
      AsMany(w.seats);
      NewIs(w, Branch(i));
      server.ExactIffNothingDropped();
      DuplicateProcess(i, w.seats);
      AddStash(w.stashes, w.next, w.freed);
      server.ExactIffNothingDropped();
    }

    /** process_exec_reset with the handler of its signal: the window is reset as well */
    method RestartAt(i: nat, ghost w: World)
      requires Valid(w) && i < |processes|
      modifies this, stashed, tries, server, server.tables.Keys, server.lists.Keys, server.blocks
      ensures Valid(Next(w, Restart(i)))
      ensures server.Exact() <==> old(server.Exact()) && !Loses(w, Restart(i))
      ensures fresh(stashed - old(stashed)) && fresh(tries - old(tries)) && fresh(server.blocks - old(server.blocks))
      ensures fresh(server.tables.Keys - old(server.tables.Keys)) && fresh(server.lists.Keys - old(server.lists.Keys))
    {
      hide Members, Stashes, Shows, MPServer.Accounted, MPServer.Exact, Next, Good, Evolve;
      AsMany(w.seats);
      ResetIs(w, Restart(i));
      RenewStash(i, w.stashes, w.next, w.freed);
      RestartProcess(i, w.seats);
    }

    /** reset_profile_cb */
    method ClearAt(i: nat, ghost w: World)
      requires Valid(w) && i < |processes|
      modifies this, stashed, tries, server, server.tables.Keys, server.lists.Keys, server.blocks
      ensures Valid(Next(w, Clear(i)))
      ensures server.Exact() <==> old(server.Exact()) && !Loses(w, Clear(i))
      ensures fresh(stashed - old(stashed)) && fresh(tries - old(tries)) && fresh(server.blocks - old(server.blocks))
      ensures fresh(server.tables.Keys - old(server.tables.Keys)) && fresh(server.lists.Keys - old(server.lists.Keys))
    {
      hide Members, Stashes, Shows, MPServer.Accounted, MPServer.Exact, Next, Good, Evolve;
      AsMany(w.seats);
      ResetIs(w, Clear(i));
      RenewStash(i, w.stashes, w.next, w.freed);
      ForgetProcess(i, w.seats);
    }

    /** generate_leak_cb */
    method ReportOn(i: nat, areas: List<Area>, memory: Memory, is_open: bool, ghost w: World)
      requires Valid(w) && i < |processes| && memory.Valid()
      modifies this, stashed, tries, server, server.tables.Keys, server.lists.Keys, server.blocks
      ensures Valid(Next(w, Report(i, areas, memory, is_open)))
      ensures server.Exact() <==> old(server.Exact()) && !Loses(w, Report(i, areas, memory, is_open))
      ensures fresh(stashed - old(stashed)) && fresh(tries - old(tries)) && fresh(server.blocks - old(server.blocks))
      ensures fresh(server.tables.Keys - old(server.tables.Keys)) && fresh(server.lists.Keys - old(server.lists.Keys))
    {
      hide Members, Stashes, Shows, MPServer.Accounted, MPServer.Exact, Next, Good;
      AsMany(w.seats);
      StayIs(w, Report(i, areas, memory, is_open));
      server.ExactIffNothingDropped();
      ReportProcess(i, areas, memory, is_open, w.seats);
      server.ExactIffNothingDropped();
    }

    /** status_changed_cb, when the process is gone */
    method FinishAt(i: nat, ghost w: World)
      requires Valid(w) && i < |processes|
      modifies this, stashed, tries, server, server.tables.Keys, server.lists.Keys, server.blocks
      ensures Valid(Next(w, Finish(i)))
      ensures server.Exact() <==> old(server.Exact()) && !Loses(w, Finish(i))
      ensures fresh(stashed - old(stashed)) && fresh(tries - old(tries)) && fresh(server.blocks - old(server.blocks))
      ensures fresh(server.tables.Keys - old(server.tables.Keys)) && fresh(server.lists.Keys - old(server.lists.Keys))
    {
      hide Members, Stashes, Shows, MPServer.Accounted, MPServer.Exact, Next, Good;
      AsMany(w.seats);
      StayIs(w, Finish(i));
      ResetWindow(i, w.seats);
    }

    /** process_new and init_process */
    method StartProcess(ghost w: World)
      requires Valid(w)
      modifies this, stashed, tries, server, server.tables.Keys, server.lists.Keys, server.blocks
      ensures Valid(Next(w, Start)) && (server.Exact() <==> old(server.Exact()))
      ensures fresh(stashed - old(stashed)) && fresh(tries - old(tries)) && fresh(server.blocks - old(server.blocks))
      ensures fresh(server.tables.Keys - old(server.tables.Keys)) && fresh(server.lists.Keys - old(server.lists.Keys))
    {
      hide Members, Stashes, Shows, MPServer.Accounted, MPServer.Exact, Next, Good, Evolve;
      NewIs(w, Start);
      server.ExactIffNothingDropped();
      MakeProcess(w.seats);
      AddStash(w.stashes, w.next, w.freed);
      server.ExactIffNothingDropped();
    }

    /** One event: references stay accounted for, nothing but the process and window it
        concerns changes, a reset frees the stash of its process, and counts become inexact
        exactly if it resets a window with leaks. */
    method Step(a: Action, ghost w: World)
      requires Valid(w) && (a.Report? ==> a.memory.Valid())
      modifies this, stashed, tries, server, server.tables.Keys, server.lists.Keys, server.blocks
      ensures Valid(Next(w, a))
      ensures server.Exact() <==> old(server.Exact()) && !Loses(w, a)
      ensures fresh(stashed - old(stashed)) && fresh(tries - old(tries)) && fresh(server.blocks - old(server.blocks))
      ensures fresh(server.tables.Keys - old(server.tables.Keys)) && fresh(server.lists.Keys - old(server.lists.Keys))
    {
      ManySeats(w);
      hide Valid, MPServer.Exact, Evolve;
      match a
      case Start => StartProcess(w);
      case Deliver(i, info, addrs) => if i < |processes| { DeliverTo(i, info, addrs, w); }
      case Branch(i) => if i < |processes| { BranchFrom(i, w); }
      case Restart(i) => if i < |processes| { RestartAt(i, w); }
      case Clear(i) => if i < |processes| { ClearAt(i, w); }
      case Report(i, areas, memory, is_open) => if i < |processes| { ReportOn(i, areas, memory, is_open, w); }
      case Finish(i) => if i < |processes| { FinishAt(i, w); }
    }

    lemma ManySeats(w: World)
      requires Valid(w)
      ensures Good(w) && |w.seats| == |processes|
    {
    }

    /** The counters of every process are those of its table. */
    ghost predicate CountersRight()
      reads this`processes, processes
    {
      forall p :: p in processes ==> Counted(p.TheCore())
    }

    /** After every run the session is as the world says, with the counters of all tables and
        the references to all blocks accounted for.  Every reference count is the number of
        holders if and only if it was before and no event of the run reset a window with leaks
        on its list. */
    method Perform(actions: List<Action>, ghost w: World)
      requires Valid(w) && Possible(actions) && AllCounted(w)
      modifies this, stashed, tries, server, server.tables.Keys, server.lists.Keys, server.blocks
      ensures Valid(AfterAll(w, actions))
      ensures CountersRight()
      ensures server.Exact() <==> old(server.Exact()) && !Lossy(w, actions)
    {
      hide *;
      ManySeats(w);
      var list := actions;
      ghost var now := w;
      while list.Cons?
        invariant Good(now) && Valid(now) && Possible(list) && AllCounted(now)
        invariant AfterAll(now, list) == AfterAll(w, actions)
        invariant (server.Exact() && !Lossy(now, list)) <==> (old(server.Exact()) && !Lossy(w, actions))
        invariant fresh(stashed - old(stashed)) && fresh(tries - old(tries))
        invariant fresh(server.tables.Keys - old(server.tables.Keys))
        invariant fresh(server.lists.Keys - old(server.lists.Keys)) && fresh(server.blocks - old(server.blocks))
        decreases list
      {
        RunOnwards(now, list);
        Step(list.head, now);
        now := Next(now, list.head);
        list := list.tail;
      }
      RunEnd(now);
      ShownCounts(now);
    }

    lemma ShownCounts(w: World)
      requires Valid(w) && AllCounted(w)
      ensures CountersRight()
    {
      hide Counted, MapCore, MPProcess.TheCore, Members, Stashes, MPServer.Accounted, Good;
      forall p | p in processes ensures Counted(p.TheCore()) {
        var i :| 0 <= i < |processes| && processes[i] == p;
        assert MapState(HeldBy, processes[i].View()) == w.seats[i].state;
        MapCounted(HeldBy, p.TheCore());
      }
    }
  }
}
