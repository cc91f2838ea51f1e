/** profile_func_create_caller_list, src/profile.c:434-517: who calls a function, and how
    many bytes each caller is responsible for. */
module Callers {
  import opened Ledger
  import opened Process
  import opened BlockSets
  import opened ProfileTree
  import opened Profiles
  import opened ProfileTheorems

  /** A row of the caller list: a caller, or nobody for stacks that start with the function. */
  datatype Caller = Nobody | By(symbol: Symbol)

  ghost function KeyOf(p: Path<Symbol>): Caller
    requires p.Frame?
  {
    if p.up.Root? then Nobody else By(p.up.last)
  }

  /** The stacks on which the caller calls s, and those that end in such a call. */
  ghost function CallsOf(k: Caller, s: Symbol): Query<Symbol> {
    if k.Nobody? then Begins(Frame(Root, s)) else Calls(k.symbol, s)
  }

  ghost function EndCallsOf(k: Caller, s: Symbol): Query<Symbol> {
    if k.Nobody? then Is(Frame(Root, s)) else EndsInCall(k.symbol, s)
  }

  /** The outermost call of the same pair of functions on a path. */
  ghost function TopOf(p: Path<Symbol>): Path<Symbol>
    requires p.Frame?
  {
    if p.up.Root? then p else UpToCall(p, p.up.last, p.last)
  }

  lemma TopIsFirst(p: Path<Symbol>)
    requires p.Frame?
    ensures TopOf(p).Frame? && TopOf(p).last == p.last && KeyOf(TopOf(p)) == KeyOf(p)
    ensures Starts(TopOf(p), p) && TopOf(TopOf(p)) == TopOf(p)
  {
    if p.up.Frame? {
      UpToCallIsFirst(p, p.up.last, p.last);
    }
  }

  /** Two different outermost calls of the same pair never begin the same stack. */
  lemma TopsDisjoint(p: Path<Symbol>, q: Path<Symbol>)
    requires p.Frame? && q.Frame? && p.last == q.last && KeyOf(p) == KeyOf(q) && p != q
    requires TopOf(p) == p && TopOf(q) == q
    ensures !Starts(p, q) && !Starts(q, p)
  {
    if p.up.Frame? {
      UpToCallIsFirst(p, p.up.last, p.last);
      UpToCallIsFirst(q, p.up.last, p.last);
      if Starts(p, q) {
        FirstCallIsUpTo(p, q, p.up.last, p.last);
      }
      if Starts(q, p) {
        FirstCallIsUpTo(q, p, p.up.last, p.last);
      }
    }
  }

  ghost function Select(ps: set<Path<Symbol>>, k: Caller): set<Path<Symbol>> {
    set p | p in ps && p.Frame? && KeyOf(p) == k
  }

  // ----- The rows

  /** Whose row it is. */
  ghost function RowKey(f: ProfileFunc): Caller {
    if f.node == null then Nobody else By(f.node.symbol)
  }

  /** row finds the row of a caller. */
  ghost predicate Keyed(result: seq<ProfileFunc>, row: map<Caller, nat>) {
    && (forall i :: 0 <= i < |result| ==> RowKey(result[i]) in row && row[RowKey(result[i])] == i)
    && (forall k :: k in row ==> row[k] < |result| && RowKey(result[row[k]]) == k)
  }

  /** The hash table and the extra row refer to the rows of the result. */
  ghost predicate Refers(result: seq<ProfileFunc>, row: map<Caller, nat>,
                         callers: map<Symbol, ProfileFunc>, spontaneous: ProfileFunc?) {
    && Keyed(result, row)
    && (forall i, j :: 0 <= i < j < |result| ==> result[i] != result[j])
    && (forall c :: c in callers <==> By(c) in row)
    && (forall c :: c in callers ==> callers[c] == result[row[By(c)]])
    && (spontaneous != null <==> Nobody in row)
    && (spontaneous != null ==> spontaneous == result[row[Nobody]])
  }

  lemma RefersNothing()
    ensures Refers([], map[], map[], null)
  {
  }

  lemma RefersGrows(result: seq<ProfileFunc>, row: map<Caller, nat>,
                    callers: map<Symbol, ProfileFunc>, spontaneous: ProfileFunc?, k: Caller, f: ProfileFunc)
    requires Refers(result, row, callers, spontaneous) && k == RowKey(f) && k !in row && f !in result
    ensures k.Nobody? ==> Refers(result + [f], row[k := |result|], callers, f)
    ensures k.By? ==> Refers(result + [f], row[k := |result|], callers[k.symbol := f], spontaneous)
  {
  }

  /** The sums that the rows have after the nodes with paths ends, of which tops are the
      outermost calls. */
  ghost predicate RowSums(result: seq<ProfileFunc>, log: Log<Symbol>,
                          tops: set<Path<Symbol>>, ends: set<Path<Symbol>>)
    reads result
  {
    forall i :: 0 <= i < |result| ==>
      && result[i].total == Weight(log, Below(Select(tops, RowKey(result[i]))))
      && result[i].self == Weight(log, Among(Select(ends, RowKey(result[i]))))
  }

  ghost function Tops(ends: set<Path<Symbol>>): set<Path<Symbol>> {
    set p | p in ends && p.Frame? :: TopOf(p)
  }

  /** Adding one more node to the row of its caller. */
  lemma SumsStep(log: Log<Symbol>, ends: set<Path<Symbol>>, p: Path<Symbol>)
    requires p.Frame? && p !in ends
    requires forall q :: q in ends ==> q.Frame? && q.last == p.last
    ensures forall k :: k != KeyOf(p) ==> Select(ends + {p}, k) == Select(ends, k)
    ensures forall k :: k != KeyOf(p) ==> Select(Tops(ends + {p}), k) == Select(Tops(ends), k)
    ensures Weight(log, Among(Select(ends + {p}, KeyOf(p)))) ==
              Weight(log, Among(Select(ends, KeyOf(p)))) + Weight(log, Is(p))
    ensures Weight(log, Below(Select(Tops(ends + {p}), KeyOf(p)))) ==
            Weight(log, Below(Select(Tops(ends), KeyOf(p)))) + if TopOf(p) in Tops(ends) then 0 else Weight(log,
                Begins(TopOf(p)))
  {
    var key, top := KeyOf(p), TopOf(p);
    TopIsFirst(p);
    assert Tops(ends + {p}) == Tops(ends) + {top};
    assert Select(ends + {p}, key) == Select(ends, key) + {p};
    AmongExtend(log, Select(ends, key), p);
    assert Select(Tops(ends + {p}), key) == Select(Tops(ends), key) + {top};
    if top in Tops(ends) {
      assert Select(Tops(ends + {p}), key) == Select(Tops(ends), key);
    } else {
      forall q | q in Select(Tops(ends), key) ensures !Starts(q, top) && !Starts(top, q) {
        var r :| r in ends && r.Frame? && TopOf(r) == q;
        TopIsFirst(r);
        TopsDisjoint(q, top);
      }
      BelowExtend(log, Select(Tops(ends), key), top);
    }
  }

  /** All nodes of a function together account for every stack on which a caller calls it. */
  lemma AllCalls(log: Log<Symbol>, ends: set<Path<Symbol>>, s: Symbol, k: Caller)
    requires forall p :: p in ends ==> p.Frame? && p.last == s
    requires forall t, p :: t in Traces(log) && Starts(p, t) && p.Frame? && p.last == s ==> p in ends
    ensures Weight(log, Below(Select(Tops(ends), k))) == Weight(log, CallsOf(k, s))
    ensures Weight(log, Among(Select(ends, k))) == Weight(log, EndCallsOf(k, s))
  {
    forall t | t in Traces(log)
      ensures Holds(Below(Select(Tops(ends), k)), t) == Holds(CallsOf(k, s), t)
    {
      if Holds(Below(Select(Tops(ends), k)), t) {
        var q :| q in Select(Tops(ends), k) && Starts(q, t);
        var p :| p in ends && p.Frame? && TopOf(p) == q;
        TopIsFirst(p);
        if k.By? {
          UpToCallIsFirst(q, k.symbol, s);
          FirstCallIsUpTo(q, t, k.symbol, s);
        }
      }
      if Holds(CallsOf(k, s), t) {
        var q := if k.Nobody? then Frame(Root, s) else UpToCall(t, k.symbol, s);
        if k.By? {
          UpToCallIsFirst(t, k.symbol, s);
          FirstCallIsUpTo(q, q, k.symbol, s);
        }
        assert q in ends && TopOf(q) == q;
        assert q in Select(Tops(ends), k);
      }
    }
    WeightAgree(log, Below(Select(Tops(ends), k)), CallsOf(k, s));
    forall t | t in Traces(log)
      ensures Holds(Among(Select(ends, k)), t) == Holds(EndCallsOf(k, s), t)
    {
      assert Starts(t, t);
    }
    WeightAgree(log, Among(Select(ends, k)), EndCallsOf(k, s));
  }

  // ----- The two loops

  /** src/profile.c:475-501: the topmost pair of nodes identical to this node and its parent. */
  method TopCall(profile: Profile, node: ProfileNode) returns (top_caller: ProfileNode?, top_callee: ProfileNode)
    requires profile.Valid() && node in profile.nodes
    ensures top_callee in profile.nodes && top_callee.path == TopOf(node.path) && top_callee.parent == top_caller
  {
    assert Linked(node);
    top_caller, top_callee := node.parent, node;
    if node.parent == null {
      return;
    }
    ghost var caller, callee := node.parent.symbol, node.symbol;
    assert Linked(node.parent);
    var n := node.parent;
    while n != null && n.parent != null
      invariant n != null ==> n in profile.nodes && Linked(n)
      invariant top_callee in profile.nodes && top_callee.parent == top_caller && top_caller != null &&
                top_caller.symbol == caller
      invariant UpToCall(node.path, caller, callee) ==
                if HasCall(PathOf(n), caller, callee) then UpToCall(PathOf(n), caller, callee) else top_callee.path
      decreases PathOf(n)
    {
      assert Linked(n.parent);
      if n.symbol == node.symbol && n.parent.symbol == top_caller.symbol {
        top_caller, top_callee := n.parent, n;
      }
      n := n.parent;
    }
  }

  /** src/profile.c:445-473: a row for every caller in the chain of the function. */
  method FindCallers(profile: Profile, first: ProfileNode)
    returns (result: seq<ProfileFunc>, callers: map<Symbol, ProfileFunc>, spontaneous: ProfileFunc?,
             ghost row: map<Caller, nat>)
    requires profile.Valid() && first in profile.nodes
    ensures Refers(result, row, callers, spontaneous)
    ensures fresh(result) && forall i :: 0 <= i < |result| ==> result[i].total == result[i].self == 0
    ensures forall n :: n in Chain(first) ==> n in profile.nodes && n.path.Frame? && KeyOf(n.path) in row
    ensures forall k :: k in row ==> exists n :: n in Chain(first) && n.path.Frame? && KeyOf(n.path) == k
  {
    hide Profile.Valid, Keyed, PathOf;
    RefersNothing();
    result, callers, spontaneous, row := [], map[], null, map[];
    ghost var done: set<ProfileNode> := {};
    ghost var of: map<Caller, ProfileNode> := map[];
    var node: ProfileNode? := first;
    while node != null
      invariant node != null ==> node in profile.nodes
      invariant done + Chain(node) == Chain(first) && done <= profile.nodes
      invariant Refers(result, row, callers, spontaneous)
      invariant fresh(result) && forall i :: 0 <= i < |result| ==> result[i].total == result[i].self == 0
      invariant forall n :: n in done ==> n.path.Frame? && KeyOf(n.path) in row
      invariant forall k :: k in row ==> k in of && of[k] in done && of[k].path.Frame? && KeyOf(of[k].path) == k
      decreases Chain(node)
    {
      NextInChain(profile, node);
      KeyOfNode(profile, node);
      ghost var key := KeyOf(node.path);
      if node.parent != null {
        if node.parent.symbol !in callers {
          var caller := new ProfileFunc(node.parent);
          RefersGrows(result, row, callers, spontaneous, key, caller);
          callers := callers[node.parent.symbol := caller];
          row, of := row[key := |result|], of[key := node];
          result := result + [caller];
        }
      } else {
        if spontaneous == null {
          var nobody := new ProfileFunc(null);
          RefersGrows(result, row, callers, spontaneous, key, nobody);
          spontaneous := nobody;
          row, of := row[key := |result|], of[key := node];
          result := result + [nobody];
        }
      }
      done := done + {node};
      node := node.next;
    }
  }

  lemma KeyOfNode(profile: Profile, n: ProfileNode)
    requires profile.Valid() && n in profile.nodes
    ensures n.path.Frame? && n.path.last == n.symbol
    ensures KeyOf(n.path) == if n.parent == null then Nobody else By(n.parent.symbol)
  {
    assert Linked(n);
    assert n.parent != null ==> Linked(n.parent);
  }

  /** One round of src/profile.c:475-511 once the row is known. */
  method AddCall(profile: Profile, node: ProfileNode, caller: ProfileFunc, marked: set<ProfileNode?>)
    returns (marked': set<ProfileNode?>)
    requires profile.Valid() && node in profile.nodes
    modifies caller
    ensures exists m :: m in profile.nodes && m.path == TopOf(node.path) && marked' == marked + {m.parent}
              && caller.total == old(caller.total) + if m.parent in marked then 0 else m.total
    ensures caller.self == old(caller.self) + node.self
  {
    var top_caller, top_callee := TopCall(profile, node);
    if top_caller !in marked {
      caller.total := caller.total + top_callee.total;
    }
    marked' := marked + {top_caller};
    if node.self > 0 {
      caller.self := caller.self + node.self;
    }
  }

  /** A parent is marked exactly if the node of the function below it is an outermost call
      that has been counted. */
  ghost predicate MarkedAre(nodes: set<ProfileNode>, s: Symbol, marked: set<ProfileNode?>, tops: set<Path<Symbol>>) {
    forall m :: m in nodes && m.symbol == s ==> (m.parent in marked <==> m.path in tops)
  }

  lemma MarkedStep(profile: Profile, s: Symbol, marked: set<ProfileNode?>, tops: set<Path<Symbol>>, m: ProfileNode)
    requires profile.Valid() && m in profile.nodes && m.symbol == s
    requires MarkedAre(profile.nodes, s, marked, tops)
    ensures MarkedAre(profile.nodes, s, marked + {m.parent}, tops + {m.path})
  {
    assert m.path == Frame(PathOf(m.parent), m.symbol);
    forall n | n in profile.nodes && n.symbol == s
      ensures n.parent == m.parent <==> n.path == m.path
    {
      assert n.path == Frame(PathOf(n.parent), n.symbol);
    }
  }

  lemma TopsStep(ends: set<Path<Symbol>>, p: Path<Symbol>)
    requires p.Frame?
    ensures Tops(ends + {p}) == Tops(ends) + {TopOf(p)}
  {
  }

  /** The rows after one more node: only the row of its caller changes. */
  lemma RowsStep(log: Log<Symbol>, result: seq<ProfileFunc>, row: map<Caller, nat>, j: nat,
          ends: set<Path<Symbol>>, p: Path<Symbol>)
    requires Keyed(result, row) && p.Frame? && p !in ends && j < |result| && RowKey(result[j]) == KeyOf(p)
    requires forall q :: q in ends ==> q.Frame? && q.last == p.last
    ensures forall i :: 0 <= i < |result| && i != j ==>
              && Select(Tops(ends + {p}), RowKey(result[i])) == Select(Tops(ends), RowKey(result[i]))
              && Select(ends + {p}, RowKey(result[i])) == Select(ends, RowKey(result[i]))
    ensures Weight(log, Among(Select(ends + {p}, RowKey(result[j])))) ==
              Weight(log, Among(Select(ends, RowKey(result[j])))) + Weight(log, Is(p))
    ensures Weight(log, Below(Select(Tops(ends + {p}), RowKey(result[j])))) ==
            Weight(log, Below(Select(Tops(ends),
                RowKey(result[j])))) + if TopOf(p) in Tops(ends) then 0 else Weight(log, Begins(TopOf(p)))
  {
    SumsStep(log, ends, p);
  }

  method RowOf(node: ProfileNode, callers: map<Symbol, ProfileFunc>, spontaneous: ProfileFunc?, profile: Profile,
               ghost result: seq<ProfileFunc>, ghost row: map<Caller, nat>)
    returns (caller: ProfileFunc, ghost j: nat)
    requires profile.Valid() && node in profile.nodes && node.path.Frame?
    requires Refers(result, row, callers, spontaneous) && KeyOf(node.path) in row
    ensures j == row[KeyOf(node.path)] && j < |result| && caller == result[j] && RowKey(caller) == KeyOf(node.path)
    ensures Keyed(result, row)
  {
    KeyOfNode(profile, node);
    j := row[KeyOf(node.path)];
    if node.parent == null {
      assert spontaneous != null;
      caller := spontaneous;
    } else {
      caller := callers[node.parent.symbol];
    }
  }

  /** src/profile.c:475-511 */
  method AddCalls(profile: Profile, first: ProfileNode, callers: map<Symbol, ProfileFunc>, spontaneous: ProfileFunc?,
                  ghost result: seq<ProfileFunc>, ghost row: map<Caller, nat>)
    requires profile.Valid() && first in profile.nodes
    requires Refers(result, row, callers, spontaneous)
    requires forall i :: 0 <= i < |result| ==> result[i].total == result[i].self == 0
    requires forall n :: n in Chain(first) ==> n in profile.nodes && n.path.Frame? && KeyOf(n.path) in row
    modifies result
    ensures RowSums(result, profile.log, Tops(AllPaths(Chain(first))), AllPaths(Chain(first)))
  {
    hide Profile.Valid, TopOf, Refers, Keyed;
    var marked: set<ProfileNode?> := {};
    ghost var done: set<ProfileNode> := {};
    NoCallsYet(profile, first.symbol, result, row, callers, spontaneous);
    var node: ProfileNode? := first;
    while node != null
      invariant node != null ==> node in profile.nodes && node.symbol == first.symbol
      invariant done !! Chain(node) && done + Chain(node) == Chain(first) && done <= profile.nodes
      invariant forall n :: n in done ==> n.symbol == first.symbol
      invariant MarkedAre(profile.nodes, first.symbol, marked, Tops(AllPaths(done)))
      invariant RowSums(result, profile.log, Tops(AllPaths(done)), AllPaths(done))
      decreases Chain(node)
    {
      NextInChain(profile, node);
      marked := AddOneCall(profile, node, marked, callers, spontaneous, done, result, row);
      done := done + {node};
      node := node.next;
    }
  }

  lemma NoCallsYet(profile: Profile, s: Symbol, result: seq<ProfileFunc>, row: map<Caller, nat>,
                   callers: map<Symbol, ProfileFunc>, spontaneous: ProfileFunc?)
    requires Refers(result, row, callers, spontaneous)
    requires forall i :: 0 <= i < |result| ==> result[i].total == result[i].self == 0
    ensures MarkedAre(profile.nodes, s, {}, Tops(AllPaths({})))
    ensures RowSums(result, profile.log, Tops(AllPaths({})), AllPaths({}))
  {
    forall k: Caller
      ensures Weight(profile.log, Below(Select(Tops(AllPaths({})), k))) == 0
      ensures Weight(profile.log, Among(Select(AllPaths({}), k))) == 0
    {
      WeightNone(profile.log, Below(Select(Tops(AllPaths({})), k)));
      WeightNone(profile.log, Among(Select(AllPaths({}), k)));
    }
  }

  method AddOneCall(profile: Profile, node: ProfileNode, marked: set<ProfileNode?>,
          callers: map<Symbol, ProfileFunc>, spontaneous: ProfileFunc?,
                    ghost done: set<ProfileNode>, ghost result: seq<ProfileFunc>, ghost row: map<Caller, nat>)
    returns (marked': set<ProfileNode?>)
    requires profile.Valid() && node in profile.nodes && node !in done && done <= profile.nodes
    requires forall n :: n in done ==> n.symbol == node.symbol
    requires Refers(result, row, callers, spontaneous)
    requires node.path.Frame? && KeyOf(node.path) in row
    requires MarkedAre(profile.nodes, node.symbol, marked, Tops(AllPaths(done)))
    requires RowSums(result, profile.log, Tops(AllPaths(done)), AllPaths(done))
    modifies result
    ensures MarkedAre(profile.nodes, node.symbol, marked', Tops(AllPaths(done + {node})))
    ensures RowSums(result, profile.log, Tops(AllPaths(done + {node})), AllPaths(done + {node}))
  {
    hide Profile.Valid, TopOf, Weight, Tops, Select, AllPaths, KeyOf;
    var caller;
    ghost var j;
    caller, j := RowOf(node, callers, spontaneous, profile, result, row);
    DoneFacts(profile, node, done);
    RowsStep(profile.log, result, row, j, AllPaths(done), node.path);
    TopsStep(AllPaths(done), node.path);
    marked' := AddCall(profile, node, caller, marked);
    ghost var m :| m in profile.nodes && m.path == TopOf(node.path) && marked' == marked + {m.parent}
      && caller.total == old(caller.total) + if m.parent in marked then 0 else m.total;
    TopNode(profile, node, m);
    MarkedStep(profile, node.symbol, marked, Tops(AllPaths(done)), m);
  }

  lemma DoneFacts(profile: Profile, n: ProfileNode, done: set<ProfileNode>)
    requires profile.Valid() && n in profile.nodes && n !in done && done <= profile.nodes
    requires forall m :: m in done ==> m.symbol == n.symbol
    ensures n.path.Frame? && n.path !in AllPaths(done) && AllPaths(done + {n}) == AllPaths(done) + {n.path}
    ensures forall q :: q in AllPaths(done) ==> q.Frame? && q.last == n.path.last
    ensures n.self == Weight(profile.log, Is(n.path))
  {
    assert Linked(n);
    forall q | q in AllPaths(done) ensures q.Frame? && q.last == n.path.last {
      var m :| m in done && m.path == q;
      assert Linked(m);
    }
  }

  lemma TopNode(profile: Profile, n: ProfileNode, m: ProfileNode)
    requires profile.Valid() && n in profile.nodes && m in profile.nodes && n.path.Frame? && m.path == TopOf(n.path)
    ensures m.symbol == n.symbol && m.total == Weight(profile.log, Begins(m.path))
  {
    assert Linked(n) && Linked(m);
    TopIsFirst(n.path);
    ShareOfDone(profile.log, m.path);
  }

  // ----- The list

  /** Each row has the weight of the stacks on which its caller calls s, no caller has two
      rows, and one that has none never calls s. */
  ghost predicate CallerRows(log: Log<Symbol>, s: Symbol, result: seq<ProfileFunc>)
    reads result
  {
    && (forall i, j :: 0 <= i < j < |result| ==> RowKey(result[i]) != RowKey(result[j]))
    && (forall i :: 0 <= i < |result| ==>
         && result[i].total == Weight(log, CallsOf(RowKey(result[i]), s))
         && result[i].self == Weight(log, EndCallsOf(RowKey(result[i]), s)))
    && (forall k :: k !in KeysOf(result, |result|) ==> Weight(log, CallsOf(k, s)) == 0)
  }

  /** The callers that have one of the first n rows. */
  ghost function KeysOf(result: seq<ProfileFunc>, n: nat): set<Caller>
    requires n <= |result|
  {
    set i | 0 <= i < n :: RowKey(result[i])
  }

  /** profile_func_create_caller_list: exact totals under recursion.  A caller's total are
      the stacks on which it calls the function, each once, and only callers with such a
      stack have a row. */
  method CreateCallerList(profile: Profile, func: ProfileFunc) returns (result: seq<ProfileFunc>)
    requires profile.Valid() && func.node != null && func.node in profile.nodes
    requires func.node.symbol in profile.nodes_by_symbol && profile.nodes_by_symbol[func.node.symbol] == func.node
    ensures CallerRows(profile.log, func.node.symbol, result)
    ensures forall f :: f in result ==>
              exists p :: p in profile.at && p.Frame? && p.last == func.node.symbol && KeyOf(p) == RowKey(f)
  {
    hide Profile.Valid, RowSums, Select, Tops, TopOf, AllPaths, CallsOf, EndCallsOf, Weight, CallerRows;
    var callers, spontaneous;
    ghost var row;
    result, callers, spontaneous, row := FindCallers(profile, func.node);
    AddCalls(profile, func.node, callers, spontaneous, result, row);
    ChainHasAll(profile, func.node, row);
    AllRows(profile.log, AllPaths(Chain(func.node)), func.node.symbol, result, row);
    KeysHavePaths(profile, func.node, row);
  }

  lemma KeysHavePaths(profile: Profile, first: ProfileNode, row: map<Caller, nat>)
    requires profile.Valid() && first in profile.nodes
    requires first.symbol in profile.nodes_by_symbol && profile.nodes_by_symbol[first.symbol] == first
    requires forall k :: k in row ==> exists n :: n in Chain(first) && n.path.Frame? && KeyOf(n.path) == k
    ensures forall k :: k in row ==> exists p :: p in profile.at && p.Frame? && p.last == first.symbol && KeyOf(p) == k
  {
    assert IndexAt(profile.nodes, profile.nodes_by_symbol, first);
    forall k | k in row
      ensures exists p :: p in profile.at && p.Frame? && p.last == first.symbol && KeyOf(p) == k
    {
      var n :| n in Chain(first) && n.path.Frame? && KeyOf(n.path) == k;
      assert Linked(n);
      assert n.path in profile.at;
    }
  }

  /** The chain of a function holds a node for every place where a stack enters it. */
  lemma ChainHasAll(profile: Profile, first: ProfileNode, row: map<Caller, nat>)
    requires profile.Valid() && first in profile.nodes
    requires first.symbol in profile.nodes_by_symbol && profile.nodes_by_symbol[first.symbol] == first
    requires forall n :: n in Chain(first) ==> n in profile.nodes && n.path.Frame? && KeyOf(n.path) in row
    ensures forall p :: p in AllPaths(Chain(first)) ==> p.Frame? && p.last == first.symbol && KeyOf(p) in row
    ensures forall t, p :: t in Traces(profile.log) && Starts(p, t) && p.Frame? && p.last == first.symbol ==>
              p in AllPaths(Chain(first))
  {
    var index := profile.nodes_by_symbol;
    assert IndexAt(profile.nodes, index, first);
    forall p | p in AllPaths(Chain(first)) ensures p.Frame? && p.last == first.symbol && KeyOf(p) in row {
      var n :| n in Chain(first) && n.path == p;
      assert Linked(n);
    }
    forall t, p | t in Traces(profile.log) && Starts(p, t) && p.Frame? && p.last == first.symbol
      ensures p in AllPaths(Chain(first))
    {
      assert profile.Reaches(t);
      var n := profile.at[p];
      assert Linked(n);
      assert IndexAt(profile.nodes, index, n);
    }
  }

  lemma AllRows(log: Log<Symbol>, ends: set<Path<Symbol>>, s: Symbol, result: seq<ProfileFunc>, row: map<Caller, nat>)
    requires Keyed(result, row) && RowSums(result, log, Tops(ends), ends)
    requires forall p :: p in ends ==> p.Frame? && p.last == s && KeyOf(p) in row
    requires forall t, p :: t in Traces(log) && Starts(p, t) && p.Frame? && p.last == s ==> p in ends
    ensures CallerRows(log, s, result)
  {
    hide Tops;
    forall k: Caller
      ensures Weight(log, Below(Select(Tops(ends), k))) == Weight(log, CallsOf(k, s))
      ensures Weight(log, Among(Select(ends, k))) == Weight(log, EndCallsOf(k, s))
    {
      AllCalls(log, ends, s, k);
    }
    forall k | k in row ensures k in KeysOf(result, |result|) {
      assert RowKey(result[row[k]]) == k;
    }
    forall k | k !in KeysOf(result, |result|) ensures Weight(log, CallsOf(k, s)) == 0 {
      NoSuchCall(log, ends, k);
    }
  }

  lemma NoSuchCall(log: Log<Symbol>, ends: set<Path<Symbol>>, k: Caller)
    requires forall p :: p in ends ==> p.Frame? && KeyOf(p) != k
    ensures Weight(log, Below(Select(Tops(ends), k))) == 0
  {
    forall p | p in ends ensures TopOf(p).Frame? && KeyOf(TopOf(p)) != k {
      TopIsFirst(p);
    }
    assert Select(Tops(ends), k) == {};
    WeightNone(log, Below(Select(Tops(ends), k)));
  }

  /** No caller is responsible for more than the function itself, nor has more in calls
      that end the stack than in all its calls. */
  lemma CallerBounds(log: Log<Symbol>, s: Symbol, func: ProfileFunc, result: seq<ProfileFunc>)
    requires NonNegative(log) && Sums(func, log, s) && CallerRows(log, s, result)
    ensures forall i :: 0 <= i < |result| ==> result[i].self <= result[i].total <= func.total
  {
    forall i | 0 <= i < |result|
      ensures result[i].self <= result[i].total <= func.total
    {
      var k := RowKey(result[i]);
      forall t: Path<Symbol>
        ensures Holds(EndCallsOf(k, s), t) ==> Holds(CallsOf(k, s), t)
        ensures Holds(CallsOf(k, s), t) ==> Has(t, s)
      {
        CallMentions(k, s, t);
      }
      WeightMonotone(log, EndCallsOf(k, s), CallsOf(k, s));
      WeightMonotone(log, CallsOf(k, s), Mentions(s));
    }
  }

  lemma {:induction false} CallMentions(k: Caller, s: Symbol, t: Path<Symbol>)
    ensures Holds(EndCallsOf(k, s), t) ==> Holds(CallsOf(k, s), t)
    ensures Holds(CallsOf(k, s), t) ==> Has(t, s)
    decreases t
  {
    if k.Nobody? {
      if Starts(Frame(Root, s), t) {
        StartsHas(Frame(Root, s), t, s);
      }
    } else if t.Frame? {
      CallMentions(k, s, t.up);
    }
  }

  /** The stacks that end in s, called by one of ks. */
  ghost function EndsOf(log: Log<Symbol>, s: Symbol, ks: set<Caller>): set<Path<Symbol>> {
    set t | t in Traces(log) && t.Frame? && t.last == s && KeyOf(t) in ks
  }

  lemma {:induction false} SelfSumIsWeight(log: Log<Symbol>, s: Symbol, result: seq<ProfileFunc>, n: nat)
    requires CallerRows(log, s, result) && n <= |result|
    ensures SelfSum(result, n) == Weight(log, Among(EndsOf(log, s, KeysOf(result, n))))
  {
    hide EndsOf, EndCallsOf, CallsOf, RowKey;
    if n == 0 {
      NoEnds(log, s, KeysOf(result, 0));
    } else {
      SelfSumIsWeight(log, s, result, n - 1);
      assert KeysOf(result, n) == KeysOf(result, n - 1) + {RowKey(result[n - 1])};
      EndsOfStep(log, s, KeysOf(result, n - 1), RowKey(result[n - 1]));
    }
  }

  lemma NoEnds(log: Log<Symbol>, s: Symbol, ks: set<Caller>)
    requires ks == {}
    ensures Weight(log, Among(EndsOf(log, s, ks))) == 0
  {
    WeightNone(log, Among(EndsOf(log, s, ks)));
  }

  lemma EndsOfStep(log: Log<Symbol>, s: Symbol, ks: set<Caller>, k: Caller)
    requires k !in ks
    ensures Weight(log, Among(EndsOf(log, s, ks + {k}))) ==
              Weight(log, Among(EndsOf(log, s, ks))) + Weight(log, EndCallsOf(k, s))
  {
    hide Weight, EndCallsOf;
    forall t | t in Traces(log)
      ensures (t in EndsOf(log, s, ks + {k})) == (t in EndsOf(log, s, ks) || Holds(EndCallsOf(k, s), t))
      ensures !(t in EndsOf(log, s, ks) && Holds(EndCallsOf(k, s), t))
    {
      EndsWithKey(s, k, t);
    }
    WeightSplit(log, Among(EndsOf(log, s, ks + {k})), Among(EndsOf(log, s, ks)), EndCallsOf(k, s));
  }

  lemma EndsWithKey(s: Symbol, k: Caller, t: Path<Symbol>)
    ensures Holds(EndCallsOf(k, s), t) == (t.Frame? && t.last == s && KeyOf(t) == k)
  {
  }

  /** The self values of all callers are the self value of the function. */
  lemma CallerSelfValuesAddUp(log: Log<Symbol>, s: Symbol, func: ProfileFunc, result: seq<ProfileFunc>)
    requires NonNegative(log) && Sums(func, log, s) && CallerRows(log, s, result)
    ensures SelfSum(result, |result|) == func.self
  {
    SelfSumIsWeight(log, s, result, |result|);
    SplitByCaller(log, s, KeysOf(result, |result|));
  }

  /** Ends without a row weigh nothing, since their calls do. */
  lemma SplitByCaller(log: Log<Symbol>, s: Symbol, ks: set<Caller>)
    requires NonNegative(log)
    requires forall k :: k !in ks ==> Weight(log, CallsOf(k, s)) == 0
    ensures Weight(log, EndsIn(s)) == Weight(log, Among(EndsOf(log, s, ks)))
  {
    var without := set t | t in Traces(log) && t.Frame? && t.last == s && KeyOf(t) !in ks;
    WeightSplit(log, EndsIn(s), Among(EndsOf(log, s, ks)), Among(without));
    forall t | t in without ensures Weight(log, Is(t)) == 0 {
      var k := KeyOf(t);
      assert Holds(CallsOf(k, s), t) by {
        CallMentions(k, s, t);
      }
      WeightMonotone(log, Is(t), CallsOf(k, s));
    }
    WeightlessSet(log, without);
  }

  // ----- Blocks

  /** On the stack t the caller calls s somewhere. */
  ghost predicate OnStack(k: Caller, s: Symbol, t: Path<Symbol>) {
    if k.Nobody? then Starts(Frame(Root, s), t) else HasCall(t, k.symbol, s)
  }

  /** The stack t ends in such a call. */
  ghost predicate AtEnd(k: Caller, s: Symbol, t: Path<Symbol>) {
    t.Frame? && t.last == s && KeyOf(t) == k
  }

  /** The bytes of the blocks on whose stack a caller calls the function, each block counted
      once, and of those that were allocated in such a call itself. */
  lemma CallerBytes(log: Log<Symbol>, s: Symbol, result: seq<ProfileFunc>, f: ProfileFunc, blocks: set<Block>,
                    symbols: Symbols, skip: set<string>)
    requires CallerRows(log, s, result) && f in result && SumsUp(log, blocks, symbols, skip)
    ensures f.total == SetBytes(set b | b in blocks && OnStack(RowKey(f), s, StackOf(b, symbols, skip)))
    ensures f.self == SetBytes(set b | b in blocks && AtEnd(RowKey(f), s, StackOf(b, symbols, skip)))
  {
    hide SetBytes, StackOf;
    var k := RowKey(f);
    forall t ensures Holds(EndCallsOf(k, s), t) == AtEnd(k, s, t) {
      EndsWithKey(s, k, t);
    }
    assert Matching(blocks, CallsOf(k, s), symbols, skip) == set b | b in blocks &&
        OnStack(k, s, StackOf(b, symbols, skip));
    assert Matching(blocks, EndCallsOf(k, s), symbols, skip) == set b | b in blocks &&
        AtEnd(k, s, StackOf(b, symbols, skip));
    assert Weight(log, CallsOf(k, s)) == BytesWhere(blocks, CallsOf(k, s), symbols, skip);
    assert Weight(log, EndCallsOf(k, s)) == BytesWhere(blocks, EndCallsOf(k, s), symbols, skip);
  }
}
