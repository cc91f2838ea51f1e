/** What the stash promises to its users: traces come back as they were added, and the
    chains and sibling lists account for every trace exactly once. */
module StashTheorems {
  import opened Ledger
  import opened StackStash

  // ----- Round trips

  lemma {:induction false} FromListInjective(a: seq<Addr>, i: nat, b: seq<Addr>, j: nat)
    requires i <= |a| && j <= |b| && FromList(a, i) == FromList(b, j)
    ensures a[i..] == b[j..]
    decreases |a| - i
  {
    if i < |a| {
      FromListInjective(a, i + 1, b, j + 1);
      assert a[i..] == [a[i]] + a[i + 1..];
      assert b[j..] == [b[j]] + b[j + 1..];
    }
  }

  /** Climbing from the node that a trace got gives the trace back, innermost frame first. */
  lemma {:induction false} ClimbRebuilds(n: StackNode?, addrs: seq<Addr>, i: nat)
    requires i <= |addrs| && PathOf(n) == FromList(addrs, i)
    requires n != null ==> Linked(n)
    ensures Climb(n) == addrs[i..]
    decreases |addrs| - i
  {
    if n != null {
      ClimbRebuilds(n.parent, addrs, i + 1);
    }
  }

  /** Two traces have the same node exactly when they are equal. */
  lemma SameNodeIffSameTrace(stash: StackStash, a: seq<Addr>, b: seq<Addr>)
    requires stash.Valid()
    requires FromList(a, 0) in stash.at && FromList(b, 0) in stash.at
    ensures stash.at[FromList(a, 0)] == stash.at[FromList(b, 0)] <==> a == b
  {
    if stash.at[FromList(a, 0)] == stash.at[FromList(b, 0)] {
      FromListInjective(a, 0, b, 0);
    }
  }

  // ----- Sibling lists

  ghost predicate LevelLinked(n: StackNode)
    decreases Level(n)
  {
    && n.level == Level(n.siblings) && n !in n.level
    && (n.siblings != null ==> LevelLinked(n.siblings))
  }

  /** The sum of the totals along a sibling list. */
  ghost function LevelSum(n: StackNode?): int
    requires n != null ==> LevelLinked(n)
    reads Level(n)
    decreases Level(n)
  {
    if n == null then 0 else n.inclusive + LevelSum(n.siblings)
  }

  lemma {:induction false} LevelIsLinked(stash: StackStash, n: StackNode)
    requires stash.Shape() && n in stash.nodes
    ensures LevelLinked(n)
    decreases Level(n)
  {
    assert LevelAt(stash.nodes, stash.heads, n);
    if n.siblings != null {
      LevelIsLinked(stash, n.siblings);
    }
  }

  ghost function PathsOf(ns: set<StackNode>): set<Path<Addr>> {
    set n | n in ns :: n.path
  }

  lemma {:induction false} LevelSumIsWeight(stash: StackStash, n: StackNode?)
    requires stash.Valid()
    requires n != null ==> n in stash.nodes && LevelLinked(n)
    ensures LevelSum(n) == Weight(stash.log, Below(PathsOf(Level(n))))
    decreases Level(n)
  {
    if n == null {
      WeightNone(stash.log, Below(PathsOf(Level(n))));
    } else {
      assert LevelAt(stash.nodes, stash.heads, n);
      LevelSumIsWeight(stash, n.siblings);
      assert PathsOf(Level(n)) == PathsOf(Level(n.siblings)) + {n.path};
      forall q | q in PathsOf(Level(n.siblings))
        ensures !Starts(q, n.path) && !Starts(n.path, q)
      {
        var m :| m in Level(n.siblings) && m.path == q;
        SiblingsDisjoint(stash, n, m);
      }
      BelowExtend(stash.log, PathsOf(Level(n.siblings)), n.path);
      assert Share(stash.log, n.path, Root, 0) == Weight(stash.log, Begins(n.path));
    }
  }

  lemma SiblingsDisjoint(stash: StackStash, n: StackNode, m: StackNode)
    requires stash.Shape() && n in stash.nodes && m in stash.nodes && m != n && m.parent == n.parent
    ensures !Starts(m.path, n.path) && !Starts(n.path, m.path)
  {
    assert n.path.up == PathOf(n.parent) == PathOf(m.parent) == m.path.up;
    if Starts(m.path, n.path) {
      StartsLength(m.path, n.path);
    }
    if Starts(n.path, m.path) {
      StartsLength(n.path, m.path);
    }
  }

  /** A node's total is its own size and the totals of its children; the outermost nodes
      account for all traces. */
  lemma TotalsAddUp(stash: StackStash, parent: StackNode?)
    requires stash.Valid()
    requires parent != null ==> parent in stash.nodes
    ensures stash.Head(parent) != null ==> LevelLinked(stash.Head(parent))
    ensures parent != null ==> parent.inclusive == parent.exclusive + LevelSum(parent.children)
    ensures parent == null ==> Weight(stash.log, Everything) == Weight(stash.log, Is(Root)) + LevelSum(stash.root)
  {
    var head := stash.Head(parent);
    assert head == stash.heads[parent];
    if head != null {
      LevelIsLinked(stash, head);
    }
    LevelSumIsWeight(stash, head);
    var p, kids := PathOf(parent), PathsOf(Level(head));
    forall t | t in Traces(stash.log)
      ensures Holds(Begins(p), t) == (Holds(Is(p), t) || Holds(Below(kids), t))
      ensures !(Holds(Is(p), t) && Holds(Below(kids), t))
    {
      ChildCovers(stash, parent, t);
    }
    WeightSplit(stash.log, Begins(p), Is(p), Below(kids));
    if parent == null {
      forall t: Path<Addr> ensures Starts(Root, t) {
        RootStarts(t);
      }
      WeightAgree(stash.log, Begins(Root), Everything);
    } else {
      assert Share(stash.log, p, Root, 0) == Weight(stash.log, Begins(p));
    }
  }

  /** A trace that begins with a node's path ends there or passes through one child. */
  lemma ChildCovers(stash: StackStash, parent: StackNode?, t: Path<Addr>)
    requires stash.Valid()
    requires parent != null ==> parent in stash.nodes
    requires t in Traces(stash.log)
    ensures var kids := PathsOf(Level(stash.Head(parent)));
            && Starts(PathOf(parent), t) == (t == PathOf(parent) || Holds(Below(kids), t))
            && !(t == PathOf(parent) && Holds(Below(kids), t))
  {
    var p, head := PathOf(parent), stash.Head(parent);
    assert head == stash.heads[parent];
    if Starts(p, t) && p != t {
      var q := StepTowards(p, t);
      assert stash.Reaches(t);
      var n := stash.at[q];
      ParentOf(stash, n, parent);
      assert LevelAt(stash.nodes, stash.heads, n);
      assert n in Level(head);
      assert q in PathsOf(Level(head));
    }
    if Holds(Below(PathsOf(Level(head))), t) {
      var n :| n in Level(head) && Starts(n.path, t);
      assert LevelAt(stash.nodes, stash.heads, head);
      assert n in stash.nodes && n.parent == parent;
      assert n.path.up == p;
      assert Starts(p, n.path);
      StartsIsTransitive(p, n.path, t);
      StartsLength(n.path, t);
    }
  }

  lemma ParentOf(stash: StackStash, n: StackNode, parent: StackNode?)
    requires stash.Shape() && n in stash.nodes
    requires parent != null ==> parent in stash.nodes
    requires n.path.up == PathOf(parent)
    ensures n.parent == parent
  {
    assert n.path == Frame(PathOf(n.parent), n.address);
  }

  /** What two nodes of one sibling list are told apart by. */
  lemma SiblingsDiffer(stash: StackStash, n: StackNode, m: StackNode)
    requires stash.Shape() && n in stash.nodes && m in stash.nodes && m != n && m.parent == n.parent
    ensures m.address != n.address
  {
    assert n.path == Frame(PathOf(n.parent), n.address);
    assert m.path == Frame(PathOf(m.parent), m.address);
  }

  // ----- The bit fields

  /** The sum of the total fields along a sibling list. */
  ghost function FieldSum(n: StackNode?): int
    requires n != null ==> LevelLinked(n)
    reads Level(n)
    decreases Level(n)
  {
    if n == null then 0 else n.total + FieldSum(n.siblings)
  }

  lemma WrapMixed(x: int, y: int)
    ensures Wrap31(Wrap32(x) + y) == Wrap31(x + y)
    ensures Wrap31(Wrap31(x) + y) == Wrap31(x + y)
  {
    WrapShift(x + y, 0, x / 0x1_0000_0000 * 2);
    WrapOnce(x, y);
  }

  lemma {:induction false} FieldSumWraps(stash: StackStash, n: StackNode?)
    requires stash.Valid()
    requires n != null ==> n in stash.nodes && LevelLinked(n)
    ensures Wrap31(FieldSum(n)) == Wrap31(LevelSum(n))
    decreases Level(n)
  {
    hide Wrap31, Wrap32;
    if n != null {
      assert LevelAt(stash.nodes, stash.heads, n);
      FieldSumWraps(stash, n.siblings);
      WrapMixed(n.inclusive, FieldSum(n.siblings));
      WrapMixed(FieldSum(n.siblings), n.inclusive);
      WrapMixed(LevelSum(n.siblings), n.inclusive);
    }
  }

  /** The fields of a node and of its children agree as far as the 31 bits of size can tell,
      also after an overflow. */
  lemma FieldsAddUp(stash: StackStash, n: StackNode)
    requires stash.Valid() && n in stash.nodes
    ensures n.children != null ==> LevelLinked(n.children)
    ensures Wrap31(n.total) == Wrap31(n.size + FieldSum(n.children))
  {
    hide Wrap31, Wrap32, LevelLinked, LevelSum, FieldSum;
    TotalsAddUp(stash, n);
    assert n.children == stash.heads[n];
    FieldSumWraps(stash, n.children);
    WrapMixed(n.inclusive, 0);
    WrapMixed(n.exclusive, FieldSum(n.children));
    WrapMixed(FieldSum(n.children), n.exclusive);
    WrapMixed(LevelSum(n.children), n.exclusive);
  }

  // ----- Address chains

  ghost predicate ChainLinked(n: StackNode)
    decreases Chain(n)
  {
    && n.chain == Chain(n.next) && n !in n.chain
    && (n.next != null ==> ChainLinked(n.next))
  }

  lemma {:induction false} ChainIsLinked(stash: StackStash, n: StackNode)
    requires stash.Shape() && n in stash.nodes
    ensures ChainLinked(n)
    decreases Chain(n)
  {
    assert IndexAt(stash.nodes, stash.nodes_by_data, n);
    if n.next != null {
      ChainIsLinked(stash, n.next);
    }
  }

  /** The sum of the totals of the toplevel nodes along an address chain. */
  ghost function ToplevelSum(n: StackNode?): int
    requires n != null ==> ChainLinked(n)
    reads Chain(n)
    decreases Chain(n)
  {
    if n == null then 0 else (if n.toplevel then n.inclusive else 0) + ToplevelSum(n.next)
  }

  ghost function ToplevelPaths(ns: set<StackNode>): set<Path<Addr>> {
    set n | n in ns && n.toplevel :: n.path
  }

  lemma {:induction false} ToplevelSumIsWeight(stash: StackStash, n: StackNode?)
    requires stash.Valid()
    requires n != null ==> n in stash.nodes && ChainLinked(n)
    ensures ToplevelSum(n) == Weight(stash.log, Below(ToplevelPaths(Chain(n))))
    decreases Chain(n)
  {
    if n == null {
      WeightNone(stash.log, Below(ToplevelPaths(Chain(n))));
    } else {
      assert IndexAt(stash.nodes, stash.nodes_by_data, n);
      ToplevelSumIsWeight(stash, n.next);
      var rest := ToplevelPaths(Chain(n.next));
      if n.toplevel {
        assert ToplevelPaths(Chain(n)) == rest + {n.path};
        forall q | q in rest
          ensures !Starts(q, n.path) && !Starts(n.path, q)
        {
          var m :| m in Chain(n.next) && m.toplevel && m.path == q;
          SameAddressDisjoint(stash, n, m);
        }
        BelowExtend(stash.log, rest, n.path);
        assert Share(stash.log, n.path, Root, 0) == Weight(stash.log, Begins(n.path));
      } else {
        assert ToplevelPaths(Chain(n)) == rest;
      }
    }
  }

  lemma SameAddressDisjoint(stash: StackStash, n: StackNode, m: StackNode)
    requires stash.Shape() && n in stash.nodes && m in stash.nodes && m != n
    requires n.toplevel && m.toplevel && m.address == n.address
    ensures !Starts(m.path, n.path) && !Starts(n.path, m.path)
  {
    assert IndexAt(stash.nodes, stash.nodes_by_data, n) && IndexAt(stash.nodes, stash.nodes_by_data, m);
    assert Linked(n) && Linked(m);
    ToplevelsDisjoint(n.path, m.path);
  }

  /** stack_stash_find_node: the toplevel nodes in the chain of an address count every trace
      that passes through the address once, however often it does. */
  lemma AddressTotal(stash: StackStash, a: Addr)
    requires stash.Valid()
    ensures a in stash.nodes_by_data ==>
              && ChainLinked(stash.nodes_by_data[a])
              && ToplevelSum(stash.nodes_by_data[a]) == Weight(stash.log, Mentions(a))
    ensures a !in stash.nodes_by_data ==> Weight(stash.log, Mentions(a)) == 0
  {
    forall t | t in Traces(stash.log) && Has(t, a)
      ensures a in stash.nodes_by_data && UpTo(t, a) in ToplevelPaths(Chain(stash.nodes_by_data[a]))
    {
      UpToIsToplevel(t, a);
      assert stash.Reaches(t);
      var n := stash.at[UpTo(t, a)];
      assert Linked(n);
      assert IndexAt(stash.nodes, stash.nodes_by_data, n);
    }
    if a in stash.nodes_by_data {
      var n := stash.nodes_by_data[a];
      ChainIsLinked(stash, n);
      ToplevelSumIsWeight(stash, n);
      assert IndexAt(stash.nodes, stash.nodes_by_data, n);
      forall p: Path<Addr> | p in ToplevelPaths(Chain(n)) ensures Toplevel(p) && p.last == a {
        var m :| m in Chain(n) && m.toplevel && m.path == p;
        assert m in stash.nodes && m.address == a;
        assert IndexAt(stash.nodes, stash.nodes_by_data, m) && Linked(m);
      }
      ToplevelCover(stash.log, ToplevelPaths(Chain(n)), a);
    } else {
      WeightNone(stash.log, Mentions(a));
    }
  }
}
