/** What can be reached in a graph, from what is reached at once and along its edges. */
module Reachability {
  /** What is reached along at most n edges. */
  ghost function Layer<T>(first: set<T>, edges: set<(T, T)>, n: nat): set<T> {
    if n == 0 then first
    else
      var nearer := Layer(first, edges, n - 1);
      nearer + set e | e in edges && e.0 in nearer :: e.1
  }

  ghost predicate Reached<T>(first: set<T>, edges: set<(T, T)>, x: T) {
    exists n: nat :: x in Layer(first, edges, n)
  }

  lemma FirstReached<T>(first: set<T>, edges: set<(T, T)>, x: T)
    requires x in first
    ensures Reached(first, edges, x)
  {
    assert x in Layer(first, edges, 0);
  }

  lemma EdgeReached<T>(first: set<T>, edges: set<(T, T)>, x: T, y: T)
    requires Reached(first, edges, x) && (x, y) in edges
    ensures Reached(first, edges, y)
  {
    var n: nat :| x in Layer(first, edges, n);
    assert (x, y) in edges && (x, y).0 in Layer(first, edges, n);
    assert y in Layer(first, edges, n + 1);
  }

  /** A set that edges do not leave has all that is reached. */
  lemma ReachedInClosed<T>(first: set<T>, edges: set<(T, T)>, closed: set<T>, x: T)
    requires first <= closed && forall e :: e in edges && e.0 in closed ==> e.1 in closed
    ensures Reached(first, edges, x) ==> x in closed
  {
    if n: nat :| x in Layer(first, edges, n) {
      LayerInClosed(first, edges, closed, n);
    }
  }

  lemma {:induction false} LayerInClosed<T>(first: set<T>, edges: set<(T, T)>, closed: set<T>, n: nat)
    requires first <= closed && forall e :: e in edges && e.0 in closed ==> e.1 in closed
    ensures Layer(first, edges, n) <= closed
  {
    if n > 0 {
      LayerInClosed(first, edges, closed, n - 1);
    }
  }

  /** More edges reach more. */
  lemma MoreReached<T>(first: set<T>, edges: set<(T, T)>, first': set<T>, edges': set<(T, T)>, x: T)
    requires first <= first' && edges <= edges'
    ensures Reached(first, edges, x) ==> Reached(first', edges', x)
  {
    if n: nat :| x in Layer(first, edges, n) {
      LayerGrows(first, edges, first', edges', n);
    }
  }

  lemma {:induction false} LayerGrows<T>(first: set<T>, edges: set<(T, T)>, first': set<T>, edges': set<(T, T)>,
                                         n: nat)
    requires first <= first' && edges <= edges'
    ensures Layer(first, edges, n) <= Layer(first', edges', n)
  {
    if n > 0 {
      LayerGrows(first, edges, first', edges', n - 1);
    }
  }

  /** The same graph with other names: name gives the name of everything in xs. */
  ghost predicate Renamed<S, T>(name: S -> T, xs: set<S>, first: set<S>, edges: set<(S, S)>, first': set<T>,
      edges': set<(T, T)>)
  {
    && first <= xs && (forall e :: e in edges ==> e.0 in xs && e.1 in xs)
    && (forall x :: x in xs ==> (x in first <==> name(x) in first'))
    && (forall x, y :: x in xs && y in xs ==> ((x, y) in edges <==> (name(x), name(y)) in edges'))
    && (forall e :: e in edges' ==> exists x :: x in xs && name(x) == e.0)
  }

  ghost predicate Leads<T>(edges: set<(T, T)>, nearer: set<T>, y: T) {
    exists e :: e in edges && e.0 in nearer && e.1 == y
  }

  lemma LayerStep<T>(first: set<T>, edges: set<(T, T)>, n: nat, y: T)
    ensures y in Layer(first, edges, n + 1) <==>
            y in Layer(first, edges, n) || Leads(edges, Layer(first, edges, n), y)
  {
  }

  lemma RenamedLeads<S, T>(name: S -> T, xs: set<S>, first: set<S>, edges: set<(S, S)>, first': set<T>,
                           edges': set<(T, T)>, nearer: set<S>, nearer': set<T>, y: S)
    requires Renamed(name, xs, first, edges, first', edges') && y in xs
    requires forall x :: x in xs ==> (x in nearer <==> name(x) in nearer')
    ensures Leads(edges, nearer, y) <==> Leads(edges', nearer', name(y))
  {
    if e :| e in edges && e.0 in nearer && e.1 == y {
      assert (name(e.0), name(y)) in edges';
    }
    if e :| e in edges' && e.0 in nearer' && e.1 == name(y) {
      var x :| x in xs && name(x) == e.0;
      assert (x, y) in edges;
    }
  }

  lemma RenamedFirst<S, T>(name: S -> T, xs: set<S>, first: set<S>, edges: set<(S, S)>, first': set<T>,
                           edges': set<(T, T)>)
    requires Renamed(name, xs, first, edges, first', edges')
    ensures forall x :: x in xs ==> (x in Layer(first, edges, 0) <==> name(x) in Layer(first', edges', 0))
  {
  }

  lemma {:induction false} RenamedLayer<S, T>(name: S -> T, xs: set<S>, first: set<S>, edges: set<(S, S)>,
                                              first': set<T>, edges': set<(T, T)>, n: nat)
    requires Renamed(name, xs, first, edges, first', edges')
    ensures forall x :: x in xs ==> (x in Layer(first, edges, n) <==> name(x) in Layer(first', edges', n))
  {
    hide Renamed, Layer, Leads;
    if n == 0 {
      RenamedFirst(name, xs, first, edges, first', edges');
    } else {
      RenamedLayer(name, xs, first, edges, first', edges', n - 1);
      forall y | y in xs ensures y in Layer(first, edges, n) <==> name(y) in Layer(first', edges', n) {
        LayerStep(first, edges, n - 1, y);
        LayerStep(first', edges', n - 1, name(y));
        RenamedLeads(name, xs, first, edges, first', edges', Layer(first, edges, n - 1),
                     Layer(first', edges', n - 1), y);
      }
    }
  }

  lemma RenamedReached<S, T>(name: S -> T, xs: set<S>, first: set<S>, edges: set<(S, S)>, first': set<T>,
                             edges': set<(T, T)>, x: S)
    requires Renamed(name, xs, first, edges, first', edges') && x in xs
    ensures Reached(first, edges, x) <==> Reached(first', edges', name(x))
  {
    if n: nat :| x in Layer(first, edges, n) {
      RenamedLayer(name, xs, first, edges, first', edges', n);
    }
    if n: nat :| name(x) in Layer(first', edges', n) {
      RenamedLayer(name, xs, first, edges, first', edges', n);
    }
  }
}
