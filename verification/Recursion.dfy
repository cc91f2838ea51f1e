/** What is left of a stack once recursion is taken out of it.  The descendant tree of a
    function is built from these paths. */
module Recursion {
  import opened Ledger
  import opened Events

  // ----- Simple paths

  lemma {:induction false} SimplePrefix<T>(p: Path<T>, t: Path<T>)
    requires Simple(t) && Starts(p, t)
    ensures Simple(p)
  {
    if p != t {
      SimplePrefix(p, t.up);
    }
  }

  /** On a simple path the beginning that ends in x is the only one. */
  lemma SimpleUpTo<T>(p: Path<T>, t: Path<T>)
    requires Simple(t) && Starts(p, t) && p.Frame?
    ensures Has(t, p.last) && UpTo(t, p.last) == p
  {
    SimplePrefix(p, t);
    ToplevelIsUpTo(p, t);
  }

  lemma UpToIsPrefix<T>(t: Path<T>, x: T)
    requires Has(t, x)
    ensures Starts(UpTo(t, x), t) && UpTo(t, x).Frame? && UpTo(t, x).last == x
  {
    UpToIsToplevel(t, x);
  }

  // ----- Collapsing

  lemma {:induction false} CollapseIsSimple<T>(t: Path<T>)
    ensures Simple(Collapse(t))
    ensures Collapse(t).Frame? == t.Frame?
    ensures t.Frame? ==> Collapse(t).last == t.last
  {
    if t.Frame? {
      CollapseIsSimple(t.up);
      var cur := Collapse(t.up);
      if Has(cur, t.last) {
        UpToIsPrefix(cur, t.last);
        SimplePrefix(UpTo(cur, t.last), cur);
      }
    }
  }

  /** Collapsing changes exactly the stacks with recursion on them. */
  lemma {:induction false} CollapseKeepsSimple<T>(t: Path<T>)
    ensures Collapse(t) == t <==> Simple(t)
  {
    CollapseIsSimple(t);
    if Simple(t) && t.Frame? {
      CollapseKeepsSimple(t.up);
    }
  }

  /** The walk has been at p exactly if some beginning of the stack leads there. */
  lemma {:induction false} VisitedIff<T>(t: Path<T>, p: Path<T>)
    ensures p in Visited(t) <==> exists q: Path<T> :: q.Frame? && Starts(q, t) && Collapse(q) == p
  {
    if t.Frame? {
      VisitedIff(t.up, p);
      assert Starts(t, t);
      if q: Path<T> :| q.Frame? && Starts(q, t.up) && Collapse(q) == p {
        assert Starts(q, t);
      }
    }
  }

  /** Wherever the walk is, it has been at every place further up. */
  lemma {:induction false} VisitedUpwards<T>(t: Path<T>, p: Path<T>, q: Path<T>)
    requires p == Collapse(t) || p in Visited(t)
    requires Starts(q, p) && q.Frame?
    ensures q in Visited(t)
  {
    if t.Frame? {
      if p != Collapse(t) || Starts(q, Collapse(t.up)) {
        VisitedUpwards(t.up, if p != Collapse(t) then p else Collapse(t.up), q);
      } else if Has(Collapse(t.up), t.last) {
        UpToIsPrefix(Collapse(t.up), t.last);
        StartsIsTransitive(q, p, Collapse(t.up));
      }
    }
  }

  lemma {:induction false} VisitedIsSimple<T>(t: Path<T>, p: Path<T>)
    requires p in Visited(t)
    ensures p.Frame? && Simple(p)
  {
    CollapseIsSimple(t);
    if p != Collapse(t) {
      VisitedIsSimple(t.up, p);
    }
  }

  /** The walk never leaves its first frame. */
  lemma {:induction false} FirstFrame<T>(t: Path<T>, p: Path<T>, x: T)
    requires Starts(Frame(Root, x), t) && p in Visited(t)
    ensures Starts(Frame(Root, x), p)
  {
    if t.up.Frame? {
      if p != Collapse(t) {
        FirstFrame(t.up, p, x);
      } else {
        CollapseIsSimple(t.up);
        FirstFrame(t.up, Collapse(t.up), x);
        if Has(Collapse(t.up), t.last) {
          UpToIsPrefix(Collapse(t.up), t.last);
          StartsCompare(Frame(Root, x), p, Collapse(t.up));
        }
      }
    } else {
      assert t == Frame(Root, x) && Collapse(t.up) == Root;
    }
  }

  lemma {:induction false} VisitsFirstFrame<T>(t: Path<T>, x: T)
    requires Starts(Frame(Root, x), t)
    ensures Frame(Root, x) in Visited(t) && Starts(Frame(Root, x), Collapse(t))
  {
    CollapseIsSimple(t);
    assert Collapse(t) in Visited(t);
    FirstFrame(t, Collapse(t), x);
    VisitedUpwards(t, Collapse(t), Frame(Root, x));
  }

  /** A function is on the stack exactly if the walk has been at a place that ends in it. */
  lemma {:induction false} HasIsVisited<T>(t: Path<T>, x: T)
    ensures Has(t, x) <==> exists p :: p in Visited(t) && p.Frame? && p.last == x
  {
    if t.Frame? {
      HasIsVisited(t.up, x);
      CollapseIsSimple(t);
      assert Collapse(t) in Visited(t);
    }
  }

  /** Every step down in the tree is a call that the stack makes. */
  lemma {:induction false} StepsAreCalls<T>(t: Path<T>, p: Path<T>, caller: T, callee: T)
    requires p in Visited(t) && IsCall(p, caller, callee)
    ensures HasCall(t, caller, callee)
  {
    if p in Visited(t.up) {
      StepsAreCalls(t.up, p, caller, callee);
    } else {
      var cur := Collapse(t.up);
      CollapseIsSimple(t.up);
      if Has(cur, t.last) {
        UpToIsPrefix(cur, t.last);
        VisitedUpwards(t.up, cur, p);
        assert false;
      }
    }
  }

  // ----- A second definition: cut from the outside in

  /** The frames of a list after its last x, outermost frame first. */
  ghost function AfterLast<T>(x: T, list: List<T>): (r: List<T>)
    ensures r == list || r < list
  {
    match list
    case Nil => Nil
    case Cons(y, tail) => if x in Elements(tail) || y == x then AfterLast(x, tail) else list
  }

  /** Keeps the outermost frame, cuts everything up to its last occurrence, and goes on. */
  ghost function EraseLoops<T>(p: Path<T>, list: List<T>): Path<T>
    decreases list
  {
    if list.Nil? then p else EraseLoops(Frame(p, list.head), AfterLast(list.head, list.tail))
  }

  ghost function Onto<T>(p: Path<T>, list: List<T>): Path<T>
    decreases list
  {
    if list.Nil? then p else Onto(Frame(p, list.head), list.tail)
  }

  /** While the walk stays below c, it is back at c after the last x = c.last. */
  lemma {:induction false} BackAt<T>(t: Path<T>, list: List<T>, c: Path<T>) returns (r: Path<T>)
    requires c.Frame? && Starts(c, Collapse(t)) && (c.last in Elements(list) || Collapse(t) == c)
    requires forall y :: y in Elements(list) ==> !Has(c.up, y)
    ensures Onto(t, list) == Onto(r, AfterLast(c.last, list)) && Collapse(r) == c
    decreases list
  {
    var x := c.last;
    if x !in Elements(list) {
      r := t;
    } else {
      StaysBelow(t, list.head, c);
      r := BackAt(Frame(t, list.head), list.tail, c);
    }
  }

  lemma StaysBelow<T>(t: Path<T>, y: T, c: Path<T>)
    requires c.Frame? && Starts(c, Collapse(t)) && !Has(c.up, y)
    ensures Starts(c, Collapse(Frame(t, y)))
    ensures y == c.last ==> Collapse(Frame(t, y)) == c
  {
    var cur := Collapse(t);
    CollapseIsSimple(t);
    if y == c.last {
      SimpleUpTo(c, cur);
    } else if Has(cur, y) {
      UpToIsPrefix(cur, y);
      StartsCompare(c, UpTo(cur, y), cur);
      if Starts(UpTo(cur, y), c) {
        StartsHas(UpTo(cur, y), c.up, y);
      }
    }
  }

  lemma AfterLastElements<T>(x: T, list: List<T>)
    ensures Elements(AfterLast(x, list)) <= Elements(list) && x !in Elements(AfterLast(x, list))
  {
  }

  /** Taking recursion out frame by frame, from the outermost frame in, is the same as
      cutting from each frame to its last occurrence. */
  lemma {:induction false} CollapseErasesLoops<T>(t: Path<T>, list: List<T>)
    requires forall y :: y in Elements(list) ==> !Has(Collapse(t), y)
    ensures Collapse(Onto(t, list)) == EraseLoops(Collapse(t), list)
    decreases list
  {
    if list.Cons? {
      var c := Frame(Collapse(t), list.head);
      var r := BackAt(Frame(t, list.head), list.tail, c);
      AfterLastElements(list.head, list.tail);
      CollapseErasesLoops(r, AfterLast(list.head, list.tail));
    }
  }

  lemma CollapseIsLoopErasure<T>(list: List<T>)
    ensures Collapse(Onto(Root, list)) == EraseLoops(Root, list)
  {
    CollapseErasesLoops(Root, list);
  }
}
