/** The reference side of every counter in this project.

    A trace is a path of frames.  A ledger is the list of traces that were added, each with
    its size.  The weight of a ledger under a query is the sum of the sizes of the traces
    that satisfy the query.  Call trees, stashes and caller lists are specified by saying
    which query each of their counters must equal; no tree is mentioned here. */
module Ledger {

  /** A stack of frames; last is the innermost one. */
  datatype Path<T> = Root | Frame(up: Path<T>, last: T)

  datatype Log<T> = Empty | Add(rest: Log<T>, path: Path<T>, size: int)

  /** Some element of a set that has one. */
  ghost function AnyOf<T>(s: set<T>): (x: T)
    requires s != {}
    ensures x in s
  {
    var x :| x in s;
    x
  }

  // ----- Paths

  ghost function Length<T>(t: Path<T>): nat {
    if t.Root? then 0 else Length(t.up) + 1
  }

  /** t begins with the frames of p. */
  ghost predicate Starts<T>(p: Path<T>, t: Path<T>) {
    p == t || (t.Frame? && Starts(p, t.up))
  }

  predicate Has<T(==)>(t: Path<T>, x: T) {
    t.Frame? && (t.last == x || Has(t.up, x))
  }

  /** The frames of q inside those of p. */
  ghost function Join<T>(p: Path<T>, q: Path<T>): Path<T> {
    if q.Root? then p else Frame(Join(p, q.up), q.last)
  }

  /** The last frame of t is callee, called by caller. */
  ghost predicate IsCall<T>(t: Path<T>, caller: T, callee: T) {
    t.Frame? && t.last == callee && t.up.Frame? && t.up.last == caller
  }

  /** Somewhere on t, callee is called by caller. */
  ghost predicate HasCall<T>(t: Path<T>, caller: T, callee: T) {
    t.Frame? && (IsCall(t, caller, callee) || HasCall(t.up, caller, callee))
  }

  /** The shortest beginning of t that ends in the call. */
  ghost function UpToCall<T>(t: Path<T>, caller: T, callee: T): Path<T>
    requires HasCall(t, caller, callee)
  {
    if HasCall(t.up, caller, callee) then UpToCall(t.up, caller, callee) else t
  }

  /** The last frame does not occur further out: the outermost call of a function. */
  ghost predicate Toplevel<T>(p: Path<T>) {
    p.Frame? && !Has(p.up, p.last)
  }

  /** The shortest beginning of t that ends in x. */
  ghost function UpTo<T>(t: Path<T>, x: T): Path<T>
    requires Has(t, x)
  {
    if Has(t.up, x) then UpTo(t.up, x) else t
  }

  /** The frames of a list from index i on, where the list has the innermost frame first. */
  ghost function FromList<T>(frames: seq<T>, i: nat): Path<T>
    requires i <= |frames|
    decreases |frames| - i
  {
    if i == |frames| then Root else Frame(FromList(frames, i + 1), frames[i])
  }

  lemma {:induction false} StartsIsTransitive<T>(p: Path<T>, q: Path<T>, t: Path<T>)
    requires Starts(p, q) && Starts(q, t)
    ensures Starts(p, t)
  {
    if q != t {
      StartsIsTransitive(p, q, t.up);
    }
  }

  lemma {:induction false} StartsLength<T>(p: Path<T>, t: Path<T>)
    requires Starts(p, t)
    ensures Length(p) <= Length(t)
    ensures Length(p) == Length(t) ==> p == t
  {
    if p != t {
      StartsLength(p, t.up);
    }
  }

  /** Two beginnings of one path are comparable. */
  lemma {:induction false} StartsCompare<T>(p: Path<T>, q: Path<T>, t: Path<T>)
    requires Starts(p, t) && Starts(q, t)
    ensures Starts(p, q) || Starts(q, p)
  {
    if p != t && q != t {
      StartsCompare(p, q, t.up);
    }
  }

  lemma {:induction false} RootStarts<T>(t: Path<T>)
    ensures Starts(Root, t)
  {
    if t.Frame? {
      RootStarts(t.up);
    }
  }

  /** The beginning of t that is one frame longer than p. */
  lemma {:induction false} StepTowards<T>(p: Path<T>, t: Path<T>) returns (q: Path<T>)
    requires Starts(p, t) && p != t
    ensures q.Frame? && q.up == p && Starts(q, t)
  {
    if t.up == p {
      q := t;
    } else {
      q := StepTowards(p, t.up);
    }
  }

  lemma {:induction false} StartsHas<T>(p: Path<T>, t: Path<T>, x: T)
    requires Starts(p, t) && Has(p, x)
    ensures Has(t, x)
  {
    if p != t {
      StartsHas(p, t.up, x);
    }
  }

  lemma {:induction false} UpToIsToplevel<T>(t: Path<T>, x: T)
    requires Has(t, x)
    ensures Starts(UpTo(t, x), t) && Toplevel(UpTo(t, x)) && UpTo(t, x).last == x
  {
    if Has(t.up, x) {
      UpToIsToplevel(t.up, x);
    }
  }

  lemma {:induction false} ToplevelIsUpTo<T>(p: Path<T>, t: Path<T>)
    requires Toplevel(p) && Starts(p, t)
    ensures Has(t, p.last) && UpTo(t, p.last) == p
  {
    if p != t {
      ToplevelIsUpTo(p, t.up);
    }
  }

  lemma {:induction false} UpToCallIsFirst<T>(t: Path<T>, caller: T, callee: T)
    requires HasCall(t, caller, callee)
    ensures var q := UpToCall(t, caller, callee);
            Starts(q, t) && IsCall(q, caller, callee) && !HasCall(q.up, caller, callee)
  {
    if HasCall(t.up, caller, callee) {
      UpToCallIsFirst(t.up, caller, callee);
    }
  }

  lemma {:induction false} FirstCallIsUpTo<T>(q: Path<T>, t: Path<T>, caller: T, callee: T)
    requires IsCall(q, caller, callee) && !HasCall(q.up, caller, callee) && Starts(q, t)
    ensures HasCall(t, caller, callee) && UpToCall(t, caller, callee) == q
  {
    if q != t {
      FirstCallIsUpTo(q, t.up, caller, callee);
    }
  }

  /** Different toplevel paths with the same last frame never begin the same trace. */
  lemma ToplevelsDisjoint<T>(p: Path<T>, q: Path<T>)
    requires Toplevel(p) && Toplevel(q) && p.last == q.last && p != q
    ensures !Starts(p, q) && !Starts(q, p)
  {
    if Starts(p, q) {
      ToplevelIsUpTo(p, q);
    }
    if Starts(q, p) {
      ToplevelIsUpTo(q, p);
    }
  }

  // ----- Recursion taken out of a path

  /** No frame occurs twice. */
  ghost predicate Simple<T>(p: Path<T>) {
    p.Frame? ==> !Has(p.up, p.last) && Simple(p.up)
  }

  /** Walks along t from its outermost frame, going back whenever it meets a frame it is
      already inside of: the trace without its loops. */
  ghost function Collapse<T>(t: Path<T>): Path<T> {
    if t.Root? then Root
    else if Has(Collapse(t.up), t.last) then UpTo(Collapse(t.up), t.last)
    else Frame(Collapse(t.up), t.last)
  }

  /** The places where that walk has been. */
  ghost function Visited<T>(t: Path<T>): set<Path<T>> {
    if t.Root? then {} else Visited(t.up) + {Collapse(t)}
  }

  // ----- Queries

  /** What may be asked of the walk along a trace: whether it passes p, ends in one of ps,
      or ends at or below p. */
  datatype Walk<T(==)> = Visits(p: Path<T>) | StopsAmong(ps: set<Path<T>>) | StopsBelow(p: Path<T>)

  ghost predicate HoldsOnWalk<T>(w: Walk<T>, t: Path<T>) {
    match w
    case Visits(p) => p in Visited(t)
    case StopsAmong(ps) => Collapse(t) in ps
    case StopsBelow(p) => Starts(p, Collapse(t))
  }

  /** What may be asked of a trace. */
  datatype Query<T(==)> =
    | Everything
    | Is(p: Path<T>)
    | Begins(p: Path<T>)
    | Mentions(x: T)
    | EndsIn(x: T)
    | EndsInSome(xs: set<T>)
    | Calls(caller: T, callee: T)
    | EndsInCall(caller: T, callee: T)
    | Among(ps: set<Path<T>>)
    | Below(ps: set<Path<T>>)
    | Along(w: Walk<T>)

  ghost predicate Holds<T>(q: Query<T>, t: Path<T>) {
    match q
    case Everything => true
    case Is(p) => t == p
    case Begins(p) => Starts(p, t)
    case Mentions(x) => Has(t, x)
    case EndsIn(x) => t.Frame? && t.last == x
    case EndsInSome(xs) => t.Frame? && t.last in xs
    case Calls(caller, callee) => HasCall(t, caller, callee)
    case EndsInCall(caller, callee) => IsCall(t, caller, callee)
    case Among(ps) => t in ps
    case Below(ps) => exists p :: p in ps && Starts(p, t)
    case Along(w) => HoldsOnWalk(w, t)
  }

  // ----- Weights

  /** Sum of the sizes of the traces that satisfy q. */
  ghost function Weight<T>(log: Log<T>, q: Query<T>): int {
    match log
    case Empty => 0
    case Add(rest, path, size) => Weight(rest, q) + if Holds(q, path) then size else 0
  }

  ghost function Traces<T>(log: Log<T>): set<Path<T>> {
    match log
    case Empty => {}
    case Add(rest, path, _) => Traces(rest) + {path}
  }

  ghost predicate NonNegative<T>(log: Log<T>) {
    log.Add? ==> log.size >= 0 && NonNegative(log.rest)
  }

  // ----- Laws of Weight

  lemma {:induction false} WeightAgree<T>(log: Log<T>, q: Query<T>, r: Query<T>)
    requires forall t :: t in Traces(log) ==> Holds(q, t) == Holds(r, t)
    ensures Weight(log, q) == Weight(log, r)
  {
    if log.Add? {
      WeightAgree(log.rest, q, r);
    }
  }

  lemma {:induction false} WeightNone<T>(log: Log<T>, q: Query<T>)
    requires forall t :: t in Traces(log) ==> !Holds(q, t)
    ensures Weight(log, q) == 0
  {
    if log.Add? {
      WeightNone(log.rest, q);
    }
  }

  /** A query that is the disjoint union of two others weighs as much as both together. */
  lemma {:induction false} WeightSplit<T>(log: Log<T>, q: Query<T>, a: Query<T>, b: Query<T>)
    requires forall t :: t in Traces(log) ==>
              Holds(q, t) == (Holds(a, t) || Holds(b, t)) && !(Holds(a, t) && Holds(b, t))
    ensures Weight(log, q) == Weight(log, a) + Weight(log, b)
  {
    if log.Add? {
      WeightSplit(log.rest, q, a, b);
    }
  }

  lemma {:induction false} WeightMonotone<T>(log: Log<T>, a: Query<T>, b: Query<T>)
    requires NonNegative(log)
    requires forall t :: t in Traces(log) ==> Holds(a, t) ==> Holds(b, t)
    ensures 0 <= Weight(log, a) <= Weight(log, b)
  {
    if log.Add? {
      WeightMonotone(log.rest, a, b);
    }
  }

  lemma {:induction false} WeightWitness<T>(log: Log<T>, q: Query<T>) returns (t: Path<T>)
    requires Weight(log, q) != 0
    ensures t in Traces(log) && Holds(q, t)
  {
    if Holds(q, log.path) {
      t := log.path;
    } else {
      t := WeightWitness(log.rest, q);
    }
  }

  /** No trace begins with paths from both sides, so the weights add up. */
  lemma BelowExtend<T>(log: Log<T>, ps: set<Path<T>>, p: Path<T>)
    requires forall q :: q in ps ==> !Starts(q, p) && !Starts(p, q)
    ensures Weight(log, Below(ps + {p})) == Weight(log, Below(ps)) + Weight(log, Begins(p))
  {
    forall t | t in Traces(log)
      ensures Holds(Below(ps + {p}), t) == (Holds(Below(ps), t) || Holds(Begins(p), t))
      ensures !(Holds(Below(ps), t) && Holds(Begins(p), t))
    {
      if Starts(p, t) {
        assert p in ps + {p};
        forall q | q in ps ensures !Starts(q, t) {
          if Starts(q, t) {
            StartsCompare(p, q, t);
          }
        }
      } else if Holds(Below(ps), t) {
        var q :| q in ps && Starts(q, t);
        assert q in ps + {p};
      }
    }
    WeightSplit(log, Below(ps + {p}), Below(ps), Begins(p));
  }

  lemma AmongExtend<T>(log: Log<T>, ps: set<Path<T>>, p: Path<T>)
    requires p !in ps
    ensures Weight(log, Among(ps + {p})) == Weight(log, Among(ps)) + Weight(log, Is(p))
  {
    WeightSplit(log, Among(ps + {p}), Among(ps), Is(p));
  }

  lemma {:induction false} WeightlessSet<T>(log: Log<T>, ps: set<Path<T>>)
    requires forall t :: t in ps ==> Weight(log, Is(t)) == 0
    ensures Weight(log, Among(ps)) == 0
    decreases |ps|
  {
    if ps == {} {
      WeightNone(log, Among(ps));
    } else {
      var t := AnyOf(ps);
      WeightlessSet(log, ps - {t});
      AmongExtend(log, ps - {t}, t);
      assert ps - {t} + {t} == ps;
    }
  }

  /** Counting below all toplevel paths that end in x counts each trace with x on it once,
      however often x occurs there. */
  lemma ToplevelCover<T>(log: Log<T>, ps: set<Path<T>>, x: T)
    requires forall p :: p in ps ==> Toplevel(p) && p.last == x
    requires forall t :: t in Traces(log) && Has(t, x) ==> UpTo(t, x) in ps
    ensures Weight(log, Below(ps)) == Weight(log, Mentions(x))
  {
    forall t | t in Traces(log)
      ensures Holds(Below(ps), t) == Holds(Mentions(x), t)
    {
      if Has(t, x) {
        UpToIsToplevel(t, x);
      }
      if p :| p in ps && Starts(p, t) {
        ToplevelIsUpTo(p, t);
      }
    }
    WeightAgree(log, Below(ps), Mentions(x));
  }

  /** Counting the traces that are one of ps counts each trace that ends in x once. */
  lemma EndCover<T>(log: Log<T>, ps: set<Path<T>>, x: T)
    requires forall p :: p in ps ==> p.Frame? && p.last == x
    requires forall t :: t in Traces(log) && t.Frame? && t.last == x ==> t in ps
    ensures Weight(log, Among(ps)) == Weight(log, EndsIn(x))
  {
    WeightAgree(log, Among(ps), EndsIn(x));
  }

  // ----- Weights while a trace is being added

  /** The weight of a node once the part done of a further trace has been counted. */
  ghost function Share<T>(log: Log<T>, path: Path<T>, done: Path<T>, size: int): int {
    Weight(log, Begins(path)) + if Starts(path, done) then size else 0
  }

  /** Going one frame further along a trace changes the share of the node there only. */
  lemma ShareStep<T>(log: Log<T>, longer: Path<T>, size: int)
    requires longer.Frame?
    ensures Share(log, longer, longer, size) == Share(log, longer, longer.up, size) + size
    ensures forall p :: p != longer ==> Share(log, p, longer, size) == Share(log, p, longer.up, size)
  {
    if Starts(longer, longer.up) {
      StartsLength(longer, longer.up);
    }
  }
}
