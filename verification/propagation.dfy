/**
 * Where symbols have no namespaces, what the update protocol marks is what the scheduler takes a run
 * to mark.
 */
module Propagation {
  import S = Scheduler
  import Session
  import P = UpdateProtocol

  type Parents = map<S.Sym, set<S.Sym>>

  function Lift(names: set<S.Sym>): set<P.Sym> { set x | x in names :: P.Sym(x) }

  /** The graph of the update has the edges of `parents`, from the other end, and no namespaces. */
  ghost predicate Mirrors(u: P.Update, parents: Parents) {
    && P.WellFormed(u.g) && u.g.namespaces == map[]
    && (forall z <- parents :: P.Sym(z) in u.g.syms)
    && (forall x, z :: P.Sym(x) in u.g.syms ==>
          (P.Sym(z) in u.g.syms[P.Sym(x)].children <==> z in Session.Dependents(parents, x)))
  }

  lemma {:induction false} ChildrenAreDependents(u: P.Update, parents: Parents, x: S.Sym, c: P.Sym)
    requires Mirrors(u, parents) && P.Sym(x) in u.g.syms
    ensures c in P.NonClassToInstanceChildren(u, P.Sym(x)) <==> c.name in Session.Dependents(parents, x)
  {
    assert c == P.Sym(c.name);
  }

  lemma {:induction false} MarkedHolds(u: P.Update, parents: Parents, written: set<S.Sym>, deps: set<S.Sym>)
    requires Mirrors(u, parents) && Lift(written) <= u.g.syms.Keys
    ensures P.HoldsDependents(u, Lift(written + deps), Lift(S.Marked(parents, written, deps)), Lift(written))
  {
    hide S.Marked, P.NonClassToInstanceChildren, P.WellFormed;
    var avoid, z := Lift(written + deps), Lift(S.Marked(parents, written, deps));
    forall x: P.Sym, c | x in z + Lift(written) && x in u.g.syms && c in P.NonClassToInstanceChildren(u, x)
      ensures c in z || c in avoid
    {
      ChildrenAreDependents(u, parents, x.name, c);
      if c.name !in written && c.name !in deps {
        Session.DependentIsMarked(parents, written, deps, x.name, c.name);
      }
      assert c == P.Sym(c.name);
    }
  }

  lemma {:induction false} PathIsHeld(u: P.Update, parents: Parents, written: set<S.Sym>, deps: set<S.Sym>,
                                      z: set<P.Sym>, p: seq<S.Sym>)
    requires Mirrors(u, parents) && Lift(written) <= u.g.syms.Keys
    requires P.HoldsDependents(u, Lift(written + deps), z, Lift(written))
    requires S.DependencyPath(parents, written, deps, p)
    ensures P.Sym(p[|p| - 1]) in z
    decreases |p|
  {
    var x, c := p[|p| - 2], p[|p| - 1];
    if |p| > 2 {
      assert S.DependencyPath(parents, written, deps, p[..|p| - 1]);
      PathIsHeld(u, parents, written, deps, z, p[..|p| - 1]);
    }
    assert P.Sym(x) in Lift(written) || P.Sym(x) in z;
    KnownOnPath(u, parents, written, deps, p);
    ChildrenAreDependents(u, parents, x, P.Sym(c));
    assert c in Session.Dependents(parents, x);
    assert P.DependentsIn(u, Lift(written + deps), z, P.Sym(x));
  }

  lemma {:induction false} KnownOnPath(u: P.Update, parents: Parents, written: set<S.Sym>, deps: set<S.Sym>,
                                       p: seq<S.Sym>)
    requires Mirrors(u, parents) && Lift(written) <= u.g.syms.Keys && S.DependencyPath(parents, written, deps, p)
    ensures P.Sym(p[|p| - 2]) in u.g.syms && P.Sym(p[|p| - 1]) in u.g.syms
  {
    if |p| == 2 { assert P.Sym(p[0]) in Lift(written); }
  }

  /** The scheduler's marked symbols are the protocol's descendants of what was written. */
  lemma {:induction false} MarkedAreDescendants(u: P.Update, parents: Parents, written: set<S.Sym>, deps: set<S.Sym>,
                                                x: S.Sym)
    requires Mirrors(u, parents) && Lift(written) <= u.g.syms.Keys
    ensures x in S.Marked(parents, written, deps)
            <==> P.Sym(x) in P.Descendants(u, Lift(written + deps), Lift(written))
  {
    if x in S.Marked(parents, written, deps) {
      var p :| S.DependencyPath(parents, written, deps, p) && p[|p| - 1] == x;
      forall z: set<P.Sym> | P.HoldsDependents(u, Lift(written + deps), z, Lift(written)) ensures P.Sym(x) in z {
        PathIsHeld(u, parents, written, deps, z, p);
      }
    }
    if P.Sym(x) in P.Descendants(u, Lift(written + deps), Lift(written)) {
      MarkedHolds(u, parents, written, deps);
    }
  }

  /** So after an update through the protocol the symbols that newly wait are those the scheduler marks. */
  lemma {:induction false} ProtocolMarks(u: P.Update, parents: Parents, s0: P.State, s1: P.State, written: set<S.Sym>,
                                         deps: set<S.Sym>, x: S.Sym)
    requires Mirrors(u, parents) && Lift(written) <= u.g.syms.Keys && P.Sym(x) in u.g.syms
    requires P.Outcome(u, s0, s1, Lift(written), Lift(deps)) && (forall o :: P.WaitingIn(s0, o) == {})
             && u.now != P.UNINITIALIZED
    ensures P.Required(s1, P.Sym(x)) == u.now
            <==> (x in S.Marked(parents, written, deps) && P.ShouldMark(u, P.Sym(x)))
                 || (x !in written && P.Required(s0, P.Sym(x)) == u.now)
  {
    hide S.Marked, P.Descendants, P.Outcome;
    MarkedAreDescendants(u, parents, written, deps, x);
    P.MarksExactly(u, s0, s1, Lift(written), Lift(deps), P.Sym(x));
    assert Lift(written) + Lift(deps) == Lift(written + deps);
    assert P.Sym(x) in Lift(written) <==> x in written;
  }

  /**
   * An ordinary update, with all warnings on and nothing else updated in the cell: waiting afterwards
   * are exactly the symbols with a dependency path from what was written, besides those that waited.
   */
  lemma {:induction false} OrdinaryMarks(u: P.Update, parents: Parents, s0: P.State, s1: P.State,
                                         written: set<S.Sym>, deps: set<S.Sym>, x: S.Sym)
    requires Mirrors(u, parents) && Lift(written) <= u.g.syms.Keys && P.Sym(x) in u.g.syms
    requires u.updated == Lift(written) && u.sym in Lift(written)
    requires forall s <- u.g.syms :: !u.g.syms[s].disableWarnings
    requires P.Outcome(u, s0, s1, Lift(written), Lift(deps))
    requires (forall o :: P.WaitingIn(s0, o) == {}) && u.now != P.UNINITIALIZED
    ensures P.Required(s1, P.Sym(x)) == u.now
            <==> x in S.Marked(parents, written, deps) || (x !in written && P.Required(s0, P.Sym(x)) == u.now)
  {
    hide S.Marked, P.Outcome, P.WellFormed;
    ProtocolMarks(u, parents, s0, s1, written, deps, x);
    S.MarkedNotWritten(parents, written, deps);
    assert P.Sym(x) in Lift(written) <==> x in written;
  }
}
