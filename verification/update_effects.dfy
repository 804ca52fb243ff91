/**
 * What an update does, told by the symbols and namespaces themselves: chains of dependents get a new
 * required time, and nothing else does.
 */
module UpdateEffects {
  import opened Wrappers
  import opened UpdateProtocol

  /** `t` depends on `s`, and is no instance made from `s`, unless `s` is the updated symbol. */
  ghost predicate Dependent(u: Update, s: Sym, t: Sym) {
    && s in u.g.syms && t in u.g.syms && t in u.g.syms[s].children
    && (s != u.sym && u.g.syms[t].obj in u.g.namespaces
        ==> u.g.namespaces[u.g.syms[t].obj].clonedFrom != Some(u.g.syms[s].obj))
  }

  /** `a` is a name of the namespace around `s`, which is no module. */
  ghost predicate NameAround(u: Update, s: Sym, a: Sym) {
    && s in u.g.syms && u.g.syms[s].containing.Some?
    && (var o := u.g.syms[s].containing.value;
        o in u.g.namespaces && !u.g.namespaces[o].isModule && o in u.g.aliases && a in u.g.aliases[o])
  }

  ghost predicate MemberOf(u: Update, s: Sym, t: Sym) {
    s in u.g.syms && u.g.syms[s].obj in u.g.namespaces && t in u.g.namespaces[u.g.syms[s].obj].nonClassMembers
  }

  /** Staleness goes to dependents, into the symbol's own namespace, and to the names of the namespace
      around it and their dependents. */
  ghost predicate Goes(u: Update, s: Sym, t: Sym) {
    || Dependent(u, s, t) || MemberOf(u, s, t) || NameAround(u, s, t)
    || exists a :: NameAround(u, s, a) && Dependent(u, a, t)
  }

  /** A chain of dependents that starts in `roots` and then stays out of `avoid`. */
  ghost predicate DependentChain(u: Update, roots: set<Sym>, avoid: set<Sym>, p: seq<Sym>) {
    && |p| >= 2 && p[0] in roots
    && (forall i :: 0 < i < |p| ==> Dependent(u, p[i - 1], p[i]) && p[i] !in avoid)
  }

  ghost predicate StalenessChain(u: Update, roots: set<Sym>, avoid: set<Sym>, p: seq<Sym>) {
    && |p| >= 2 && p[0] in roots
    && (forall i :: 0 < i < |p| ==> Goes(u, p[i - 1], p[i]) && p[i] !in avoid)
  }

  ghost predicate OnDependentChain(u: Update, roots: set<Sym>, avoid: set<Sym>, s: Sym) {
    exists p :: DependentChain(u, roots, avoid, p) && p[|p| - 1] == s
  }

  ghost predicate OnStalenessChain(u: Update, roots: set<Sym>, avoid: set<Sym>, s: Sym) {
    exists p :: StalenessChain(u, roots, avoid, p) && p[|p| - 1] == s
  }

  lemma {:induction false} ChildIsDependent(u: Update, s: Sym, t: Sym)
    requires WellFormed(u.g) && s in u.g.syms
    ensures t in NonClassToInstanceChildren(u, s) <==> Dependent(u, s, t)
  {
  }

  lemma {:induction false} AroundIsName(u: Update, s: Sym, a: Sym)
    requires WellFormed(u.g) && s in u.g.syms
    ensures a in Around(u, s) <==> NameAround(u, s, a)
    ensures a in Around(u, s) ==> a in u.g.syms
  {
  }

  lemma {:induction false} NextIsGoes(u: Update, s: Sym, t: Sym)
    requires WellFormed(u.g) && s in u.g.syms
    ensures Next(u, s, t) <==> Goes(u, s, t)
  {
    hide Dependent, NameAround, NonClassToInstanceChildren, Around, WellFormed;
    ChildIsDependent(u, s, t);
    AroundIsName(u, s, t);
    forall a ensures a in Around(u, s) <==> NameAround(u, s, a)
      ensures a in Around(u, s) ==> a in u.g.syms && (t in NonClassToInstanceChildren(u, a) <==> Dependent(u, a, t))
    {
      AroundIsName(u, s, a);
      if a in Around(u, s) { ChildIsDependent(u, a, t); }
    }
  }

  //////////////////// Descendants and reached symbols, as chains ////////////////////

  lemma {:induction false} GoOnDependent(u: Update, roots: set<Sym>, avoid: set<Sym>, s: Sym, t: Sym)
    requires s in roots || OnDependentChain(u, roots, avoid, s)
    requires Dependent(u, s, t) && t !in avoid
    ensures OnDependentChain(u, roots, avoid, t)
  {
    hide Dependent;
    if s in roots {
      assert DependentChain(u, roots, avoid, [s, t]) && [s, t][1] == t;
    } else {
      var p :| DependentChain(u, roots, avoid, p) && p[|p| - 1] == s;
      assert DependentChain(u, roots, avoid, p + [t]) && (p + [t])[|p|] == t;
    }
  }

  lemma {:induction false} ChainIsHeld(u: Update, roots: set<Sym>, avoid: set<Sym>, z: set<Sym>, p: seq<Sym>)
    requires WellFormed(u.g) && roots <= u.g.syms.Keys && HoldsDependents(u, avoid, z, roots)
    requires DependentChain(u, roots, avoid, p)
    ensures p[|p| - 1] in z
    decreases |p|
  {
    var s, t := p[|p| - 2], p[|p| - 1];
    assert Dependent(u, s, t);
    if |p| > 2 { ChainIsHeld(u, roots, avoid, z, p[..|p| - 1]); }
    assert DependentsIn(u, avoid, z, s);
    ChildIsDependent(u, s, t);
  }

  /** The descendants of the updated symbols are the ends of chains of dependents. */
  lemma {:induction false} DescendantsByChain(u: Update, roots: set<Sym>, avoid: set<Sym>, s: Sym)
    requires WellFormed(u.g) && roots <= u.g.syms.Keys
    ensures s in Descendants(u, avoid, roots) <==> OnDependentChain(u, roots, avoid, s)
  {
    var ends := set x | x in u.g.syms && OnDependentChain(u, roots, avoid, x);
    forall x: Sym, c | x in ends + roots && x in u.g.syms && c in NonClassToInstanceChildren(u, x)
      ensures c in ends || c in avoid
    {
      ChildIsDependent(u, x, c);
      if c !in avoid { GoOnDependent(u, roots, avoid, x, c); }
    }
    assert HoldsDependents(u, avoid, ends, roots);
    if p :| DependentChain(u, roots, avoid, p) && p[|p| - 1] == s {
      assert Dependent(u, p[|p| - 2], s);
      forall z: set<Sym> | HoldsDependents(u, avoid, z, roots) ensures s in z { ChainIsHeld(u, roots, avoid, z, p); }
    }
  }

  lemma {:induction false} GoOnStale(u: Update, roots: set<Sym>, avoid: set<Sym>, s: Sym, t: Sym)
    requires s in roots || OnStalenessChain(u, roots, avoid, s)
    requires Goes(u, s, t) && t !in avoid
    ensures OnStalenessChain(u, roots, avoid, t)
  {
    hide Goes;
    if s in roots {
      assert StalenessChain(u, roots, avoid, [s, t]) && [s, t][1] == t;
    } else {
      var p :| StalenessChain(u, roots, avoid, p) && p[|p| - 1] == s;
      assert StalenessChain(u, roots, avoid, p + [t]) && (p + [t])[|p|] == t;
    }
  }

  /** Whatever is reached lies on a chain along which staleness goes. */
  lemma {:induction false} ReachedByChain(u: Update, roots: set<Sym>, avoid: set<Sym>, s: Sym)
    requires WellFormed(u.g) && roots <= u.g.syms.Keys && s in Reached(u, avoid, roots)
    ensures OnStalenessChain(u, roots, avoid, s)
  {
    hide Goes, Next, OnStalenessChain, WellFormed;
    var ends := set x | x in u.g.syms && OnStalenessChain(u, roots, avoid, x);
    forall x: Sym, t | x in ends + roots && x in u.g.syms && Next(u, x, t) ensures t in ends || t in avoid {
      NextIsGoes(u, x, t);
      NextIsKnown(u, x, t);
      if t !in avoid { GoOnStale(u, roots, avoid, x, t); }
    }
    assert ClosedZone(u, avoid, ends) && forall r <- roots :: LeadsInto(u, avoid, ends, r);
  }

  //////////////////// What an update marks ////////////////////

  /** Every dependent with warnings on that this cell did not update is made to wait. */
  lemma {:induction false} DependentsWait(u: Update, s0: State, s1: State, updated: set<Sym>, deps: set<Sym>,
                                          p: seq<Sym>)
    requires WellFormed(u.g) && updated <= u.g.syms.Keys && Outcome(u, s0, s1, updated, deps)
    requires DependentChain(u, updated, updated + deps, p)
    ensures var s := p[|p| - 1];
            s in u.g.syms && (!u.g.syms[s].disableWarnings && s !in u.updated && s != u.sym ==>
                                Required(s1, s) == u.now || WaitingIn(s1, u.g.syms[s].obj) != {})
  {
    hide Reached, Descendants, StalenessGoesOn, HeldByNamespaces, UpdatedCleared, DepsUntouched, NothingElse;
    var s := p[|p| - 1];
    assert OnDependentChain(u, updated, updated + deps, s);
    DescendantsByChain(u, updated, updated + deps, s);
    assert s in u.g.syms by { assert Dependent(u, p[|p| - 2], s); }
    assert NothingMissed(u, s1, updated, updated + deps);
  }

  /** A new required time is the present one, and goes to symbols with warnings on that this cell did
      not update and that staleness can go to; updated symbols lose theirs. */
  lemma {:induction false} OnlyDependentsMarked(u: Update, s0: State, s1: State, updated: set<Sym>, deps: set<Sym>,
                                                s: Sym)
    requires WellFormed(u.g) && updated <= u.g.syms.Keys && Outcome(u, s0, s1, updated, deps)
    ensures s in updated ==> Required(s1, s) == UNINITIALIZED
    ensures s !in updated && Required(s1, s) != Required(s0, s) ==>
              && s in u.g.syms && !u.g.syms[s].disableWarnings && s !in u.updated && s != u.sym
              && Required(s1, s) == u.now && OnStalenessChain(u, updated, updated + deps, s)
  {
    hide Reached, Descendants, StalenessGoesOn, HeldByNamespaces, DepsUntouched, NothingMissed, OnStalenessChain;
    if s !in updated && Required(s1, s) != Required(s0, s) {
      assert NothingElse(u, s0, s1, updated, updated + deps);
      ReachedByChain(u, updated, updated + deps, s);
    }
  }

  /** On any graph, a symbol with warnings off, or updated earlier in the cell, gets no new required time. */
  lemma {:induction false} NeverMarked(u: Update, s0: State, s1: State, updated: set<Sym>, deps: set<Sym>, s: Sym)
    requires WellFormed(u.g) && updated <= u.g.syms.Keys && Outcome(u, s0, s1, updated, deps)
    requires (s in u.g.syms && u.g.syms[s].disableWarnings) || s in u.updated || s == u.sym
    ensures Required(s1, s) == if s in updated then UNINITIALIZED else Required(s0, s)
  {
    hide Outcome, OnStalenessChain;
    OnlyDependentsMarked(u, s0, s1, updated, deps, s);
  }

  /** A namespace newly holds a symbol as waiting only if it is the one around it, and no module. */
  lemma {:induction false} HeldWhereTheyAre(u: Update, s0: State, s1: State, updated: set<Sym>, deps: set<Sym>,
                                            s: Sym, o: Obj)
    requires WellFormed(u.g) && updated <= u.g.syms.Keys && Outcome(u, s0, s1, updated, deps)
    requires s in WaitingIn(s1, o) && s !in WaitingIn(s0, o)
    ensures s in u.g.syms && u.g.syms[s].containing == Some(o) && !u.g.namespaces[o].isModule
    ensures OnStalenessChain(u, updated, updated + deps, s)
  {
    hide Reached, Descendants, StalenessGoesOn, HeldByNamespaces, DepsUntouched, NothingMissed, OnStalenessChain,
      UpdatedCleared;
    assert NothingElse(u, s0, s1, updated, updated + deps);
    ReachedByChain(u, updated, updated + deps, s);
  }

  /** An updated symbol is no longer waiting in the namespace around it, but stays wherever else it was;
      and so does every other symbol. */
  lemma {:induction false} LetGo(u: Update, s0: State, s1: State, updated: set<Sym>, deps: set<Sym>, s: Sym, o: Obj)
    requires WellFormed(u.g) && updated <= u.g.syms.Keys && Outcome(u, s0, s1, updated, deps)
    ensures s in updated ==>
              (s in WaitingIn(s1, o) <==>
               s in WaitingIn(s0, o) && (u.g.syms[s].isModule || u.g.syms[s].containing != Some(o)))
    ensures s !in updated && s in WaitingIn(s0, o) ==> s in WaitingIn(s1, o)
  {
    hide Reached, Descendants, StalenessGoesOn, HeldByNamespaces, DepsUntouched, NothingMissed, NothingElse;
  }

  //////////////////// Which symbols an update updates ////////////////////

  /** Updating `s` updates `t`: a name of the namespace around it, or, downward, a member of its own. */
  ghost predicate AlsoUpdates(g: Graph, down: bool, s: Sym, t: Sym) {
    && s in g.syms && t in g.syms && !g.syms[t].isImport
    && (|| (!g.syms[s].isModule && g.syms[s].containing.Some?
            && g.syms[s].containing.value in g.aliases && t in g.aliases[g.syms[s].containing.value])
        || (down && g.syms[s].obj in g.namespaces && t in g.namespaces[g.syms[s].obj].members))
  }

  ghost predicate UpdateChain(g: Graph, down: bool, p: seq<Sym>) {
    && |p| >= 1 && p[0] in g.syms && !g.syms[p[0]].isImport
    && (forall i :: 0 < i < |p| ==> AlsoUpdates(g, down, p[i - 1], p[i]))
  }

  ghost predicate UpdatedFrom(g: Graph, down: bool, direct: set<Sym>, s: Sym) {
    exists p :: UpdateChain(g, down, p) && p[0] in direct && p[|p| - 1] == s
  }

  lemma {:induction false} AlsoIsUpdatedWith(g: Graph, down: bool, s: Sym, t: Sym)
    requires WellFormed(g) && s in g.syms
    ensures t in NonImports(g, UpdatedWith(g, down, s)) <==> AlsoUpdates(g, down, s, t)
  {
  }

  lemma {:induction false} UpdateGoesOn(g: Graph, down: bool, direct: set<Sym>, s: Sym, t: Sym)
    requires UpdatedFrom(g, down, direct, s) && AlsoUpdates(g, down, s, t)
    ensures UpdatedFrom(g, down, direct, t)
  {
    hide AlsoUpdates;
    var p :| UpdateChain(g, down, p) && p[0] in direct && p[|p| - 1] == s;
    assert UpdateChain(g, down, p + [t]) && (p + [t])[|p|] == t;
  }

  lemma {:induction false} UpdateChainCollected(g: Graph, down: bool, direct: set<Sym>, z: set<Sym>, p: seq<Sym>)
    requires WellFormed(g) && direct <= g.syms.Keys && ClosedUpdate(g, down, z) && NonImports(g, direct) <= z
    requires UpdateChain(g, down, p) && p[0] in direct
    ensures p[|p| - 1] in z
    decreases |p|
  {
    if |p| > 1 {
      var s, t := p[|p| - 2], p[|p| - 1];
      UpdateChainCollected(g, down, direct, z, p[..|p| - 1]);
      assert AlsoUpdates(g, down, s, t);
      AlsoIsUpdatedWith(g, down, s, t);
    }
  }

  /** The updated symbols are the ends of chains of such steps that start at a directly updated one. */
  lemma {:induction false} UpdatedByChain(g: Graph, down: bool, direct: set<Sym>, s: Sym)
    requires WellFormed(g) && direct <= g.syms.Keys
    ensures s in Updated(g, down, direct) <==> UpdatedFrom(g, down, direct, s)
  {
    var ends := set x | x in g.syms && UpdatedFrom(g, down, direct, x);
    forall x, t | x in ends && t in NonImports(g, UpdatedWith(g, down, x)) ensures t in ends {
      AlsoIsUpdatedWith(g, down, x, t);
      UpdateGoesOn(g, down, direct, x, t);
    }
    forall x | x in NonImports(g, direct) ensures x in ends {
      assert UpdateChain(g, down, [x]);
    }
    assert ClosedUpdate(g, down, ends) && NonImports(g, direct) <= ends;
    if p :| UpdateChain(g, down, p) && p[0] in direct && p[|p| - 1] == s {
      EndIsKnown(g, down, p);
      forall z: set<Sym> | ClosedUpdate(g, down, z) && NonImports(g, direct) <= z ensures s in z {
        UpdateChainCollected(g, down, direct, z, p);
      }
    }
  }

  lemma {:induction false} EndIsKnown(g: Graph, down: bool, p: seq<Sym>)
    requires UpdateChain(g, down, p)
    ensures p[|p| - 1] in g.syms
  {
    if |p| > 1 { assert AlsoUpdates(g, down, p[|p| - 2], p[|p| - 1]); }
  }

  /** What a call updates directly: the symbol, or all names of its object if that was mutated. */
  lemma {:induction false} CallUpdates(g: Graph, sym: Sym, mutated: bool, duped: set<Sym>, down: bool, s: Sym)
    requires WellFormed(g) && sym in g.syms && duped <= g.syms.Keys
    ensures s in Updated(g, down, Direct(g, sym, mutated, duped)) <==>
            exists p :: UpdateChain(g, down, p) && p[|p| - 1] == s
                        && (p[0] in duped || if mutated then p[0] in g.syms && g.syms[sym].obj in g.aliases
                                                             && p[0] in g.aliases[g.syms[sym].obj]
                                             else p[0] == sym)
  {
    hide Updated, UpdateChain;
    UpdatedByChain(g, down, Direct(g, sym, mutated, duped), s);
  }
}
