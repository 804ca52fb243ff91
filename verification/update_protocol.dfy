/**
 * What an update makes stale. An updated symbol first updates the symbols of the namespaces around
 * it (and, on request, inside it); then everything that depends on any of these is marked as
 * waiting, through dependency edges and through namespaces, except through the right-hand side.
 */
module UpdateProtocol {
  import opened Wrappers

  datatype Sym = Sym(name: string)
  datatype Obj = Obj(id: string)   // an object id; a namespace goes by the id of its object

  datatype Namespace = Namespace(isModule: bool, members: set<Sym>, nonClassMembers: set<Sym>, clonedFrom: Option<Obj>)

  datatype Attributes = Attributes(obj: Obj, containing: Option<Obj>, children: set<Sym>,
                                   isModule: bool, isImport: bool, disableWarnings: bool)

  datatype Graph = Graph(syms: map<Sym, Attributes>, namespaces: map<Obj, Namespace>, aliases: map<Obj, set<Sym>>)

  ghost predicate WellFormed(g: Graph) {
    && (forall s <- g.syms :: g.syms[s].children <= g.syms.Keys)
    && (forall s <- g.syms :: g.syms[s].containing.Some? ==> g.syms[s].containing.value in g.namespaces)
    && (forall o <- g.namespaces :: g.namespaces[o].nonClassMembers <= g.namespaces[o].members <= g.syms.Keys)
    && (forall o <- g.aliases, s <- g.aliases[o] :: s in g.syms && g.syms[s].obj == o)
  }

  function Aliases(g: Graph, o: Obj): set<Sym> { if o in g.aliases then g.aliases[o] else {} }

  const UNINITIALIZED := -1

  /** The time required of each symbol, and the waiting symbols and time of each namespace. */
  datatype State = State(seen: set<Sym>, required: map<Sym, int>, nsWaiting: map<Obj, set<Sym>>)

  function Required(st: State, s: Sym): int { if s in st.required then st.required[s] else UNINITIALIZED }

  function WaitingIn(st: State, o: Obj): set<Sym> { if o in st.nsWaiting then st.nsWaiting[o] else {} }

  //////////////////// Collecting the updated symbols ////////////////////

  /** The symbols updated along with `s`: those around it, and those inside it if `down`. */
  function UpdatedWith(g: Graph, down: bool, s: Sym): set<Sym>
    requires WellFormed(g) && s in g.syms
  {
    var a := g.syms[s];
    (if a.isModule || a.containing.None? then {} else Aliases(g, a.containing.value))
    + (if down && a.obj in g.namespaces then g.namespaces[a.obj].members else {})
  }

  function NonImports(g: Graph, ss: set<Sym>): set<Sym>
    requires ss <= g.syms.Keys
  {
    set s | s in ss && !g.syms[s].isImport
  }

  ghost predicate ClosedUpdate(g: Graph, down: bool, t: set<Sym>)
    requires WellFormed(g)
  {
    forall s <- t :: s in g.syms && NonImports(g, UpdatedWith(g, down, s)) <= t
  }

  /** The least set with the directly updated symbols and all symbols updated with them; no imports. */
  ghost function Updated(g: Graph, down: bool, direct: set<Sym>): set<Sym>
    requires WellFormed(g) && direct <= g.syms.Keys
  {
    set s | s in g.syms && forall t: set<Sym> :: ClosedUpdate(g, down, t) && NonImports(g, direct) <= t ==> s in t
  }

  /**
   * From `s0` to `s1` the symbols in `direct` but not in `rest` were collected, and all of them and
   * what is updated with them was seen, save what is updated with those in `open`. Only newly seen
   * symbols lost their required time, and left the waiting set of their namespace.
   */
  ghost predicate Collected(g: Graph, down: bool, zone: set<Sym>, s0: State, s1: State,
                            direct: set<Sym>, rest: set<Sym>, open: set<Sym>)
    requires WellFormed(g)
  {
    && s0.seen <= s1.seen <= g.syms.Keys
    && (forall s :: s in direct && s !in rest && s in g.syms && !g.syms[s].isImport ==> s in s1.seen)
    && (forall s :: s in s1.seen && s !in s0.seen ==>
          s in zone && !g.syms[s].isImport && (s in open || NonImports(g, UpdatedWith(g, down, s)) <= s1.seen))
    && (forall s :: Required(s1, s) == if s in s1.seen && s !in s0.seen then UNINITIALIZED else Required(s0, s))
    && (forall s, o :: s in WaitingIn(s1, o) <==>
          s in WaitingIn(s0, o) && !(s in s1.seen && s !in s0.seen && InNamespace(g, s, o)))
  }

  ghost predicate InNamespace(g: Graph, s: Sym, o: Obj) {
    s in g.syms && !g.syms[s].isModule && g.syms[s].containing == Some(o)
  }

  lemma {:induction false} CollectedThen(g: Graph, down: bool, zone: set<Sym>, s0: State, s1: State, s2: State,
                                         direct: set<Sym>, rest: set<Sym>, open: set<Sym>, more: set<Sym>)
    requires WellFormed(g) && Collected(g, down, zone, s0, s1, direct, rest, open)
    requires Collected(g, down, zone, s1, s2, more, {}, {})
    ensures Collected(g, down, zone, s0, s2, direct, rest, open)
    ensures more <= g.syms.Keys ==> NonImports(g, more) <= s2.seen
  {
  }

  lemma {:induction false} CollectOne(g: Graph, down: bool, zone: set<Sym>, s0: State, s1: State, s2: State,
                                      direct: set<Sym>, rest: set<Sym>, s: Sym)
    requires WellFormed(g) && s in direct && s in rest && s in zone && s in g.syms && !g.syms[s].isImport
    requires Collected(g, down, zone, s0, s1, direct, rest, {}) && s !in s1.seen
    requires s2.seen == s1.seen + {s} && s2.required == s1.required[s := UNINITIALIZED]
    requires forall o, x :: x in WaitingIn(s2, o) <==> x in WaitingIn(s1, o) && !(x == s && InNamespace(g, s, o))
    ensures Collected(g, down, zone, s0, s2, direct, rest - {s}, {s})
  {
  }

  lemma {:induction false} CollectClose(g: Graph, down: bool, zone: set<Sym>, s0: State, s1: State,
                                        direct: set<Sym>, rest: set<Sym>, s: Sym)
    requires WellFormed(g) && Collected(g, down, zone, s0, s1, direct, rest, {s})
    requires s in g.syms && NonImports(g, UpdatedWith(g, down, s)) <= s1.seen
    ensures Collected(g, down, zone, s0, s1, direct, rest, {})
  {
  }

  //////////////////// Propagating ////////////////////

  datatype Update = Update(g: Graph, sym: Sym, updated: set<Sym>, now: int)

  /** The children of `s`, but not, unless `s` is the updated symbol, those that are its instances. */
  function NonClassToInstanceChildren(u: Update, s: Sym): set<Sym>
    requires WellFormed(u.g) && s in u.g.syms
  {
    if s == u.sym then u.g.syms[s].children
    else set c | c in u.g.syms[s].children && !IsInstanceOf(u.g, c, s)
  }

  predicate IsInstanceOf(g: Graph, c: Sym, s: Sym)
    requires c in g.syms && s in g.syms
  {
    g.syms[c].obj in g.namespaces && g.namespaces[g.syms[c].obj].clonedFrom == Some(g.syms[s].obj)
  }

  /** The names of the namespace that holds `s`, unless it is a module. */
  function Around(u: Update, s: Sym): set<Sym>
    requires WellFormed(u.g) && s in u.g.syms
  {
    var ns := u.g.syms[s].containing;
    if ns.None? || u.g.namespaces[ns.value].isModule then {} else Aliases(u.g, ns.value)
  }

  function Inside(u: Update, s: Sym): set<Sym>
    requires WellFormed(u.g) && s in u.g.syms
  {
    var o := u.g.syms[s].obj;
    if o in u.g.namespaces then u.g.namespaces[o].nonClassMembers else {}
  }

  /** Where staleness of `s` can go. */
  ghost predicate Next(u: Update, s: Sym, t: Sym)
    requires WellFormed(u.g) && s in u.g.syms
  {
    || t in NonClassToInstanceChildren(u, s) || t in Around(u, s) || t in Inside(u, s)
    || exists a <- Around(u, s) :: a in u.g.syms && t in NonClassToInstanceChildren(u, a)
  }

  predicate ShouldMark(u: Update, s: Sym)
    requires s in u.g.syms
  {
    s !in u.updated && !u.g.syms[s].disableWarnings && s != u.sym
  }

  /** `is_waiting` of a symbol not yet refreshed since `u.now`. */
  ghost predicate IsWaiting(u: Update, st: State, s: Sym)
    requires s in u.g.syms
  {
    Required(st, s) == u.now || WaitingIn(st, u.g.syms[s].obj) != {}
  }

  /** Staleness that starts in `zone`, or goes on from it, and avoids `avoid` stays in `zone`. */
  ghost predicate ClosedZone(u: Update, avoid: set<Sym>, zone: set<Sym>)
    requires WellFormed(u.g)
  {
    forall s, t :: s in zone && s in u.g.syms && Next(u, s, t) ==> t in zone || t in avoid
  }

  ghost predicate LeadsInto(u: Update, avoid: set<Sym>, zone: set<Sym>, s: Sym)
    requires WellFormed(u.g) && s in u.g.syms
  {
    forall t :: Next(u, s, t) ==> t in zone || t in avoid
  }

  /** Staleness of `s` has gone up to the namespace around it: its names were seen, and then their
      dependents, and it holds `s` as waiting. */
  ghost predicate WentUp(u: Update, st: State, s: Sym)
    requires WellFormed(u.g) && s in u.g.syms
  {
    && Around(u, s) <= st.seen
    && (forall a <- Around(u, s) :: a in u.g.syms && NonClassToInstanceChildren(u, a) <= st.seen)
    && (var ns := u.g.syms[s].containing;
        ns.Some? && !u.g.namespaces[ns.value].isModule ==> s in WaitingIn(st, ns.value))
  }

  /** ... and down into its own namespace. */
  ghost predicate WentAround(u: Update, st: State, s: Sym)
    requires WellFormed(u.g) && s in u.g.syms
  {
    WentUp(u, st, s) && Inside(u, s) <= st.seen
  }

  lemma {:induction false} WentUpStays(u: Update, st: State, st': State, s: Sym)
    requires WellFormed(u.g) && s in u.g.syms && WentUp(u, st, s) && st.seen <= st'.seen
    requires forall o :: WaitingIn(st, o) <= WaitingIn(st', o)
    ensures WentUp(u, st', s)
  {
  }

  /**
   * From `s0` to `s1` propagation saw more symbols, all in `zone`. Nothing else was touched, besides
   * `touched`; every newly seen symbol that should be marked is waiting; and the children of every
   * newly seen symbol were seen, save those of symbols in `open`; and staleness of every newly marked
   * symbol went around its namespaces, again besides `touched`.
   */
  ghost predicate Grown(u: Update, zone: set<Sym>, s0: State, s1: State, open: set<Sym>, touched: set<Sym>)
    requires WellFormed(u.g)
  {
    && s0.seen <= s1.seen <= u.g.syms.Keys
    && (forall s :: s in s1.seen && s !in s0.seen ==>
          s in zone && (ShouldMark(u, s) ==> IsWaiting(u, s1, s))
          && (s in open || NonClassToInstanceChildren(u, s) <= s1.seen)
          && (s in touched || Required(s1, s) == Required(s0, s) || WentAround(u, s1, s)))
    && (forall s :: Required(s1, s) == Required(s0, s)
                    || (s in s1.seen && s !in s0.seen && ShouldMark(u, s) && Required(s1, s) == u.now))
    && (forall s, o :: s in WaitingIn(s0, o) ==> s in WaitingIn(s1, o))
    && (forall s, o :: s in WaitingIn(s1, o) && s !in WaitingIn(s0, o) ==>
          (s in touched || (s in s1.seen && s !in s0.seen)) && HeldIn(u.g, s, o))
  }

  /** `o` is the namespace around `s`, and no module. */
  ghost predicate HeldIn(g: Graph, s: Sym, o: Obj) {
    s in g.syms && g.syms[s].containing == Some(o) && o in g.namespaces && !g.namespaces[o].isModule
  }

  lemma {:induction false} GrownThen(u: Update, zone: set<Sym>, s0: State, s1: State, s2: State,
                                     open: set<Sym>, touched: set<Sym>, more: set<Sym>, also: set<Sym>)
    requires WellFormed(u.g) && Grown(u, zone, s0, s1, open, touched) && Grown(u, zone, s1, s2, more, also)
    ensures Grown(u, zone, s0, s2, open + more, touched + also)
  {
  }

  lemma {:induction false} GrownSeq(u: Update, zone: set<Sym>, s0: State, s1: State, s2: State)
    requires WellFormed(u.g) && Grown(u, zone, s0, s1, {}, {}) && Grown(u, zone, s1, s2, {}, {})
    ensures Grown(u, zone, s0, s2, {}, {}) && s0.seen <= s1.seen <= s2.seen
  {
    GrownThen(u, zone, s0, s1, s2, {}, {}, {}, {});
    var none: set<Sym> := {};
    assert none + none == none;
  }

  /** Closing symbols whose children have been seen; dropping touched symbols that are newly seen. */
  lemma {:induction false} GrownClose(u: Update, zone: set<Sym>, s0: State, s1: State,
                                      open: set<Sym>, touched: set<Sym>, open': set<Sym>, touched': set<Sym>)
    requires WellFormed(u.g) && Grown(u, zone, s0, s1, open, touched)
    requires forall s :: s in open && s !in open' && s in u.g.syms ==>
               NonClassToInstanceChildren(u, s) <= s1.seen
    requires forall s :: s in touched && s !in touched' ==>
               s in s1.seen && s !in s0.seen && (Required(s1, s) == Required(s0, s) || WentAround(u, s1, s))
    ensures Grown(u, zone, s0, s1, open', touched')
  {
  }

  lemma {:induction false} GrownRefl(u: Update, zone: set<Sym>, s: State)
    requires WellFormed(u.g) && s.seen <= u.g.syms.Keys
    ensures Grown(u, zone, s, s, {}, {})
  {
  }

  /** Seeing `s`, and marking it if it should be marked and was not waiting. */
  lemma {:induction false} GrownMark(u: Update, zone: set<Sym>, s0: State, s1: State, s: Sym)
    requires WellFormed(u.g) && s in u.g.syms && s0.seen <= u.g.syms.Keys && s in zone && s !in s0.seen
    requires s1.seen == s0.seen + {s} && s1.nsWaiting == s0.nsWaiting
    requires (s1.required == s0.required && (ShouldMark(u, s) ==> IsWaiting(u, s0, s)))
             || (s1.required == s0.required[s := u.now] && ShouldMark(u, s))
    ensures Grown(u, zone, s0, s1, {s}, if s1.required == s0.required then {} else {s})
  {
  }

  lemma {:induction false} GrownWaiting(u: Update, zone: set<Sym>, s0: State, s1: State, s: Sym, o: Obj)
    requires WellFormed(u.g) && s0.seen <= u.g.syms.Keys
    requires s1 == s0.(nsWaiting := s0.nsWaiting[o := WaitingIn(s0, o) + {s}]) && HeldIn(u.g, s, o)
    ensures Grown(u, zone, s0, s1, {}, {s})
  {
  }

  /** The symbols an update starts from: all names of a mutated object, or the symbol alone. */
  function Direct(g: Graph, sym: Sym, mutated: bool, duped: set<Sym>): set<Sym>
    requires sym in g.syms
  {
    (if mutated then Aliases(g, g.syms[sym].obj) else {sym}) + duped
  }

  //////////////////// What an update reaches ////////////////////

  /** The least set that staleness of `roots` can reach without entering `avoid`. */
  ghost function Reached(u: Update, avoid: set<Sym>, roots: set<Sym>): set<Sym>
    requires WellFormed(u.g) && roots <= u.g.syms.Keys
  {
    set s | s in u.g.syms && forall z: set<Sym> ::
                               ClosedZone(u, avoid, z) && (forall r <- roots :: LeadsInto(u, avoid, z, r)) ==> s in z
  }

  ghost predicate DependentsIn(u: Update, avoid: set<Sym>, z: set<Sym>, s: Sym)
    requires WellFormed(u.g) && s in u.g.syms
  {
    forall c <- NonClassToInstanceChildren(u, s) :: c in z || c in avoid
  }

  /** The descendants of `roots` by dependency alone, by chains that do not enter `avoid`. */
  ghost function Descendants(u: Update, avoid: set<Sym>, roots: set<Sym>): set<Sym>
    requires WellFormed(u.g) && roots <= u.g.syms.Keys
  {
    set s | s in u.g.syms && forall z: set<Sym> :: HoldsDependents(u, avoid, z, roots) ==> s in z
  }

  ghost predicate HoldsDependents(u: Update, avoid: set<Sym>, z: set<Sym>, roots: set<Sym>)
    requires WellFormed(u.g) && roots <= u.g.syms.Keys
  {
    && (forall x <- z :: x in u.g.syms ==> DependentsIn(u, avoid, z, x))
    && (forall r <- roots :: DependentsIn(u, avoid, z, r))
  }

  lemma {:induction false} NextIsKnown(u: Update, s: Sym, t: Sym)
    requires WellFormed(u.g) && s in u.g.syms && Next(u, s, t)
    ensures t in u.g.syms
  {
  }

  lemma {:induction false} ReachedIsClosed(u: Update, avoid: set<Sym>, roots: set<Sym>)
    requires WellFormed(u.g) && roots <= u.g.syms.Keys
    ensures ClosedZone(u, avoid, Reached(u, avoid, roots))
    ensures forall r <- roots :: LeadsInto(u, avoid, Reached(u, avoid, roots), r)
  {
    var zone := Reached(u, avoid, roots);
    forall s, t | s in zone && s in u.g.syms && Next(u, s, t) && t !in avoid ensures t in zone {
      NextIsKnown(u, s, t);
      forall z: set<Sym> | ClosedZone(u, avoid, z) && forall r <- roots :: LeadsInto(u, avoid, z, r) ensures t in z {
        assert s in z;
      }
    }
    forall r, t | r in roots && Next(u, r, t) && t !in avoid ensures t in zone {
      NextIsKnown(u, r, t);
      forall z: set<Sym> | ClosedZone(u, avoid, z) && forall r <- roots :: LeadsInto(u, avoid, z, r) ensures t in z {
        assert LeadsInto(u, avoid, z, r);
      }
    }
  }

  lemma {:induction false} ReachedReady(u: Update, avoid: set<Sym>, roots: set<Sym>, st: State)
    requires WellFormed(u.g) && roots <= u.g.syms.Keys && avoid == st.seen <= u.g.syms.Keys
    ensures Ready(u, avoid, Reached(u, avoid, roots), st)
    ensures forall r <- roots :: LeadsInto(u, avoid, Reached(u, avoid, roots), r)
  {
    ReachedIsClosed(u, avoid, roots);
  }

  /** Dependency alone reaches no more than propagation may, and without namespaces just as much. */
  lemma {:induction false} DescendantsAreReached(u: Update, avoid: set<Sym>, roots: set<Sym>)
    requires WellFormed(u.g) && roots <= u.g.syms.Keys
    ensures Descendants(u, avoid, roots) <= Reached(u, avoid, roots)
    ensures u.g.namespaces == map[] ==> Descendants(u, avoid, roots) == Reached(u, avoid, roots)
  {
    var zone, desc := Reached(u, avoid, roots), Descendants(u, avoid, roots);
    ReachedIsClosed(u, avoid, roots);
    forall s | s in desc ensures s in zone {
      forall x | x in zone && x in u.g.syms ensures DependentsIn(u, avoid, zone, x) {
        forall c | c in NonClassToInstanceChildren(u, x) ensures c in zone || c in avoid { assert Next(u, x, c); }
      }
      forall r | r in roots ensures DependentsIn(u, avoid, zone, r) {
        assert LeadsInto(u, avoid, zone, r);
        forall c | c in NonClassToInstanceChildren(u, r) ensures c in zone || c in avoid { assert Next(u, r, c); }
      }
      assert HoldsDependents(u, avoid, zone, roots);
    }
    if u.g.namespaces == map[] {
      forall s | s in zone ensures s in desc {
        forall z: set<Sym> | HoldsDependents(u, avoid, z, roots) ensures s in z {
          OnlyDependencies(u, avoid, z);
        }
      }
    }
  }

  lemma {:induction false} OnlyDependencies(u: Update, avoid: set<Sym>, z: set<Sym>)
    requires WellFormed(u.g) && u.g.namespaces == map[]
    ensures forall s <- u.g.syms :: LeadsInto(u, avoid, z, s) <==> DependentsIn(u, avoid, z, s)
    ensures (forall x <- z :: x in u.g.syms ==> DependentsIn(u, avoid, z, x)) ==> ClosedZone(u, avoid, z)
  {
    forall s, t | s in u.g.syms ensures Next(u, s, t) <==> t in NonClassToInstanceChildren(u, s) {
    }
  }

  /** Collecting from scratch sees exactly the updated symbols. */
  lemma {:induction false} CollectsUpdated(g: Graph, down: bool, s0: State, s1: State, direct: set<Sym>)
    requires WellFormed(g) && direct <= g.syms.Keys && s0.seen == {}
    requires Collected(g, down, Updated(g, down, direct), s0, s1, direct, {}, {})
    ensures s1.seen == Updated(g, down, direct)
  {
    assert ClosedUpdate(g, down, s1.seen) && NonImports(g, direct) <= s1.seen;
  }

  lemma {:induction false} UpdatedIsClosed(g: Graph, down: bool, direct: set<Sym>)
    requires WellFormed(g) && direct <= g.syms.Keys
    ensures ClosedUpdate(g, down, Updated(g, down, direct)) && NonImports(g, direct) <= Updated(g, down, direct)
  {
    hide WellFormed, UpdatedWith;
    var all := Updated(g, down, direct);
    UpdatedWithKnown(g, down);
    forall s, t | s in all && t in NonImports(g, UpdatedWith(g, down, s)) ensures t in all {
      UpdatedGoesOn(g, down, direct, s, t);
    }
  }

  lemma {:induction false} UpdatedWithKnown(g: Graph, down: bool)
    requires WellFormed(g)
    ensures forall s <- g.syms :: UpdatedWith(g, down, s) <= g.syms.Keys
  {
  }

  lemma {:induction false} UpdatedGoesOn(g: Graph, down: bool, direct: set<Sym>, s: Sym, t: Sym)
    requires WellFormed(g) && direct <= g.syms.Keys && s in Updated(g, down, direct)
    requires t in NonImports(g, UpdatedWith(g, down, s)) && t in g.syms
    ensures t in Updated(g, down, direct)
  {
    hide UpdatedWith, NonImports, WellFormed;
    forall z: set<Sym> | ClosedUpdate(g, down, z) && NonImports(g, direct) <= z ensures t in z {
      assert s in z;
    }
  }

  /**
   * The outcome of an update. Updated symbols and the right-hand side are never marked; every symbol
   * that depends on an updated one, by a chain that does not pass through either, is waiting, if it
   * should be marked at all; whatever is marked makes everything stale that its staleness can go to;
   * and nothing is marked that staleness cannot reach this way.
   */
  ghost predicate Outcome(u: Update, s0: State, s1: State, updated: set<Sym>, deps: set<Sym>)
    requires WellFormed(u.g) && updated <= u.g.syms.Keys
  {
    && UpdatedCleared(u.g, s0, s1, updated) && DepsUntouched(s0, s1, updated, deps)
    && NothingMissed(u, s1, updated, updated + deps) && NothingElse(u, s0, s1, updated, updated + deps)
    && StalenessGoesOn(u, s0, s1, updated, updated + deps) && HeldByNamespaces(u, s0, s1, updated)
    && StillHeld(u.g, s0, s1, updated)
  }

  /** Namespaces let go of updated symbols only, of those they are around. */
  ghost predicate StillHeld(g: Graph, s0: State, s1: State, updated: set<Sym>) {
    forall s, o :: s in WaitingIn(s0, o) && !(s in updated && InNamespace(g, s, o)) ==> s in WaitingIn(s1, o)
  }

  /** The namespace around a marked symbol, unless it is a module, holds it as waiting. */
  ghost predicate HeldByNamespaces(u: Update, s0: State, s1: State, updated: set<Sym>)
    requires WellFormed(u.g)
  {
    forall s, o :: s in u.g.syms && s !in updated && Required(s1, s) != Required(s0, s) ==>
      (u.g.syms[s].containing == Some(o) && !u.g.namespaces[o].isModule ==> s in WaitingIn(s1, o))
  }

  ghost predicate StalenessGoesOn(u: Update, s0: State, s1: State, updated: set<Sym>, avoid: set<Sym>)
    requires WellFormed(u.g)
  {
    forall s, t :: s in u.g.syms && s !in updated && Required(s1, s) != Required(s0, s) && Next(u, s, t) ==>
      t in u.g.syms && (t in avoid || (ShouldMark(u, t) ==> IsWaiting(u, s1, t)))
  }

  ghost predicate UpdatedCleared(g: Graph, s0: State, s1: State, updated: set<Sym>) {
    && (forall s <- updated :: Required(s1, s) == UNINITIALIZED)
    && (forall s <- updated, o :: s in WaitingIn(s1, o) ==> s in WaitingIn(s0, o) && !InNamespace(g, s, o))
  }

  ghost predicate DepsUntouched(s0: State, s1: State, updated: set<Sym>, deps: set<Sym>) {
    && (forall s <- deps :: s !in updated ==> Required(s1, s) == Required(s0, s))
    && (forall s <- deps, o :: s !in updated ==> (s in WaitingIn(s1, o) <==> s in WaitingIn(s0, o)))
  }

  ghost predicate NothingMissed(u: Update, s1: State, updated: set<Sym>, avoid: set<Sym>)
    requires WellFormed(u.g) && updated <= u.g.syms.Keys
  {
    forall s <- Descendants(u, avoid, updated) :: ShouldMark(u, s) ==> s !in avoid && IsWaiting(u, s1, s)
  }

  ghost predicate NothingElse(u: Update, s0: State, s1: State, updated: set<Sym>, avoid: set<Sym>)
    requires WellFormed(u.g) && updated <= u.g.syms.Keys
  {
    && (forall s :: s !in updated && Required(s1, s) != Required(s0, s) ==>
          s in Reached(u, avoid, updated) && s in u.g.syms && ShouldMark(u, s) && Required(s1, s) == u.now)
    && (forall s, o :: s in WaitingIn(s1, o) && s !in WaitingIn(s0, o) ==>
          s in Reached(u, avoid, updated) && HeldIn(u.g, s, o))
  }

  lemma {:induction false} UpdateOutcome(u: Update, down: bool, direct: set<Sym>, deps: set<Sym>,
                                         s0: State, s1: State, s2: State)
    requires WellFormed(u.g) && direct <= u.g.syms.Keys && deps <= u.g.syms.Keys && s0.seen == {}
    requires Collected(u.g, down, Updated(u.g, down, direct), s0, s1, direct, {}, {})
    requires var updated := Updated(u.g, down, direct);
             && s1.seen == updated <= u.updated
             && Grown(u, Reached(u, updated + deps, updated), s1.(seen := updated + deps), s2, {}, {})
             && (forall s <- updated :: NonClassToInstanceChildren(u, s) <= s2.seen)
    ensures Outcome(u, s0, s2, Updated(u.g, down, direct), deps)
  {
    hide Updated, Reached, Descendants;
    var updated := Updated(u.g, down, direct);
    var avoid := updated + deps;
    OutcomeElsewhere(u, down, direct, s0, s1, s2, updated, deps);
    hide Collected;
    AllDescendantsSeen(u, avoid, updated, s1.(seen := avoid), s2);
  }

  /** Propagation marks and enters only what is in `zone`, and leaves `avoid` alone. */
  ghost predicate Spread(u: Update, zone: set<Sym>, s1: State, avoid: set<Sym>, s2: State)
    requires WellFormed(u.g)
  {
    && (forall s <- avoid :: Required(s2, s) == Required(s1, s))
    && (forall s <- avoid, o :: s in WaitingIn(s2, o) <==> s in WaitingIn(s1, o))
    && (forall s :: Required(s2, s) != Required(s1, s) ==>
          s in zone && s in u.g.syms && ShouldMark(u, s) && Required(s2, s) == u.now)
    && (forall s, o :: s in WaitingIn(s2, o) && s !in WaitingIn(s1, o) ==> s in zone && HeldIn(u.g, s, o))
    && (forall s, o :: s in WaitingIn(s1, o) ==> s in WaitingIn(s2, o))
  }

  lemma {:induction false} GrownIsSpread(u: Update, zone: set<Sym>, s1: State, avoid: set<Sym>, s2: State)
    requires WellFormed(u.g) && Grown(u, zone, s1.(seen := avoid), s2, {}, {})
    ensures Spread(u, zone, s1, avoid, s2)
  {
    var start := s1.(seen := avoid);
    forall s, o ensures Required(start, s) == Required(s1, s) && WaitingIn(start, o) == WaitingIn(s1, o) {
    }
  }

  lemma {:induction false} MarkedGoesOn(u: Update, zone: set<Sym>, s1: State, avoid: set<Sym>, s2: State, s: Sym,
                                        t: Sym)
    requires WellFormed(u.g) && Grown(u, zone, s1.(seen := avoid), s2, {}, {})
    requires s in u.g.syms && Required(s2, s) != Required(s1, s) && Next(u, s, t)
    ensures t in u.g.syms && (t in avoid || (ShouldMark(u, t) ==> IsWaiting(u, s2, t)))
  {
    var start := s1.(seen := avoid);
    assert Required(start, s) == Required(s1, s);
    NextIsKnown(u, s, t);
    assert t in s2.seen;
  }

  lemma {:induction false} MarkedIsHeld(u: Update, zone: set<Sym>, s1: State, avoid: set<Sym>, s2: State, s: Sym,
                                        o: Obj)
    requires WellFormed(u.g) && Grown(u, zone, s1.(seen := avoid), s2, {}, {})
    requires s in u.g.syms && Required(s2, s) != Required(s1, s)
    requires u.g.syms[s].containing == Some(o) && !u.g.namespaces[o].isModule
    ensures s in WaitingIn(s2, o)
  {
    var start := s1.(seen := avoid);
    assert Required(start, s) == Required(s1, s);
  }

  ghost predicate Cleared(g: Graph, s0: State, s1: State, updated: set<Sym>) {
    && (forall s :: Required(s1, s) == if s in updated then UNINITIALIZED else Required(s0, s))
    && (forall s, o :: s in WaitingIn(s1, o) <==> s in WaitingIn(s0, o) && !(s in updated && InNamespace(g, s, o)))
  }

  lemma {:induction false} CollectedIsCleared(g: Graph, down: bool, s0: State, s1: State, updated: set<Sym>,
                                              direct: set<Sym>)
    requires WellFormed(g) && s0.seen == {} && s1.seen == updated
    requires Collected(g, down, updated, s0, s1, direct, {}, {})
    ensures Cleared(g, s0, s1, updated)
  {
  }

  lemma {:induction false} ClearedThenSpread(u: Update, zone: set<Sym>, s0: State, s1: State, s2: State,
                                             updated: set<Sym>, deps: set<Sym>)
    requires WellFormed(u.g) && Cleared(u.g, s0, s1, updated) && Spread(u, zone, s1, updated + deps, s2)
    ensures UpdatedCleared(u.g, s0, s2, updated) && DepsUntouched(s0, s2, updated, deps)
    ensures forall s :: s !in updated && Required(s2, s) != Required(s0, s) ==>
              s in zone && s in u.g.syms && ShouldMark(u, s) && Required(s2, s) == u.now
    ensures forall s, o :: s in WaitingIn(s2, o) && s !in WaitingIn(s0, o) ==> s in zone && HeldIn(u.g, s, o)
    ensures StillHeld(u.g, s0, s2, updated)
  {
    hide Required, WaitingIn, ShouldMark, InNamespace;
  }

  lemma {:induction false} MarksGoOn(u: Update, down: bool, direct: set<Sym>, s0: State, s1: State, s2: State,
                                     updated: set<Sym>, deps: set<Sym>)
    requires WellFormed(u.g) && s0.seen == {} && s1.seen == updated <= u.updated && updated <= u.g.syms.Keys
    requires Collected(u.g, down, updated, s0, s1, direct, {}, {})
    requires Grown(u, Reached(u, updated + deps, updated), s1.(seen := updated + deps), s2, {}, {})
    ensures StalenessGoesOn(u, s0, s2, updated, updated + deps) && HeldByNamespaces(u, s0, s2, updated)
  {
    forall s | s in u.g.syms && s !in updated && Required(s2, s) != Required(s0, s)
      ensures Required(s2, s) != Required(s1, s)
    {
      CollectedIsCleared(u.g, down, s0, s1, updated, direct);
    }
    forall s, o | s in u.g.syms && s !in updated && Required(s2, s) != Required(s0, s)
                  && u.g.syms[s].containing == Some(o) && !u.g.namespaces[o].isModule
      ensures s in WaitingIn(s2, o)
    {
      hide Grown, Reached, Collected, WaitingIn;
      MarkedIsHeld(u, Reached(u, updated + deps, updated), s1, updated + deps, s2, s, o);
    }
    forall s, t | s in u.g.syms && s !in updated && Required(s2, s) != Required(s0, s) && Next(u, s, t)
      ensures t in u.g.syms && (t in updated + deps || (ShouldMark(u, t) ==> IsWaiting(u, s2, t)))
    {
      hide Next, Grown, Reached, Collected, ShouldMark, IsWaiting;
      MarkedGoesOn(u, Reached(u, updated + deps, updated), s1, updated + deps, s2, s, t);
    }
  }

  lemma {:induction false} OutcomeElsewhere(u: Update, down: bool, direct: set<Sym>, s0: State, s1: State, s2: State,
                                            updated: set<Sym>, deps: set<Sym>)
    requires WellFormed(u.g) && s0.seen == {} && s1.seen == updated <= u.updated && updated <= u.g.syms.Keys
    requires Collected(u.g, down, updated, s0, s1, direct, {}, {})
    requires Grown(u, Reached(u, updated + deps, updated), s1.(seen := updated + deps), s2, {}, {})
    ensures UpdatedCleared(u.g, s0, s2, updated) && DepsUntouched(s0, s2, updated, deps)
    ensures NothingElse(u, s0, s2, updated, updated + deps) && StillHeld(u.g, s0, s2, updated)
    ensures StalenessGoesOn(u, s0, s2, updated, updated + deps) && HeldByNamespaces(u, s0, s2, updated)
  {
    hide Grown, Collected, Reached, Required, WaitingIn, ShouldMark, Spread, Cleared, StalenessGoesOn,
      HeldByNamespaces, StillHeld;
    MarksGoOn(u, down, direct, s0, s1, s2, updated, deps);
    GrownIsSpread(u, Reached(u, updated + deps, updated), s1, updated + deps, s2);
    CollectedIsCleared(u.g, down, s0, s1, updated, direct);
    ClearedThenSpread(u, Reached(u, updated + deps, updated), s0, s1, s2, updated, deps);
  }

  lemma {:induction false} AllDescendantsSeen(u: Update, avoid: set<Sym>, roots: set<Sym>, s0: State, s1: State)
    requires WellFormed(u.g) && roots <= u.g.syms.Keys && s0.seen == avoid
    requires Grown(u, Reached(u, avoid, roots), s0, s1, {}, {})
    requires forall s <- roots :: NonClassToInstanceChildren(u, s) <= s1.seen
    ensures NothingMissed(u, s1, roots, avoid)
  {
    var found := s1.seen - avoid;
    assert HoldsDependents(u, avoid, found, roots);
    forall s | s in Descendants(u, avoid, roots) ensures s in found {
    }
  }

  /** Without namespaces the marked symbols are exactly the descendants that should be marked. */
  lemma {:induction false} MarksExactly(u: Update, s0: State, s1: State, updated: set<Sym>, deps: set<Sym>, s: Sym)
    requires WellFormed(u.g) && updated <= u.g.syms.Keys && Outcome(u, s0, s1, updated, deps)
    requires u.g.namespaces == map[] && (forall o :: WaitingIn(s0, o) == {}) && u.now != UNINITIALIZED
    ensures Required(s1, s) == u.now <==>
            (s in Descendants(u, updated + deps, updated) && ShouldMark(u, s))
            || (s !in updated && Required(s0, s) == u.now)
  {
    DescendantsAreReached(u, updated + deps, updated);
    NotInAvoided(u, updated + deps, updated);
    hide Descendants, Reached;
    NoneHeld(u, s0, s1, updated, deps);
  }

  /** Without namespaces nothing is held as waiting by one. */
  lemma {:induction false} NoneHeld(u: Update, s0: State, s1: State, updated: set<Sym>, deps: set<Sym>)
    requires WellFormed(u.g) && updated <= u.g.syms.Keys && Outcome(u, s0, s1, updated, deps)
    requires u.g.namespaces == map[] && forall o :: WaitingIn(s0, o) == {}
    ensures forall o :: WaitingIn(s1, o) == {}
  {
    hide Reached, Descendants, Required, WaitingIn, NothingMissed, StalenessGoesOn, HeldByNamespaces, UpdatedCleared,
      DepsUntouched;
    forall o ensures WaitingIn(s1, o) == {} {
      forall s | s in WaitingIn(s1, o) ensures s in WaitingIn(s0, o) {
        assert s in WaitingIn(s0, o) || HeldIn(u.g, s, o);
      }
    }
  }

  lemma {:induction false} NotInAvoided(u: Update, avoid: set<Sym>, roots: set<Sym>)
    requires WellFormed(u.g) && roots <= u.g.syms.Keys
    ensures Descendants(u, avoid, roots) !! avoid
  {
    assert HoldsDependents(u, avoid, u.g.syms.Keys - avoid, roots);
  }

  class Protocol {
    const g: Graph
    const updatedSym: Sym
    const now: int                            // the current timestamp
    const cellUpdated: set<Sym>               // updated earlier in this cell
    var stmtUpdated: set<Sym>                 // updated in this statement
    var seen: set<Sym>
    var required: map<Sym, int>               // required_timestamp
    var nsWaiting: map<Obj, set<Sym>>         // namespace_waiting_symbols

    ghost function St(): State
      reads this
    {
      State(seen, required, nsWaiting)
    }

    constructor (graph: Graph, sym: Sym, time: int, updatedInCell: set<Sym>, updatedInStmt: set<Sym>,
                 requiredTimes: map<Sym, int>, waiting: map<Obj, set<Sym>>)
      ensures g == graph && updatedSym == sym && now == time && cellUpdated == updatedInCell
      ensures stmtUpdated == updatedInStmt && seen == {} && required == requiredTimes && nsWaiting == waiting
    {
      g, updatedSym, now, cellUpdated, stmtUpdated := graph, sym, time, updatedInCell, updatedInStmt;
      seen, required, nsWaiting := {}, requiredTimes, waiting;
    }

    /** The whole protocol for one updated symbol; `newDeps` is what its right-hand side used. */
    method Call(newDeps: set<Sym>, mutated: bool, propagateToNamespaceDescendents: bool, duped: set<Sym>)
      returns (ghost u: Update)
      requires WellFormed(g) && updatedSym in g.syms && newDeps <= g.syms.Keys && duped <= g.syms.Keys && seen == {}
      modifies this
      ensures var updated := Updated(g, propagateToNamespaceDescendents, Direct(g, updatedSym, mutated, duped));
              && stmtUpdated == old(stmtUpdated) + updated
              && u == Update(g, updatedSym, cellUpdated + stmtUpdated, now)
              && Outcome(u, old(St()), St(), updated, newDeps)
    {
      var down := propagateToNamespaceDescendents;
      var direct := Direct(g, updatedSym, mutated, duped);
      ghost var updated := Updated(g, down, direct);
      UpdatedIsClosed(g, down, direct);
      CollectUpdatedSymbols(direct, down, updated);
      ghost var s1 := St();
      CollectsUpdated(g, down, old(St()), s1, direct);
      var roots := seen;
      stmtUpdated := stmtUpdated + seen;
      var globals := Update(g, updatedSym, cellUpdated + stmtUpdated, now);
      u := globals;
      seen := seen + newDeps;
      ghost var avoid := updated + newDeps;
      ReachedReady(u, avoid, roots, St());
      PropagateFromAll(globals, roots, avoid, Reached(u, avoid, roots));
      UpdateOutcome(u, down, direct, newDeps, old(St()), s1, St());
    }

    method PropagateFromAll(u: Update, roots: set<Sym>, ghost avoid: set<Sym>, ghost zone: set<Sym>)
      requires Ready(u, avoid, zone, St()) && roots <= u.g.syms.Keys && roots <= avoid && roots <= u.updated
      requires forall r <- roots :: LeadsInto(u, avoid, zone, r)
      modifies this`seen, this`required, this`nsWaiting
      ensures Grown(u, zone, old(St()), St(), {}, {})
      ensures forall s <- roots :: NonClassToInstanceChildren(u, s) <= seen
    {
      ReadyFacts(u, avoid, zone, St());
      hide Grown, Ready, LeadsInto;
      var rest := roots;
      while rest != {}
        invariant rest <= roots && roots <= seen && Ready(u, avoid, zone, St())
        invariant Grown(u, zone, old(St()), St(), {}, {})
        invariant forall s <- roots :: s in rest || NonClassToInstanceChildren(u, s) <= seen
        decreases rest
      {
        var s :| s in rest;
        rest := rest - {s};
        ghost var s2 := St();
        PropagateToDeps(u, s, true, avoid, zone);
        GrownSeq(u, zone, old(St()), s2, St());
      }
    }

    method CollectUpdatedSymbols(updated: set<Sym>, down: bool, ghost zone: set<Sym>)
      requires WellFormed(g) && updated <= g.syms.Keys && seen <= g.syms.Keys
      requires ClosedUpdate(g, down, zone) && NonImports(g, updated) <= zone
      modifies this`seen, this`required, this`nsWaiting
      ensures Collected(g, down, zone, old(St()), St(), updated, {}, {})
      decreases g.syms.Keys - seen, 0
    {
      hide Collected, ClosedUpdate, InNamespace;
      CollectedRefl(g, down, zone, St(), updated);
      var rest := updated;
      while rest != {}
        invariant rest <= updated && old(seen) <= seen <= g.syms.Keys
        invariant Collected(g, down, zone, old(St()), St(), updated, rest, {})
        decreases rest
      {
        var s :| s in rest;
        if g.syms[s].isImport || s in seen {
          CollectSkip(g, down, zone, old(St()), St(), updated, rest, s);
        } else {
          ghost var s1 := St();
          required := required[s := UNINITIALIZED];
          seen := seen + {s};
          var a := g.syms[s];
          if !a.isModule && a.containing.Some? && a.containing.value in nsWaiting {
            nsWaiting := nsWaiting[a.containing.value := nsWaiting[a.containing.value] - {s}];
          }
          Discarded(g, s1, St(), s);
          CollectOne(g, down, zone, old(St()), s1, St(), updated, rest, s);
          CollectAround(s, down, zone, old(St()), updated, rest);
        }
        rest := rest - {s};
      }
    }

    /** The two recursive calls for one symbol. */
    method CollectAround(s: Sym, down: bool, ghost zone: set<Sym>, ghost s0: State,
                         ghost direct: set<Sym>, ghost rest: set<Sym>)
      requires WellFormed(g) && s in g.syms && s in seen && seen <= g.syms.Keys
      requires ClosedUpdate(g, down, zone) && s in zone
      requires Collected(g, down, zone, s0, St(), direct, rest - {s}, {s})
      modifies this`seen, this`required, this`nsWaiting
      ensures Collected(g, down, zone, s0, St(), direct, rest - {s}, {}) && old(seen) <= seen <= g.syms.Keys
      decreases g.syms.Keys - seen, 1
    {
      var a := g.syms[s];
      assert NonImports(g, UpdatedWith(g, down, s)) <= zone;
      if !a.isModule && a.containing.Some? {
        ghost var s1 := St();
        var around := Aliases(g, a.containing.value);
        CollectUpdatedSymbols(around, down, zone);
        CollectedThen(g, down, zone, s0, s1, St(), direct, rest - {s}, {s}, around);
      }
      if down && a.obj in g.namespaces {
        ghost var s1 := St();
        CollectUpdatedSymbols(g.namespaces[a.obj].members, down, zone);
        CollectedThen(g, down, zone, s0, s1, St(), direct, rest - {s}, {s}, g.namespaces[a.obj].members);
      }
      CollectClose(g, down, zone, s0, St(), direct, rest - {s}, s);
    }

    method PropagateToDeps(u: Update, s: Sym, skipSeenCheck: bool, ghost avoid: set<Sym>, ghost zone: set<Sym>)
      requires Ready(u, avoid, zone, St()) && s in u.g.syms
      requires if skipSeenCheck then s in seen && !ShouldMark(u, s) && LeadsInto(u, avoid, zone, s)
               else s in zone || s in avoid
      modifies this`seen, this`required, this`nsWaiting
      ensures Grown(u, zone, old(St()), St(), {}, {}) && Ready(u, avoid, zone, St()) && s in seen
      ensures skipSeenCheck ==> NonClassToInstanceChildren(u, s) <= seen
      decreases u.g.syms.Keys - seen, if skipSeenCheck then 6 else 0
    {
      hide Grown, Ready, LeadsInto, IsWaiting, WentUp, HeldIn;
      ReadyFacts(u, avoid, zone, St());
      if !skipSeenCheck && s in seen { return; }
      ghost var s0 := St();
      seen := seen + {s};
      if ShouldMark(u, s) {
        required := required[s := u.now];
      }
      Entered(u, avoid, zone, s0, St(), s);
      if ShouldMark(u, s) {
        ghost var s1 := St();
        PropagateToNamespaceParents(u, s, true, avoid, zone);
        GrownThen(u, zone, s0, s1, St(), {s}, {s}, {}, {s});
        ghost var s2 := St();
        PropagateToNamespaceChildren(u, s, avoid, zone);
        GrownSees(u, zone, s2, St(), {}, {});
        WentUpStays(u, s2, St(), s);
        GrownThen(u, zone, s0, s2, St(), {s}, {s}, {}, {});
      }
      ghost var s3 := St();
      PropagateToChildren(u, s, avoid, zone);
      GrownSees(u, zone, s3, St(), {}, {});
      if ShouldMark(u, s) { WentUpStays(u, s3, St(), s); }
      Leave(u, zone, s0, s3, St(), s, if ShouldMark(u, s) then {s} else {});
    }

    /** The loop over the children of `s`. */
    method PropagateToChildren(u: Update, s: Sym, ghost avoid: set<Sym>, ghost zone: set<Sym>)
      requires Ready(u, avoid, zone, St()) && s in u.g.syms
      requires forall c <- NonClassToInstanceChildren(u, s) :: c in zone || c in avoid
      modifies this`seen, this`required, this`nsWaiting
      ensures Grown(u, zone, old(St()), St(), {}, {}) && Ready(u, avoid, zone, St()) && old(seen) <= seen
      ensures NonClassToInstanceChildren(u, s) <= seen
      decreases u.g.syms.Keys - seen, 2
    {
      ReadyFacts(u, avoid, zone, St());
      hide Grown, Ready;
      var rest := NonClassToInstanceChildren(u, s);
      while rest != {}
        invariant rest <= NonClassToInstanceChildren(u, s) && old(seen) <= seen
        invariant Grown(u, zone, old(St()), St(), {}, {}) && Ready(u, avoid, zone, St())
        invariant forall c <- NonClassToInstanceChildren(u, s) :: c in rest || c in seen
        decreases rest
      {
        var c :| c in rest;
        rest := rest - {c};
        ghost var s1 := St();
        PropagateToDeps(u, c, false, avoid, zone);
        GrownSeq(u, zone, old(St()), s1, St());
      }
    }

    method PropagateToNamespaceChildren(u: Update, s: Sym, ghost avoid: set<Sym>, ghost zone: set<Sym>)
      requires Ready(u, avoid, zone, St()) && s in u.g.syms && s in seen && LeadsInto(u, avoid, zone, s)
      modifies this`seen, this`required, this`nsWaiting
      ensures Grown(u, zone, old(St()), St(), {}, {}) && Ready(u, avoid, zone, St()) && old(seen) <= seen
      ensures Inside(u, s) <= seen
      decreases u.g.syms.Keys - seen, 3
    {
      ReadyFacts(u, avoid, zone, St());
      hide Grown, Ready;
      if u.g.syms[s].obj !in u.g.namespaces { return; }
      var rest := u.g.namespaces[u.g.syms[s].obj].nonClassMembers;
      while rest != {}
        invariant rest <= Inside(u, s) && old(seen) <= seen
        invariant Grown(u, zone, old(St()), St(), {}, {}) && Ready(u, avoid, zone, St())
        invariant forall c <- Inside(u, s) :: c in rest || c in seen
        decreases rest
      {
        var c :| c in rest;
        rest := rest - {c};
        assert Next(u, s, c);
        ghost var s1 := St();
        PropagateToDeps(u, c, false, avoid, zone);
        GrownSeq(u, zone, old(St()), s1, St());
      }
    }

    method PropagateToNamespaceParents(u: Update, s: Sym, skipSeenCheck: bool, ghost avoid: set<Sym>,
                                       ghost zone: set<Sym>)
      requires Ready(u, avoid, zone, St()) && s in u.g.syms
      requires if skipSeenCheck then s in seen && LeadsInto(u, avoid, zone, s)
               else (s in zone || s in avoid) && WaitingIn(St(), u.g.syms[s].obj) != {}
      modifies this`seen, this`required, this`nsWaiting
      ensures Ready(u, avoid, zone, St()) && old(seen) <= seen && s in seen
      ensures Grown(u, zone, old(St()), St(), if skipSeenCheck then {} else {s}, if skipSeenCheck then {s} else {})
      ensures skipSeenCheck ==> WentUp(u, St(), s)
      decreases u.g.syms.Keys - seen, if skipSeenCheck then 5 else 1, 1
    {
      ghost var s0 := St();
      ReadyFacts(u, avoid, zone, s0);
      if !skipSeenCheck && s in seen {
        GrownClose(u, zone, s0, s0, {}, {}, {s}, {});
        return;
      }
      seen := seen + {s};
      ghost var open := if skipSeenCheck then {} else {s};
      EnteredParents(u, avoid, zone, s0, St(), s, skipSeenCheck);
      hide Grown, Ready, LeadsInto, IsWaiting;
      var ns := u.g.syms[s].containing;
      if ns.None? || u.g.namespaces[ns.value].isModule { return; }
      GoUp(u, s, skipSeenCheck, avoid, zone, s0, open);
    }

    /** Into the enclosing namespace: it holds `s` as waiting, and its names and their dependents follow. */
    method GoUp(u: Update, s: Sym, ghost skip: bool, ghost avoid: set<Sym>, ghost zone: set<Sym>, ghost s0: State,
                ghost open: set<Sym>)
      requires Ready(u, avoid, zone, St()) && s in u.g.syms && s in seen && LeadsInto(u, avoid, zone, s)
      requires u.g.syms[s].containing.Some? && !u.g.namespaces[u.g.syms[s].containing.value].isModule
      requires Grown(u, zone, s0, St(), open, if skip then {s} else {})
      requires !skip ==> s !in s0.seen && Required(St(), s) == Required(s0, s)
      modifies this`seen, this`required, this`nsWaiting
      ensures Ready(u, avoid, zone, St()) && old(seen) <= seen
      ensures Grown(u, zone, s0, St(), open, if skip then {s} else {}) && WentUp(u, St(), s)
      decreases u.g.syms.Keys - seen, 5, 0
    {
      ReadyFacts(u, avoid, zone, St());
      hide Grown, Ready, LeadsInto, IsWaiting;
      var o := u.g.syms[s].containing.value;
      ghost var s1 := St();
      nsWaiting := nsWaiting[o := (if o in nsWaiting then nsWaiting[o] else {}) + {s}];
      ParentWaits(u, avoid, zone, s0, s1, St(), s, o, open, if skip then {s} else {});
      SeeAliases(u, s, avoid, zone, s0, open);
      ChildrenOfAliases(u, s, avoid, zone, s0, open);
      assert WentUp(u, St(), s);
      LeaveParents(u, zone, s0, St(), s, open, skip);
    }

    /** First loop: all names of the enclosing namespace are seen before any of their children. */
    method SeeAliases(u: Update, s: Sym, ghost avoid: set<Sym>, ghost zone: set<Sym>, ghost s0: State,
                      ghost open: set<Sym>)
      requires Ready(u, avoid, zone, St()) && s in u.g.syms && s in seen && LeadsInto(u, avoid, zone, s)
      requires u.g.syms[s].containing.Some? && s in WaitingIn(St(), u.g.syms[s].containing.value)
      requires !u.g.namespaces[u.g.syms[s].containing.value].isModule
      requires Grown(u, zone, s0, St(), open + Around(u, s), {s})
      modifies this`seen, this`required, this`nsWaiting
      ensures Ready(u, avoid, zone, St()) && old(seen) <= seen
      ensures Grown(u, zone, s0, St(), open + Around(u, s), {s}) && Required(St(), s) == Required(old(St()), s)
      ensures Around(u, s) <= seen && s in WaitingIn(St(), u.g.syms[s].containing.value)
      decreases u.g.syms.Keys - seen, 4
    {
      var o := u.g.syms[s].containing.value;
      hide Grown, Ready;
      var rest := Aliases(u.g, o);
      while rest != {}
        invariant rest <= Around(u, s) && old(seen) <= seen && s in WaitingIn(St(), o)
        invariant Required(St(), s) == Required(old(St()), s) && forall a <- Around(u, s) :: a in rest || a in seen
        invariant Ready(u, avoid, zone, St()) && Grown(u, zone, s0, St(), open + Around(u, s), {s})
        decreases rest
      {
        var a :| a in rest;
        rest := rest - {a};
        assert Next(u, s, a);
        ghost var s1 := St();
        PropagateToNamespaceParents(u, a, false, avoid, zone);
        SawOne(u, zone, s0, s1, St(), open + Around(u, s), s, a);
      }
    }

    /** Second loop. */
    method ChildrenOfAliases(u: Update, s: Sym, ghost avoid: set<Sym>, ghost zone: set<Sym>, ghost s0: State,
                             ghost open: set<Sym>)
      requires Ready(u, avoid, zone, St()) && s in u.g.syms && s in seen && LeadsInto(u, avoid, zone, s)
      requires u.g.syms[s].containing.Some? && !u.g.namespaces[u.g.syms[s].containing.value].isModule
      requires Grown(u, zone, s0, St(), open + Around(u, s), {s})
      modifies this`seen, this`required, this`nsWaiting
      ensures Ready(u, avoid, zone, St()) && old(seen) <= seen && Required(St(), s) == Required(old(St()), s)
      ensures Grown(u, zone, s0, St(), open, {s})
      ensures forall a <- Around(u, s) :: a in u.g.syms && NonClassToInstanceChildren(u, a) <= seen
      ensures forall o :: WaitingIn(old(St()), o) <= WaitingIn(St(), o)
      decreases u.g.syms.Keys - seen, 4
    {
      ReadyFacts(u, avoid, zone, St());
      hide Grown, Ready;
      var rest := Aliases(u.g, u.g.syms[s].containing.value);
      while rest != {}
        invariant rest <= Around(u, s) && old(seen) <= seen && Around(u, s) <= u.g.syms.Keys
        invariant Required(St(), s) == Required(old(St()), s)
        invariant forall o :: WaitingIn(old(St()), o) <= WaitingIn(St(), o)
        invariant Ready(u, avoid, zone, St()) && Grown(u, zone, s0, St(), open + Around(u, s), {s})
        invariant forall a <- Around(u, s) :: a in rest || NonClassToInstanceChildren(u, a) <= seen
        decreases rest
      {
        var a :| a in rest;
        rest := rest - {a};
        forall c | c in NonClassToInstanceChildren(u, a) ensures c in zone || c in avoid { assert Next(u, s, c); }
        ghost var s1 := St();
        PropagateToChildren(u, a, avoid, zone);
        GrownSees(u, zone, s1, St(), {}, {});
        GrownThen(u, zone, s0, s1, St(), open + Around(u, s), {s}, {}, {});
        assert open + Around(u, s) + {} == open + Around(u, s) && {s} + {} == {s};
      }
      GrownClose(u, zone, s0, St(), open + Around(u, s), {s}, open, {s});
    }
  }

  ghost predicate Ready(u: Update, avoid: set<Sym>, zone: set<Sym>, st: State) {
    WellFormed(u.g) && avoid <= st.seen <= u.g.syms.Keys && zone <= u.g.syms.Keys && ClosedZone(u, avoid, zone)
  }

  lemma {:induction false} ReadyFacts(u: Update, avoid: set<Sym>, zone: set<Sym>, st: State)
    requires Ready(u, avoid, zone, st)
    ensures WellFormed(u.g) && avoid <= st.seen <= u.g.syms.Keys && zone <= u.g.syms.Keys
    ensures Grown(u, zone, st, st, {}, {})
    ensures forall s <- u.g.syms :: NonClassToInstanceChildren(u, s) <= u.g.syms.Keys && Around(u, s) <= u.g.syms.Keys
  {
  }

  lemma {:induction false} GrownSees(u: Update, zone: set<Sym>, s0: State, s1: State, open: set<Sym>, touched: set<Sym>)
    requires WellFormed(u.g) && Grown(u, zone, s0, s1, open, touched)
    ensures s0.seen <= s1.seen && forall o :: WaitingIn(s0, o) <= WaitingIn(s1, o)
    ensures forall s <- s0.seen :: Required(s1, s) == Required(s0, s)
  {
  }

  lemma {:induction false} SawOne(u: Update, zone: set<Sym>, s0: State, s1: State, s2: State, open: set<Sym>, s: Sym,
                                  a: Sym)
    requires WellFormed(u.g) && Grown(u, zone, s0, s1, open, {s}) && Grown(u, zone, s1, s2, {a}, {}) && a in open
    ensures Grown(u, zone, s0, s2, open, {s}) && s1.seen <= s2.seen
    ensures forall o :: WaitingIn(s1, o) <= WaitingIn(s2, o)
    ensures forall x <- s1.seen :: Required(s2, x) == Required(s1, x)
  {
    GrownSees(u, zone, s1, s2, {a}, {});
    GrownThen(u, zone, s0, s1, s2, open, {s}, {a}, {});
    assert open + {a} == open && {s} + {} == {s};
  }

  lemma {:induction false} Entered(u: Update, avoid: set<Sym>, zone: set<Sym>, s0: State, s1: State, s: Sym)
    requires Ready(u, avoid, zone, s0) && s in u.g.syms
    requires s1 == State(s0.seen + {s}, if ShouldMark(u, s) then s0.required[s := u.now] else s0.required, s0.nsWaiting)
    requires if s in s0.seen then !ShouldMark(u, s) && LeadsInto(u, avoid, zone, s) else s in zone || s in avoid
    ensures Ready(u, avoid, zone, s1) && LeadsInto(u, avoid, zone, s)
    ensures Grown(u, zone, s0, s1, {s}, if ShouldMark(u, s) then {s} else {})
    ensures forall c <- NonClassToInstanceChildren(u, s) :: c in zone || c in avoid
  {
    if s in s0.seen {
      assert s1 == s0;
    } else {
      GrownMark(u, zone, s0, s1, s);
    }
    forall c | c in NonClassToInstanceChildren(u, s) ensures c in zone || c in avoid { assert Next(u, s, c); }
  }

  lemma {:induction false} Leave(u: Update, zone: set<Sym>, s0: State, s1: State, s2: State, s: Sym, touched: set<Sym>)
    requires WellFormed(u.g) && s in u.g.syms && Grown(u, zone, s0, s1, {s}, touched) && Grown(u, zone, s1, s2, {}, {})
    requires NonClassToInstanceChildren(u, s) <= s2.seen && touched <= {s}
    requires touched != {} ==> s !in s0.seen && s in s2.seen && WentAround(u, s2, s)
    ensures Grown(u, zone, s0, s2, {}, {})
  {
    GrownThen(u, zone, s0, s1, s2, {s}, touched, {}, {});
    GrownClose(u, zone, s0, s2, {s}, touched, {}, {});
  }

  lemma {:induction false} EnteredParents(u: Update, avoid: set<Sym>, zone: set<Sym>, s0: State, s1: State, s: Sym,
                                          skip: bool)
    requires Ready(u, avoid, zone, s0) && s in u.g.syms && s1 == s0.(seen := s0.seen + {s})
    requires if skip then s in s0.seen && LeadsInto(u, avoid, zone, s)
             else s !in s0.seen && (s in zone || s in avoid) && WaitingIn(s0, u.g.syms[s].obj) != {}
    ensures Ready(u, avoid, zone, s1) && LeadsInto(u, avoid, zone, s)
    ensures Grown(u, zone, s0, s1, if skip then {} else {s}, if skip then {s} else {})
  {
    if skip {
      assert s1 == s0;
    } else {
      GrownMark(u, zone, s0, s1, s);
    }
  }

  lemma {:induction false} ParentWaits(u: Update, avoid: set<Sym>, zone: set<Sym>, s0: State, s1: State, s2: State,
                                       s: Sym, o: Obj, open: set<Sym>, touched: set<Sym>)
    requires Ready(u, avoid, zone, s1) && s in u.g.syms && Grown(u, zone, s0, s1, open, touched) && touched <= {s}
    requires s2 == s1.(nsWaiting := s1.nsWaiting[o := WaitingIn(s1, o) + {s}]) && HeldIn(u.g, s, o)
    ensures Ready(u, avoid, zone, s2) && s in WaitingIn(s2, o)
    ensures Grown(u, zone, s0, s2, open + Around(u, s), {s})
  {
    GrownWaiting(u, zone, s1, s2, s, o);
    GrownThen(u, zone, s0, s1, s2, open, touched, {}, {s});
    GrownClose(u, zone, s0, s2, open + {}, touched + {s}, open + Around(u, s), {s});
  }

  lemma {:induction false} LeaveParents(u: Update, zone: set<Sym>, s0: State, s1: State, s: Sym, open: set<Sym>,
                                        skip: bool)
    requires WellFormed(u.g) && Grown(u, zone, s0, s1, open, {s}) && s in s1.seen
    requires !skip ==> s !in s0.seen && Required(s1, s) == Required(s0, s)
    ensures Grown(u, zone, s0, s1, open, if skip then {s} else {})
  {
    GrownClose(u, zone, s0, s1, open, {s}, open, if skip then {s} else {});
  }

  lemma {:induction false} CollectedRefl(g: Graph, down: bool, zone: set<Sym>, st: State, direct: set<Sym>)
    requires WellFormed(g) && st.seen <= g.syms.Keys
    ensures Collected(g, down, zone, st, st, direct, direct, {})
  {
  }

  lemma {:induction false} CollectSkip(g: Graph, down: bool, zone: set<Sym>, s0: State, s1: State,
                                       direct: set<Sym>, rest: set<Sym>, s: Sym)
    requires WellFormed(g) && Collected(g, down, zone, s0, s1, direct, rest, {}) && s in g.syms
    requires g.syms[s].isImport || s in s1.seen
    ensures Collected(g, down, zone, s0, s1, direct, rest - {s}, {})
  {
  }

  lemma {:induction false} Discarded(g: Graph, s0: State, s1: State, s: Sym)
    requires s in g.syms
    requires var a := g.syms[s];
             s1.nsWaiting == if !a.isModule && a.containing.Some? && a.containing.value in s0.nsWaiting
                             then s0.nsWaiting[a.containing.value := s0.nsWaiting[a.containing.value] - {s}]
                             else s0.nsWaiting
    ensures forall o, x :: x in WaitingIn(s1, o) <==> x in WaitingIn(s0, o) && !(x == s && InNamespace(g, s, o))
  {
  }
}
