/**
 * The liveness analysis is sound: what it calls live decides a program's control flow and every
 * reference it calls dead, and each dead reference is assigned on every finishing run.
 */
module LivenessSound {
  import opened Wrappers
  import opened Liveness

  //////////////////// References and agreement ////////////////////

  function Resolve(v: Option<Value>, path: seq<nat>): Option<Value> {
    if path == [] then v else Item(Resolve(v, path[..|path| - 1]), path[|path| - 1])
  }

  function Lookup(s: Store, r: Ref): Option<Value> {
    Resolve(if r.name in s then Some(s[r.name]) else None, r.path)
  }

  ghost predicate Agree(refs: set<Ref>, s1: Store, s2: Store) {
    forall r <- refs :: Lookup(s1, r) == Lookup(s2, r)
  }

  lemma {:induction false} EvalIsLookup(e: Expr, s: Store)
    requires RefOf(e).Some?
    ensures Eval(e, s) == Lookup(s, RefOf(e).value)
  {
    if e.Subscript? {
      EvalIsLookup(e.base, s);
      var r := RefOf(e).value;
      assert r.path[..|r.path| - 1] == RefOf(e.base).value.path;
    }
  }

  lemma {:induction false} RootDecides(name: Name, path: seq<nat>, s1: Store, s2: Store)
    requires Lookup(s1, Ref(name, [])) == Lookup(s2, Ref(name, []))
    ensures Lookup(s1, Ref(name, path)) == Lookup(s2, Ref(name, path))
  {
  }

  //////////////////// The supported fragment ////////////////////

  /** No outermost one-level subscript of a quasiquoting name. */
  predicate SupportedExpr(e: Expr, inAttrsub: bool)
    decreases e, 1
  {
    match e
    case Literal(_) => true
    case Var(_) => true
    case Subscript(base, _) =>
      (base.Var? && base.x in QUASIQUOTED ==> inAttrsub) && SupportedExpr(base, true)
    case BinOp(_, l, r) => SupportedExpr(l, false) && SupportedExpr(r, false)
    case Tuple(elts) => SupportedExprs(elts)
  }

  predicate SupportedExprs(es: seq<Expr>)
    decreases es, 0
  {
    es == [] || (SupportedExpr(es[0], false) && SupportedExprs(es[1..]))
  }

  /** No bare annotation, and only supported expressions. */
  predicate Supported(p: Stmt)
    decreases p, 1
  {
    match p
    case Evaluate(e) => SupportedExpr(e, false)
    case Assign(_, e) => SupportedExpr(e, false)
    case Annotate(_, init) => init.Some? && SupportedExpr(init.value, false)
    case Augment(_, _, e) => SupportedExpr(e, false)
    case _ => SupportedExpr(Head(p), false) && SupportedBlock(p.body) && SupportedBlock(p.orelse)
  }

  predicate SupportedBlock(b: seq<Stmt>)
    decreases b, 0
  {
    b == [] || (Supported(b[0]) && SupportedBlock(b[1..]))
  }

  //////////////////// Expressions ////////////////////

  /** `refs` contains everything dead and everything live that was not yet killed. */
  ghost predicate Covers(refs: set<Ref>, dead: set<Ref>, live: set<LiveRef>) {
    dead <= refs && forall l <- live :: !l.isKilled ==> l.ref in refs
  }

  lemma {:induction false} RefSound(r: Ref, refs: set<Ref>, dead: set<Ref>, k: nat, keep: bool, s1: Store, s2: Store)
    requires Agree(refs, s1, s2) && Covers(refs, dead, LiveIf(r, dead, k, keep))
    ensures Lookup(s1, r) == Lookup(s2, r)
  {
    if !Killed(r, dead) {
      assert LiveRef(r, k, false) in LiveIf(r, dead, k, keep);
    } else if r !in dead {
      RootDecides(r.name, r.path, s1, s2);
    }
  }

  lemma {:induction false} ExprSound(e: Expr, inAttrsub: bool, refs: set<Ref>, dead: set<Ref>, k: nat, keep: bool,
                                     s1: Store, s2: Store)
    requires Agree(refs, s1, s2) && Covers(refs, dead, ExprLive(e, inAttrsub, dead, k, keep))
    requires SupportedExpr(e, inAttrsub) && (inAttrsub ==> RefOf(e).None?)
    ensures Eval(e, s1) == Eval(e, s2)
    decreases e, 1
  {
    if RefOf(e).Some? {
      RefSound(RefOf(e).value, refs, dead, k, keep, s1, s2);
      EvalIsLookup(e, s1);
      EvalIsLookup(e, s2);
    } else {
      match e {
        case Literal(_) =>
        case Subscript(base, _) => ExprSound(base, true, refs, dead, k, keep, s1, s2);
        case BinOp(_, l, r) =>
          ExprSound(l, false, refs, dead, k, keep, s1, s2);
          ExprSound(r, false, refs, dead, k, keep, s1, s2);
        case Tuple(elts) => ExprsSound(elts, refs, dead, k, keep, s1, s2);
      }
    }
  }

  lemma {:induction false} ExprsSound(es: seq<Expr>, refs: set<Ref>, dead: set<Ref>, k: nat, keep: bool,
                                      s1: Store, s2: Store)
    requires Agree(refs, s1, s2) && Covers(refs, dead, ExprsLive(es, dead, k, keep)) && SupportedExprs(es)
    ensures EvalAll(es, s1) == EvalAll(es, s2)
    decreases es, 0
  {
    if es != [] {
      ExprSound(es[0], false, refs, dead, k, keep, s1, s2);
      ExprsSound(es[1..], refs, dead, k, keep, s1, s2);
    }
  }

  //////////////////// Assignments ////////////////////

  ghost predicate SameBinding(b1: Option<Store>, b2: Option<Store>, refs: set<Ref>) {
    (b1.Some? <==> b2.Some?) && (b1.Some? ==> Agree(refs, b1.value, b2.value))
  }

  lemma {:induction false} LookupAssigned(r: Ref, x: Name, v: Value, s: Store)
    ensures Lookup(s[x := v], r) == if r.name == x then Resolve(Some(v), r.path) else Lookup(s, r)
  {
  }

  lemma {:induction false} AssignKeepsAgreement(x: Name, v: Value, refs: set<Ref>, s1: Store, s2: Store)
    requires Agree(refs, s1, s2)
    ensures Agree(refs + {Ref(x, [])}, s1[x := v], s2[x := v])
  {
    forall r | r in refs + {Ref(x, [])} ensures Lookup(s1[x := v], r) == Lookup(s2[x := v], r) {
      LookupAssigned(r, x, v, s1);
      LookupAssigned(r, x, v, s2);
    }
  }

  lemma {:induction false} BindSound(t: Target, v: Value, refs: set<Ref>, s1: Store, s2: Store)
    requires Agree(refs, s1, s2)
    ensures SameBinding(Bind(t, v, s1), Bind(t, v, s2), refs + TargetRefs(t))
    decreases t, 1
  {
    match t {
      case NameTarget(x) => AssignKeepsAgreement(x, v, refs, s1, s2);
      case TupleTarget(elts) =>
        if v.Tup? && |v.items| == |elts| { BindItemsSound(elts, v.items, refs, s1, s2); }
    }
  }

  lemma {:induction false} BindItemsSound(ts: seq<Target>, vs: seq<Value>, refs: set<Ref>, s1: Store, s2: Store)
    requires Agree(refs, s1, s2) && |ts| == |vs|
    ensures SameBinding(BindItems(ts, vs, s1), BindItems(ts, vs, s2), refs + TargetsRefs(ts))
    decreases ts, 0
  {
    if ts != [] {
      BindSound(ts[0], vs[0], refs, s1, s2);
      var b1, b2 := Bind(ts[0], vs[0], s1), Bind(ts[0], vs[0], s2);
      if b1.Some? {
        BindItemsSound(ts[1..], vs[1..], refs + TargetRefs(ts[0]), b1.value, b2.value);
        assert refs + TargetRefs(ts[0]) + TargetsRefs(ts[1..]) == refs + TargetsRefs(ts);
      }
    }
  }

  lemma {:induction false} BindTargetsSound(ts: seq<Target>, v: Value, refs: set<Ref>, s1: Store, s2: Store)
    requires Agree(refs, s1, s2)
    ensures SameBinding(BindTargets(ts, v, s1), BindTargets(ts, v, s2), refs + TargetsRefs(ts))
    decreases |ts|
  {
    if ts != [] {
      BindSound(ts[0], v, refs, s1, s2);
      var b1, b2 := Bind(ts[0], v, s1), Bind(ts[0], v, s2);
      if b1.Some? {
        BindTargetsSound(ts[1..], v, refs + TargetRefs(ts[0]), b1.value, b2.value);
        assert refs + TargetRefs(ts[0]) + TargetsRefs(ts[1..]) == refs + TargetsRefs(ts);
      }
    }
  }

  lemma {:induction false} ElementsAgree(targets: seq<Target>, value: Expr, refs: set<Ref>, s1: Store, s2: Store)
    requires Agree(refs, s1, s2) && TargetsRefs(targets) <= refs
    ensures Agree(refs + ElementRefs(targets, value), s1, s2)
  {
    forall r | r in ElementRefs(targets, value) ensures Lookup(s1, r) == Lookup(s2, r) {
      assert Ref(r.name, []) in TargetsRefs(targets);
      RootDecides(r.name, r.path, s1, s2);
    }
  }

  //////////////////// Statements ////////////////////

  /** Two runs ended the same way after the same branches, assigned the same references, and agree on
      these and on `refs`; if they finished, they also agree on `dead`. */
  ghost predicate SameRun(o1: Outcome, o2: Outcome, refs: set<Ref>, dead: set<Ref>) {
    && o1.status == o2.status && o1.taken == o2.taken && o1.written == o2.written
    && Agree(refs + o1.written, o1.store, o2.store)
    && (o1.status == Done ==> Agree(dead, o1.store, o2.store))
  }

  lemma {:induction false} AgreeUnion(refs: set<Ref>, more: set<Ref>, s1: Store, s2: Store)
    ensures Agree(refs + more, s1, s2) <==> Agree(refs, s1, s2) && Agree(more, s1, s2)
  {
    hide Lookup;
  }

  lemma {:induction false} SameStop(status: Status, refs: set<Ref>, dead: set<Ref>, s1: Store, s2: Store)
    requires Agree(refs, s1, s2) && dead <= refs
    ensures SameRun(Stop(status, s1), Stop(status, s2), refs, dead)
  {
    assert refs + {} == refs;
  }

  /** What the first runs agree on, the second runs go on agreeing on. */
  lemma {:induction false} ThenSame(o1: Outcome, o2: Outcome, n1: Outcome, n2: Outcome, refs: set<Ref>,
                                    between: set<Ref>,
                                    inner: set<Ref>, dead: set<Ref>)
    requires SameRun(o1, o2, refs, between) && refs + o1.written <= inner
    requires SameRun(n1, n2, inner, dead)
    ensures SameRun(o1.Then(n1), o2.Then(n2), refs, dead)
  {
    hide Lookup;
  }

  lemma {:induction false} SameRunWeaken(o1: Outcome, o2: Outcome, refs: set<Ref>, fewer: set<Ref>, dead: set<Ref>,
                                         fewerDead: set<Ref>)
    requires SameRun(o1, o2, refs, dead) && fewer <= refs && fewerDead <= refs + dead
    ensures SameRun(o1, o2, fewer, fewerDead)
  {
    hide Lookup;
  }

  /** What two runs that finished agree on. */
  lemma {:induction false} SameRunAgrees(o1: Outcome, o2: Outcome, refs: set<Ref>, dead: set<Ref>)
    requires SameRun(o1, o2, refs, dead) && o1.status == Done
    ensures o2.status == Done && Agree(refs + o1.written + dead, o1.store, o2.store)
  {
    AgreeUnion(refs + o1.written, dead, o1.store, o2.store);
  }

  lemma {:induction false} AssignSound(targets: seq<Target>, e: Expr, refs: set<Ref>, dead: set<Ref>, k: nat,
                                       keep: bool,
                    s1: Store, s2: Store, fuel: nat)
    requires Agree(refs, s1, s2) && SupportedExpr(e, false)
    requires Covers(refs, dead, AssignEffect(targets, Some(e), dead, k, keep).live)
    ensures SameRun(Exec(Assign(targets, e), s1, fuel), Exec(Assign(targets, e), s2, fuel),
                    refs, AssignEffect(targets, Some(e), dead, k, keep).dead)
  {
    ExprSound(e, false, refs, dead, k, keep, s1, s2);
    hide ExprLive, Refs, Lookup, ElementRefs, TargetsRefs;
    var v := Eval(e, s1);
    if v.Some? {
      BindTargetsSound(targets, v.value, refs, s1, s2);
      var b1, b2 := BindTargets(targets, v.value, s1), BindTargets(targets, v.value, s2);
      if b1.Some? {
        ElementsAgree(targets, e, refs + TargetsRefs(targets), b1.value, b2.value);
        assert refs + TargetsRefs(targets) + ElementRefs(targets, e)
            == refs + (TargetsRefs(targets) + ElementRefs(targets, e));
      }
    }
  }

  lemma {:induction false} AugmentSound(p: Stmt, refs: set<Ref>, dead: set<Ref>, k: nat, keep: bool, s1: Store,
                                        s2: Store, fuel: nat)
    requires Agree(refs, s1, s2) && p.Augment? && Supported(p)
    requires Covers(refs, dead, StmtEffect(p, dead, k, keep).live)
    ensures SameRun(Exec(p, s1, fuel), Exec(p, s2, fuel), refs, StmtEffect(p, dead, k, keep).dead)
  {
    ExprSound(Var(p.x), false, refs, dead, k, keep, s1, s2);
    ExprSound(p.value, false, refs, dead, k, keep, s1, s2);
    var v := Eval(BinOp(p.op, Var(p.x), p.value), s1);
    if v.Some? { AssignKeepsAgreement(p.x, v.value, refs, s1, s2); }
  }

  lemma {:induction false} IfSound(p: Stmt, refs: set<Ref>, dead: set<Ref>, k: nat, keep: bool, s1: Store, s2: Store,
                                   fuel: nat)
    requires Agree(refs, s1, s2) && p.If? && Supported(p)
    requires Covers(refs, dead, StmtEffect(p, dead, k, keep).live)
    ensures SameRun(Exec(p, s1, fuel), Exec(p, s2, fuel), refs, StmtEffect(p, dead, k, keep).dead)
    decreases fuel, p, 1
  {
    BranchCovers(p, refs, dead, k, keep);
    SupportedParts(p);
    hide StmtEffect, BlockEffect, ExprLive, Supported, SupportedBlock, SupportedExpr, Covers, ExecBlock, Eval;
    ExprSound(p.test, false, refs, dead, k, keep, s1, s2);
    BlockSound(p.body, refs, {}, k, keep, s1, s2, fuel);
    BlockSound(p.orelse, refs, {}, k, keep, s1, s2, fuel);
    var after, v := StmtEffect(p, dead, k, keep).dead, Eval(p.test, s1);
    SameStop(Raised, refs, {}, s1, s2);
    if v.Some? {
      var part := if Truthy(v.value) then p.body else p.orelse;
      SameRunWeaken(ExecBlock(part, s1, fuel), ExecBlock(part, s2, fuel), refs, refs,
                    BlockEffect(part, {}, k, keep).dead, after);
      TestedSame(refs, [Truthy(v.value)], s1, s2);
      ThenSame(Outcome(Done, s1, [Truthy(v.value)], {}), Outcome(Done, s2, [Truthy(v.value)], {}),
               ExecBlock(part, s1, fuel), ExecBlock(part, s2, fuel), refs, {}, refs, after);
    }
  }

  lemma {:induction false} TestedSame(refs: set<Ref>, taken: seq<bool>, s1: Store, s2: Store)
    requires Agree(refs, s1, s2)
    ensures SameRun(Outcome(Done, s1, taken, {}), Outcome(Done, s2, taken, {}), refs, {})
  {
    assert refs + {} == refs;
  }

  lemma {:induction false} StmtSound(p: Stmt, refs: set<Ref>, dead: set<Ref>, k: nat, keep: bool,
                                     s1: Store, s2: Store, fuel: nat)
    requires Agree(refs, s1, s2) && Supported(p)
    requires Covers(refs, dead, StmtEffect(p, dead, k, keep).live)
    ensures SameRun(Exec(p, s1, fuel), Exec(p, s2, fuel), refs, StmtEffect(p, dead, k, keep).dead)
    decreases fuel, p, 2
  {
    match p {
      case Evaluate(e) =>
        ExprSound(e, false, refs, dead, k, keep, s1, s2);
        SameStop(Exec(p, s1, fuel).status, refs, dead, s1, s2);
      case Assign(targets, e) => AssignSound(targets, e, refs, dead, k, keep, s1, s2, fuel);
      case Annotate(x, init) =>
        AssignSound([NameTarget(x)], init.value, refs, dead, k, keep, s1, s2, fuel);
        AnnotateIsAssign(x, init.value, s1, fuel);
        AnnotateIsAssign(x, init.value, s2, fuel);
      case Augment(_, _, _) => AugmentSound(p, refs, dead, k, keep, s1, s2, fuel);
      case If(_, _, _) => IfSound(p, refs, dead, k, keep, s1, s2, fuel);
      case While(_, _, _) => WhileSound(p, refs, dead, k, keep, s1, s2, fuel);
      case For(_, iter, _, _) =>
        ExprSound(iter, false, refs, dead, k, keep, s1, s2);
        var v := Eval(iter, s1);
        if v.Some? && v.value.Tup? {
          ForSound(p, v.value.items, refs, dead, k, keep, s1, s2, fuel);
        } else {
          SameStop(Raised, refs, {}, s1, s2);
        }
    }
  }

  lemma {:induction false} SingleTarget(x: Name, v: Value, s: Store)
    ensures TargetsRefs([NameTarget(x)]) == {Ref(x, [])}
    ensures BindTargets([NameTarget(x)], v, s) == Some(s[x := v])
  {
    assert [NameTarget(x)][1..] == [];
  }

  lemma {:induction false} AnnotateIsAssign(x: Name, e: Expr, s: Store, fuel: nat)
    ensures Exec(Annotate(x, Some(e)), s, fuel) == Exec(Assign([NameTarget(x)], e), s, fuel)
  {
    if Eval(e, s).Some? { SingleTarget(x, Eval(e, s).value, s); }
  }

  lemma {:induction false} BlockSound(b: seq<Stmt>, refs: set<Ref>, dead: set<Ref>, k: nat, keep: bool,
                                      s1: Store, s2: Store, fuel: nat)
    requires Agree(refs, s1, s2) && SupportedBlock(b)
    requires Covers(refs, dead, BlockEffect(b, dead, k, keep).live)
    ensures SameRun(ExecBlock(b, s1, fuel), ExecBlock(b, s2, fuel), refs, BlockEffect(b, dead, k, keep).dead)
    decreases fuel, b, 0
  {
    hide StmtEffect, Exec, Agree, SameRun;
    if b == [] {
      SameStop(Done, refs, dead, s1, s2);
    } else {
      StmtSound(b[0], refs, dead, k, keep, s1, s2, fuel);
      var first := StmtEffect(b[0], dead, k, keep);
      var o1, o2 := Exec(b[0], s1, fuel), Exec(b[0], s2, fuel);
      SameStatus(o1, o2, refs, first.dead);
      if o1.status == Done {
        var inner := refs + o1.written + first.dead;
        SameRunAgrees(o1, o2, refs, first.dead);
        BlockSound(b[1..], inner, first.dead, k, keep, o1.store, o2.store, fuel);
        ThenSame(o1, o2, ExecBlock(b[1..], o1.store, fuel), ExecBlock(b[1..], o2.store, fuel), refs, first.dead, inner,
                 BlockEffect(b, dead, k, keep).dead);
      } else {
        Unfinished(o1, o2, refs, first.dead, BlockEffect(b, dead, k, keep).dead);
      }
    }
  }

  lemma {:induction false} SameStatus(o1: Outcome, o2: Outcome, refs: set<Ref>, dead: set<Ref>)
    requires SameRun(o1, o2, refs, dead)
    ensures o1.status == o2.status
  {
  }

  lemma {:induction false} Unfinished(o1: Outcome, o2: Outcome, refs: set<Ref>, dead: set<Ref>, other: set<Ref>)
    requires SameRun(o1, o2, refs, dead) && o1.status != Done
    ensures SameRun(o1, o2, refs, other)
  {
  }

  lemma {:induction false} SupportedParts(p: Stmt)
    requires (p.If? || p.While? || p.For?) && Supported(p)
    ensures SupportedExpr(Head(p), false) && SupportedBlock(p.body) && SupportedBlock(p.orelse)
  {
  }

  /** The parts of a branch or loop are covered by what covers the whole. */
  lemma {:induction false} JoinCovers(p: Stmt, refs: set<Ref>, dead: set<Ref>, k: nat, keep: bool)
    requires (p.If? || p.While? || p.For?) && Covers(refs, dead, StmtEffect(p, dead, k, keep).live)
    ensures Covers(refs, dead, ExprLive(Head(p), false, dead, k, keep))
    ensures Covers(refs + Bound(p), Bound(p), BlockEffect(p.body, Bound(p), k, keep).live)
    ensures Covers(refs, {}, BlockEffect(p.orelse, {}, k, keep).live)
    ensures StmtEffect(p, dead, k, keep).dead <= refs + BlockEffect(p.body, Bound(p), k, keep).dead
    ensures StmtEffect(p, dead, k, keep).dead <= refs + BlockEffect(p.orelse, {}, k, keep).dead
  {
  }

  lemma {:induction false} BranchCovers(p: Stmt, refs: set<Ref>, dead: set<Ref>, k: nat, keep: bool)
    requires (p.If? || p.While?) && Covers(refs, dead, StmtEffect(p, dead, k, keep).live)
    ensures Head(p) == p.test && Covers(refs, dead, ExprLive(p.test, false, dead, k, keep))
    ensures Covers(refs, {}, BlockEffect(p.body, {}, k, keep).live)
    ensures Covers(refs, {}, BlockEffect(p.orelse, {}, k, keep).live)
    ensures StmtEffect(p, dead, k, keep).dead <= refs + BlockEffect(p.orelse, {}, k, keep).dead
    ensures StmtEffect(p, dead, k, keep).dead <= refs + BlockEffect(p.body, {}, k, keep).dead
  {
    JoinCovers(p, refs, dead, k, keep);
    assert refs + Bound(p) == refs && Bound(p) == {};
  }

  lemma {:induction false} CoversMore(refs: set<Ref>, more: set<Ref>, dead: set<Ref>, live: set<LiveRef>)
    requires Covers(refs, dead, live) && refs <= more
    ensures Covers(more, dead, live)
  {
  }

  lemma {:induction false} WhileSound(p: Stmt, refs: set<Ref>, dead: set<Ref>, k: nat, keep: bool,
                                      s1: Store, s2: Store, fuel: nat)
    requires p.While? && Agree(refs, s1, s2) && Supported(p)
    requires Covers(refs, dead, StmtEffect(p, dead, k, keep).live)
    ensures SameRun(ExecWhile(p, s1, fuel), ExecWhile(p, s2, fuel), refs, StmtEffect(p, dead, k, keep).dead)
    decreases fuel, p, 1
  {
    hide *;
    BranchCovers(p, refs, dead, k, keep);
    SupportedParts(p);
    ExprSound(p.test, false, refs, dead, k, keep, s1, s2);
    BlockSound(p.orelse, refs, {}, k, keep, s1, s2, fuel);
    BlockSound(p.body, refs, {}, k, keep, s1, s2, fuel);
    var after := StmtEffect(p, dead, k, keep).dead;
    SameRunWeaken(ExecBlock(p.orelse, s1, fuel), ExecBlock(p.orelse, s2, fuel), refs, refs,
                  BlockEffect(p.orelse, {}, k, keep).dead, after);
    SameRunWeaken(ExecBlock(p.body, s1, fuel), ExecBlock(p.body, s2, fuel), refs, refs,
                  BlockEffect(p.body, {}, k, keep).dead, {});
    var o1, o2 := ExecBlock(p.body, s1, fuel), ExecBlock(p.body, s2, fuel);
    if fuel > 0 && o1.status == Done {
      SameRunAgrees(o1, o2, refs, {});
      var inner := refs + o1.written + {};
      CoversMore(refs, inner, dead, StmtEffect(p, dead, k, keep).live);
      WhileSound(p, inner, dead, k, keep, o1.store, o2.store, fuel - 1);
      assert inner == refs + o1.written;
    }
    WhileStep(p, refs, after, s1, s2, fuel);
  }

  lemma {:induction false} WhileStep(p: Stmt, refs: set<Ref>, after: set<Ref>, s1: Store, s2: Store, fuel: nat)
    requires p.While? && Eval(p.test, s1) == Eval(p.test, s2) && Agree(refs, s1, s2)
    requires SameRun(ExecBlock(p.orelse, s1, fuel), ExecBlock(p.orelse, s2, fuel), refs, after)
    requires SameRun(ExecBlock(p.body, s1, fuel), ExecBlock(p.body, s2, fuel), refs, {})
    requires var o1, o2 := ExecBlock(p.body, s1, fuel), ExecBlock(p.body, s2, fuel);
             fuel > 0 && o1.status == Done
             ==> SameRun(ExecWhile(p, o1.store, fuel - 1), ExecWhile(p, o2.store, fuel - 1), refs + o1.written, after)
    ensures SameRun(ExecWhile(p, s1, fuel), ExecWhile(p, s2, fuel), refs, after)
  {
    hide Eval, ExecBlock, Agree, SameRun;
    var v, o1, o2 := Eval(p.test, s1), ExecBlock(p.body, s1, fuel), ExecBlock(p.body, s2, fuel);
    SameStatus(o1, o2, refs, {});
    if v.None? {
      SameRaise(Raised, refs, after, s1, s2);
    } else if !Truthy(v.value) {
      var t1, t2 := Outcome(Done, s1, [false], {}), Outcome(Done, s2, [false], {});
      TestedSame(refs, [false], s1, s2);
      ThenSame(t1, t2, ExecBlock(p.orelse, s1, fuel), ExecBlock(p.orelse, s2, fuel), refs, {}, refs, after);
    } else if fuel == 0 {
      SameRaise(OutOfFuel, refs, after, s1, s2);
    } else {
      var t1, t2 := Outcome(Done, s1, [true], {}), Outcome(Done, s2, [true], {});
      TestedSame(refs, [true], s1, s2);
      ThenSame(t1, t2, o1, o2, refs, {}, refs, {});
      var n1, n2 := t1.Then(o1), t2.Then(o2);
      if o1.status == Done {
        ThenSame(n1, n2, ExecWhile(p, n1.store, fuel - 1), ExecWhile(p, n2.store, fuel - 1), refs, {},
                 refs + o1.written, after);
      } else {
        Unfinished(n1, n2, refs, {}, after);
      }
    }
  }

  lemma {:induction false} SameRaise(status: Status, refs: set<Ref>, dead: set<Ref>, s1: Store, s2: Store)
    requires Agree(refs, s1, s2) && status != Done
    ensures SameRun(Stop(status, s1), Stop(status, s2), refs, dead)
  {
    assert refs + {} == refs;
  }

  lemma {:induction false} ForSound(p: Stmt, items: seq<Value>, refs: set<Ref>, dead: set<Ref>, k: nat, keep: bool,
                                    s1: Store, s2: Store, fuel: nat)
    requires p.For? && Agree(refs, s1, s2) && Supported(p)
    requires Covers(refs, dead, StmtEffect(p, dead, k, keep).live)
    ensures SameRun(ExecFor(p, items, s1, fuel), ExecFor(p, items, s2, fuel),
                    refs, StmtEffect(p, dead, k, keep).dead)
    decreases fuel, p, 1, |items|
  {
    JoinCovers(p, refs, dead, k, keep);
    SupportedParts(p);
    hide StmtEffect, BlockEffect, ExprLive, Supported, SupportedBlock, SupportedExpr, Covers, ExecBlock, Bind, SameRun,
      Agree;
    var after := StmtEffect(p, dead, k, keep).dead;
    if items == [] {
      BlockSound(p.orelse, refs, {}, k, keep, s1, s2, fuel);
      SameRunWeaken(ExecBlock(p.orelse, s1, fuel), ExecBlock(p.orelse, s2, fuel), refs, refs,
                    BlockEffect(p.orelse, {}, k, keep).dead, after);
      TestedSame(refs, [false], s1, s2);
      ThenSame(Outcome(Done, s1, [false], {}), Outcome(Done, s2, [false], {}),
               ExecBlock(p.orelse, s1, fuel), ExecBlock(p.orelse, s2, fuel), refs, {}, refs, after);
    } else {
      BindSound(p.target, items[0], refs, s1, s2);
      var b1, b2 := Bind(p.target, items[0], s1), Bind(p.target, items[0], s2);
      if b1.None? {
        SameRaise(Raised, refs, after, s1, s2);
      } else {
        var inner := refs + TargetRefs(p.target);
        var t1, t2 := Outcome(Done, b1.value, [true], TargetRefs(p.target)),
                      Outcome(Done, b2.value, [true], TargetRefs(p.target));
        BoundSame(refs, TargetRefs(p.target), b1.value, b2.value);
        BlockSound(p.body, inner, TargetRefs(p.target), k, keep, b1.value, b2.value, fuel);
        var n1, n2 := ExecBlock(p.body, b1.value, fuel), ExecBlock(p.body, b2.value, fuel);
        SameRunWeaken(n1, n2, inner, inner, BlockEffect(p.body, Bound(p), k, keep).dead, {});
        ThenSame(t1, t2, n1, n2, refs, {}, inner, {});
        var o1, o2 := t1.Then(n1), t2.Then(n2);
        SameStatus(o1, o2, refs, {});
        if o1.status == Done {
          SameRunAgrees(o1, o2, refs, {});
          var on := refs + o1.written + {};
          CoversMore(refs, on, dead, StmtEffect(p, dead, k, keep).live);
          ForSound(p, items[1..], on, dead, k, keep, o1.store, o2.store, fuel);
          ThenSame(o1, o2, ExecFor(p, items[1..], o1.store, fuel), ExecFor(p, items[1..], o2.store, fuel), refs, {},
                   on, after);
        } else {
          Unfinished(o1, o2, refs, {}, after);
        }
      }
    }
  }

  lemma {:induction false} BoundSame(refs: set<Ref>, bound: set<Ref>, s1: Store, s2: Store)
    requires Agree(refs + bound, s1, s2)
    ensures SameRun(Outcome(Done, s1, [true], bound), Outcome(Done, s2, [true], bound), refs, {})
  {
  }

  /**
   * Liveness soundness for a whole cell: two namespaces that agree on any set containing the live
   * references drive the cell down the same path to the same end and make it assign the same
   * references; they end agreeing on that set and on everything assigned, even if the cell raises,
   * and on everything dead, if it finishes.
   */
  lemma {:induction false} LivenessIsSound(body: seq<Stmt>, refs: set<Ref>, dead: set<Ref>, k: nat, keep: bool,
                                           s1: Store, s2: Store, fuel: nat)
    requires Agree(refs, s1, s2) && SupportedBlock(body)
    requires Covers(refs, dead, ModuleEffect(body, dead, k, keep).live)
    ensures SameRun(ExecBlock(body, s1, fuel), ExecBlock(body, s2, fuel),
                    refs, ModuleEffect(body, dead, k, keep).dead)
    decreases |body|
  {
    hide StmtEffect, Exec, Agree, SameRun;
    if body == [] {
      SameStop(Done, refs, dead, s1, s2);
    } else {
      StmtSound(body[0], refs, dead, k, keep, s1, s2, fuel);
      var first := StmtEffect(body[0], dead, k, keep);
      var o1, o2 := Exec(body[0], s1, fuel), Exec(body[0], s2, fuel);
      SameStatus(o1, o2, refs, first.dead);
      if o1.status == Done {
        var inner := refs + o1.written + first.dead;
        SameRunAgrees(o1, o2, refs, first.dead);
        LivenessIsSound(body[1..], inner, first.dead, k + 1, keep, o1.store, o2.store, fuel);
        ThenSame(o1, o2, ExecBlock(body[1..], o1.store, fuel), ExecBlock(body[1..], o2.store, fuel), refs, first.dead,
                 inner, ModuleEffect(body, dead, k, keep).dead);
      } else {
        Unfinished(o1, o2, refs, first.dead, ModuleEffect(body, dead, k, keep).dead);
      }
    }
  }

  //////////////////// Definite assignment ////////////////////

  predicate NoBareAnnotation(p: Stmt)
    decreases p, 1
  {
    match p
    case Annotate(_, init) => init.Some?
    case If(_, b, o) => NoBareAnnotations(b) && NoBareAnnotations(o)
    case While(_, b, o) => NoBareAnnotations(b) && NoBareAnnotations(o)
    case For(_, _, b, o) => NoBareAnnotations(b) && NoBareAnnotations(o)
    case _ => true
  }

  predicate NoBareAnnotations(b: seq<Stmt>)
    decreases b, 0
  {
    b == [] || (NoBareAnnotation(b[0]) && NoBareAnnotations(b[1..]))
  }

  lemma {:induction false} DeadIsWrittenStmt(p: Stmt, dead: set<Ref>, k: nat, keep: bool, s: Store, fuel: nat)
    requires NoBareAnnotation(p)
    ensures Exec(p, s, fuel).status == Done ==> StmtEffect(p, dead, k, keep).dead <= dead + Exec(p, s, fuel).written
    decreases fuel, p, 2
  {
    match p {
      case Evaluate(_) =>
      case Assign(_, _) =>
      case Annotate(x, init) => AnnotateIsAssign(x, init.value, s, fuel);
      case Augment(_, _, _) =>
      case If(test, body, orelse) =>
        DeadIsWritten(body, {}, k, keep, s, fuel);
        DeadIsWritten(orelse, {}, k, keep, s, fuel);
      case While(_, _, _) => DeadIsWrittenWhile(p, k, keep, s, fuel);
      case For(_, iter, _, _) =>
        var v := Eval(iter, s);
        if v.Some? && v.value.Tup? { DeadIsWrittenFor(p, v.value.items, k, keep, s, fuel); }
    }
  }

  /** Every reference in a block's dead set was assigned, on every run that finishes. */
  lemma {:induction false} DeadIsWritten(b: seq<Stmt>, dead: set<Ref>, k: nat, keep: bool, s: Store, fuel: nat)
    requires NoBareAnnotations(b)
    ensures ExecBlock(b, s, fuel).status == Done
            ==> BlockEffect(b, dead, k, keep).dead <= dead + ExecBlock(b, s, fuel).written
    decreases fuel, b, 0
  {
    if b != [] {
      DeadIsWrittenStmt(b[0], dead, k, keep, s, fuel);
      var o := Exec(b[0], s, fuel);
      if o.status == Done {
        DeadIsWritten(b[1..], StmtEffect(b[0], dead, k, keep).dead, k, keep, o.store, fuel);
      }
    }
  }

  /** Definite assignment for a whole cell. */
  lemma {:induction false} DefiniteAssignment(body: seq<Stmt>, dead: set<Ref>, k: nat, keep: bool, s: Store, fuel: nat)
    requires NoBareAnnotations(body)
    ensures ExecBlock(body, s, fuel).status == Done
            ==> ModuleEffect(body, dead, k, keep).dead <= dead + ExecBlock(body, s, fuel).written
    decreases |body|
  {
    if body != [] {
      DeadIsWrittenStmt(body[0], dead, k, keep, s, fuel);
      var o := Exec(body[0], s, fuel);
      if o.status == Done {
        DefiniteAssignment(body[1..], StmtEffect(body[0], dead, k, keep).dead, k + 1, keep, o.store, fuel);
      }
    }
  }

  /** A loop that finishes went through its else part, whatever its body did. */
  lemma {:induction false} DeadIsWrittenWhile(p: Stmt, k: nat, keep: bool, s: Store, fuel: nat)
    requires p.While? && NoBareAnnotation(p)
    ensures ExecWhile(p, s, fuel).status == Done
            ==> BlockEffect(p.orelse, {}, k, keep).dead <= ExecWhile(p, s, fuel).written
    decreases fuel, p, 1
  {
    DeadIsWritten(p.orelse, {}, k, keep, s, fuel);
    var o := ExecBlock(p.body, s, fuel);
    if fuel > 0 && o.status == Done { DeadIsWrittenWhile(p, k, keep, o.store, fuel - 1); }
  }

  lemma {:induction false} DeadIsWrittenFor(p: Stmt, items: seq<Value>, k: nat, keep: bool, s: Store, fuel: nat)
    requires p.For? && NoBareAnnotation(p)
    ensures ExecFor(p, items, s, fuel).status == Done
            ==> BlockEffect(p.orelse, {}, k, keep).dead <= ExecFor(p, items, s, fuel).written
    decreases fuel, p, 1, |items|
  {
    if items == [] {
      DeadIsWritten(p.orelse, {}, k, keep, s, fuel);
    } else {
      var bound := Bind(p.target, items[0], s);
      if bound.Some? {
        var o := ExecBlock(p.body, bound.value, fuel);
        if o.status == Done { DeadIsWrittenFor(p, items[1..], k, keep, o.store, fuel); }
      }
    }
  }

  //////////////////// What modified is worth ////////////////////

  /** Every reference some run of the statement may assign. */
  function Assigned(p: Stmt): set<Ref>
    decreases p, 1
  {
    match p
    case Evaluate(_) => {}
    case Assign(targets, e) => TargetsRefs(targets) + ElementRefs(targets, e)
    case Annotate(x, init) =>
      if init.None? then {} else {Ref(x, [])} + ElementRefs([NameTarget(x)], init.value)
    case Augment(x, _, _) => {Ref(x, [])}
    case _ => Bound(p) + AssignedIn(p.body) + AssignedIn(p.orelse)
  }

  function AssignedIn(b: seq<Stmt>): set<Ref>
    decreases b, 0
  {
    if b == [] then {} else Assigned(b[0]) + AssignedIn(b[1..])
  }

  lemma {:induction false} WrittenIsAssigned(p: Stmt, s: Store, fuel: nat)
    ensures Exec(p, s, fuel).written <= Assigned(p)
    decreases fuel, p, 2
  {
    match p {
      case If(_, body, orelse) =>
        BlockWrittenIsAssigned(body, s, fuel);
        BlockWrittenIsAssigned(orelse, s, fuel);
      case While(_, _, _) => WhileWrittenIsAssigned(p, s, fuel);
      case For(_, iter, _, _) =>
        var v := Eval(iter, s);
        if v.Some? && v.value.Tup? { ForWrittenIsAssigned(p, v.value.items, s, fuel); }
      case _ =>
    }
  }

  lemma {:induction false} BlockWrittenIsAssigned(b: seq<Stmt>, s: Store, fuel: nat)
    ensures ExecBlock(b, s, fuel).written <= AssignedIn(b)
    decreases fuel, b, 0
  {
    if b != [] {
      WrittenIsAssigned(b[0], s, fuel);
      var o := Exec(b[0], s, fuel);
      if o.status == Done { BlockWrittenIsAssigned(b[1..], o.store, fuel); }
    }
  }

  lemma {:induction false} WhileWrittenIsAssigned(p: Stmt, s: Store, fuel: nat)
    requires p.While?
    ensures ExecWhile(p, s, fuel).written <= Assigned(p)
    decreases fuel, p, 1
  {
    BlockWrittenIsAssigned(p.orelse, s, fuel);
    BlockWrittenIsAssigned(p.body, s, fuel);
    var o := ExecBlock(p.body, s, fuel);
    if fuel > 0 && o.status == Done { WhileWrittenIsAssigned(p, o.store, fuel - 1); }
  }

  lemma {:induction false} ForWrittenIsAssigned(p: Stmt, items: seq<Value>, s: Store, fuel: nat)
    requires p.For?
    ensures ExecFor(p, items, s, fuel).written <= Assigned(p)
    decreases fuel, p, 1, |items|
  {
    if items == [] {
      BlockWrittenIsAssigned(p.orelse, s, fuel);
    } else {
      var bound := Bind(p.target, items[0], s);
      if bound.Some? {
        BlockWrittenIsAssigned(p.body, bound.value, fuel);
        var o := ExecBlock(p.body, bound.value, fuel);
        if o.status == Done { ForWrittenIsAssigned(p, items[1..], o.store, fuel); }
      }
    }
  }

  lemma {:induction false} DeadGrows(b: seq<Stmt>, dead: set<Ref>, k: nat, keep: bool)
    ensures dead <= BlockEffect(b, dead, k, keep).dead
    decreases |b|
  {
    if b != [] { DeadGrows(b[1..], StmtEffect(b[0], dead, k, keep).dead, k, keep); }
  }

  ghost predicate Recorded(refs: set<Ref>, eff: Effect) { refs <= eff.dead + eff.modified + Refs(eff.live) }

  lemma {:induction false} AssignedIsRecorded(p: Stmt, dead: set<Ref>, k: nat, keep: bool)
    ensures Recorded(Assigned(p), StmtEffect(p, dead, k, keep))
    decreases p, 1
  {
    if p.Augment? {
      assert Ref(p.x, []) in dead || LiveRef(Ref(p.x, []), k, false) in ExprLive(Var(p.x), false, dead, k, keep);
    } else if p.If? || p.While? || p.For? {
      BlockAssignedIsRecorded(p.body, Bound(p), k, keep);
      BlockAssignedIsRecorded(p.orelse, {}, k, keep);
      DeadGrows(p.body, Bound(p), k, keep);
      JoinRecords(AssignedIn(p.body) + Bound(p), AssignedIn(p.orelse), ExprLive(Head(p), false, dead, k, keep),
                  BlockEffect(p.body, Bound(p), k, keep), BlockEffect(p.orelse, {}, k, keep), dead);
    } else if p.Annotate? {
      SingleTarget(p.x, Num(0), map[]);
    }
  }

  lemma {:induction false} JoinRecords(inBody: set<Ref>, inElse: set<Ref>, head: set<LiveRef>, b: Effect, o: Effect,
                                       dead: set<Ref>)
    requires Recorded(inBody, b) && Recorded(inElse, o)
    ensures Recorded(inBody + inElse, Join(head, b, o, dead))
  {
    forall r | r in Refs(b.live + o.live) && r !in dead ensures r in Refs(Join(head, b, o, dead).live) {
      var l :| l in b.live + o.live && l.ref == r;
      assert l in Join(head, b, o, dead).live;
    }
  }

  lemma {:induction false} BlockAssignedIsRecorded(b: seq<Stmt>, dead: set<Ref>, k: nat, keep: bool)
    ensures Recorded(AssignedIn(b), BlockEffect(b, dead, k, keep))
    decreases b, 0
  {
    if b != [] {
      var first := StmtEffect(b[0], dead, k, keep);
      AssignedIsRecorded(b[0], dead, k, keep);
      BlockAssignedIsRecorded(b[1..], first.dead, k, keep);
      DeadGrows(b[1..], first.dead, k, keep);
    }
  }

  /** Whatever a run assigns is in the final modified set or was live: modified alone misses the
      references an assignment also reads. */
  lemma {:induction false} WrittenIsModifiedOrLive(body: seq<Stmt>, dead: set<Ref>, k: nat, keep: bool, s: Store,
                                                   fuel: nat)
    ensures var eff := ModuleEffect(body, dead, k, keep);
            ExecBlock(body, s, fuel).written <= eff.modified + eff.dead + Refs(eff.live)
    ensures dead <= ModuleEffect(body, dead, k, keep).dead
    decreases |body|
  {
    if body != [] {
      AssignedIsRecorded(body[0], dead, k, keep);
      WrittenIsAssigned(body[0], s, fuel);
      var first, o := StmtEffect(body[0], dead, k, keep), Exec(body[0], s, fuel);
      WrittenIsModifiedOrLive(body[1..], first.dead, k + 1, keep, o.store, fuel);
    }
  }

  /** What a statement assigns, or annotates without a value. */
  function Named(p: Stmt): set<Ref>
    decreases p, 1
  {
    match p
    case If(_, body, orelse) => NamedIn(body) + NamedIn(orelse)
    case While(_, body, orelse) => NamedIn(body) + NamedIn(orelse)
    case For(t, _, body, orelse) => TargetRefs(t) + NamedIn(body) + NamedIn(orelse)
    case Annotate(x, init) => {Ref(x, [])} + Assigned(p)
    case _ => Assigned(p)
  }

  function NamedIn(b: seq<Stmt>): set<Ref>
    decreases b, 0
  {
    if b == [] then {} else Named(b[0]) + NamedIn(b[1..])
  }

  lemma {:induction false} StmtModifiesNamed(p: Stmt, dead: set<Ref>, k: nat, keep: bool)
    ensures StmtEffect(p, dead, k, keep).modified <= Named(p) && StmtEffect(p, dead, k, keep).dead <= dead + Named(p)
    decreases p, 1
  {
    hide TargetRefs, TargetsRefs, ElementRefs, BlockEffect;
    match p {
      case Augment(x, _, e) => assert ExprLive(Var(x), false, dead, k, keep) == LiveIf(Ref(x, []), dead, k, keep);
      case Annotate(x, _) => SingleTarget(x, Num(0), map[]);
      case If(_, body, orelse) =>
        BlockModifiesNamed(body, {}, k, keep);
        BlockModifiesNamed(orelse, {}, k, keep);
      case While(_, body, orelse) =>
        BlockModifiesNamed(body, {}, k, keep);
        BlockModifiesNamed(orelse, {}, k, keep);
      case For(t, _, body, orelse) =>
        BlockModifiesNamed(body, TargetRefs(t), k, keep);
        BlockModifiesNamed(orelse, {}, k, keep);
      case _ =>
    }
  }

  lemma {:induction false} BlockModifiesNamed(b: seq<Stmt>, dead: set<Ref>, k: nat, keep: bool)
    ensures BlockEffect(b, dead, k, keep).modified <= NamedIn(b)
            && BlockEffect(b, dead, k, keep).dead <= dead + NamedIn(b)
    decreases b, 0
  {
    hide StmtEffect, Named;
    if b != [] {
      StmtModifiesNamed(b[0], dead, k, keep);
      BlockModifiesNamed(b[1..], StmtEffect(b[0], dead, k, keep).dead, k, keep);
    }
  }

  /** Nothing is reported as modified that the cell does not name as a target. */
  lemma {:induction false} ModifiedIsNamed(body: seq<Stmt>, dead: set<Ref>, k: nat, keep: bool)
    ensures var eff := ModuleEffect(body, dead, k, keep); eff.modified + eff.dead <= dead + NamedIn(body)
    decreases |body|
  {
    hide StmtEffect, Named;
    if body != [] {
      StmtModifiesNamed(body[0], dead, k, keep);
      ModifiedIsNamed(body[1..], StmtEffect(body[0], dead, k, keep).dead, k + 1, keep);
    }
  }

  /** ... so a body that reads nothing it assigns, before assigning it, has all its writes in modified. */
  lemma {:induction false} WrittenIsModified(body: seq<Stmt>, dead: set<Ref>, k: nat, keep: bool, s: Store, fuel: nat)
    requires AssignedIn(body) !! Refs(ModuleEffect(body, dead, k, keep).live)
    ensures var eff := ModuleEffect(body, dead, k, keep);
            ExecBlock(body, s, fuel).written <= eff.modified + eff.dead
  {
    hide ModuleEffect, ExecBlock, AssignedIn, Refs;
    WrittenIsModifiedOrLive(body, dead, k, keep, s, fuel);
    BlockWrittenIsAssigned(body, s, fuel);
  }

  /** An assignment records a reference it assigns exactly if it does not read it, or it was dead already. */
  lemma {:induction false} AssignmentIsModifiedExactly(targets: seq<Target>, e: Expr, dead: set<Ref>, k: nat,
                                                       keep: bool,
                                                       r: Ref)
    requires r in Assigned(Assign(targets, e))
    ensures var eff := ModuleEffect([Assign(targets, e)], dead, k, keep);
            r in eff.modified + eff.dead <==> r in dead || r !in Refs(ExprLive(e, false, dead, k, keep))
  {
    hide ExprLive, TargetsRefs, ElementRefs;
    var p := Assign(targets, e);
    var first := StmtEffect(p, dead, k, keep);
    assert [p][1..] == [];
    assert ModuleEffect([p][1..], first.dead, k + 1, keep) == Effect({}, first.dead, {});
  }

  lemma {:induction false} OneStatement(p: Stmt, s: Store)
    ensures ExecBlock([p], s, 0) == Exec(p, s, 0).Then(Stop(Done, Exec(p, s, 0).store)) || Exec(p, s, 0).status != Done
    ensures Exec(p, s, 0).status != Done ==> ExecBlock([p], s, 0) == Exec(p, s, 0)
    ensures var eff, one := ModuleEffect([p], {}, 0, false), StmtEffect(p, {}, 0, false);
            eff.live == one.live && eff.dead == one.dead && eff.modified == one.modified
    ensures SupportedBlock([p]) <==> Supported(p)
  {
    assert [p][1..] == [];
    assert ModuleEffect([], StmtEffect(p, {}, 0, false).dead, 1, false).live == {};
  }

  /** ... and `x = x + 1` is a write that modified really misses. */
  lemma {:induction false} SelfAssignmentIsNotModified(x: Name, s: Store)
    requires x in s && s[x].Num?
    ensures var p := [Assign([NameTarget(x)], BinOp(Add, Var(x), Literal(1)))];
            var eff := ModuleEffect(p, {}, 0, false);
            Ref(x, []) in ExecBlock(p, s, 0).written && Ref(x, []) !in eff.modified + eff.dead
  {
    var e := BinOp(Add, Var(x), Literal(1));
    assert ExprLive(e, false, {}, 0, false) == {LiveRef(Ref(x, []), 0, false)};
    assert Eval(e, s) == Some(Num(s[x].n + 1)) by { assert Eval(Literal(1), s) == Some(Num(1)); }
    SingleTarget(x, Num(s[x].n + 1), s);
    OneStatement(Assign([NameTarget(x)], e), s);
  }

  //////////////////// Exactly when it fails ////////////////////

  ghost predicate Sound(body: seq<Stmt>) {
    var eff := ModuleEffect(body, {}, 0, false);
    forall s1: Store, s2: Store, fuel: nat :: Agree(Refs(eff.live), s1, s2)
      ==> SameRun(ExecBlock(body, s1, fuel), ExecBlock(body, s2, fuel), Refs(eff.live), eff.dead)
  }

  lemma {:induction false} SupportedIsSound(body: seq<Stmt>)
    requires SupportedBlock(body)
    ensures Sound(body)
  {
    var eff := ModuleEffect(body, {}, 0, false);
    forall s1: Store, s2: Store, fuel: nat | Agree(Refs(eff.live), s1, s2)
      ensures SameRun(ExecBlock(body, s1, fuel), ExecBlock(body, s2, fuel), Refs(eff.live), eff.dead)
    {
      LivenessIsSound(body, Refs(eff.live), {}, 0, false, s1, s2, fuel);
    }
  }

  lemma {:induction false} SingleAssignment(y: Name, e: Expr, s: Store)
    ensures var o := ExecBlock([Assign([NameTarget(y)], e)], s, 0);
            Eval(e, s).Some? ==> o.status == Done && o.store == s[y := Eval(e, s).value]
    ensures var eff := ModuleEffect([Assign([NameTarget(y)], e)], {}, 0, false);
            && eff.live == ExprLive(e, false, {}, 0, false)
            && (eff.live == {} ==> Ref(y, []) in eff.dead)
  {
    OneStatement(Assign([NameTarget(y)], e), s);
    SingleTarget(y, if Eval(e, s).Some? then Eval(e, s).value else Num(0), s);
  }

  /** `y = x[i]` is analysed soundly if and only if `x` is not one of the quasiquoting names. */
  lemma {:induction false} QuasiquotedSubscript(y: Name, x: Name, i: nat)
    ensures Sound([Assign([NameTarget(y)], Subscript(Var(x), i))]) <==> x !in QUASIQUOTED
  {
    var e := Subscript(Var(x), i);
    var p := Assign([NameTarget(y)], e);
    if x !in QUASIQUOTED {
      assert SupportedExpr(e, false) && Supported(p);
      OneStatement(p, map[]);
      SupportedIsSound([p]);
    } else {
      QuasiquotedCounterexample(y, x, i);
    }
  }

  lemma {:induction false} QuasiquotedCounterexample(y: Name, x: Name, i: nat)
    requires x in QUASIQUOTED
    ensures !Sound([Assign([NameTarget(y)], Subscript(Var(x), i))])
  {
    var e := Subscript(Var(x), i);
    var body := [Assign([NameTarget(y)], e)];
    var s1, s2: Store := map[x := Tup(seq(i + 1, _ => Num(1)))], map[x := Tup(seq(i + 1, _ => Num(2)))];
    assert Eval(e, s1) == Some(Num(1)) && Eval(e, s2) == Some(Num(2)) by {
      assert Eval(Var(x), s1) == Some(s1[x]) && Eval(Var(x), s2) == Some(s2[x]);
    }
    SingleAssignment(y, e, s1);
    SingleAssignment(y, e, s2);
    var eff := ModuleEffect(body, {}, 0, false);
    assert eff.live == {} && Agree(Refs(eff.live), s1, s2);
    var o1, o2 := ExecBlock(body, s1, 0), ExecBlock(body, s2, 0);
    hide ExecBlock, ModuleEffect;
    assert Ref(y, []) in eff.dead && Lookup(o1.store, Ref(y, [])) != Lookup(o2.store, Ref(y, []));
  }

  /** An annotation kills its name, but assigns it if and only if it has a value. */
  lemma {:induction false} BareAnnotationKills(x: Name, init: Option<Expr>)
    ensures (forall s: Store, fuel: nat :: Exec(Annotate(x, init), s, fuel).status == Done ==>
               StmtEffect(Annotate(x, init), {}, 0, false).dead <= Exec(Annotate(x, init), s, fuel).written)
            <==> init.Some?
  {
    var p := Annotate(x, init);
    if init.Some? {
      forall s: Store, fuel: nat | Exec(p, s, fuel).status == Done
        ensures StmtEffect(p, {}, 0, false).dead <= Exec(p, s, fuel).written
      {
        DeadIsWrittenStmt(p, {}, 0, false, s, fuel);
      }
    } else {
      assert TargetsRefs([NameTarget(x)]) == {Ref(x, [])} by { assert [NameTarget(x)][1..] == []; }
      var s: Store := map[];
      assert Exec(p, s, 0).status == Done && Exec(p, s, 0).written == {};
      assert Ref(x, []) in StmtEffect(p, {}, 0, false).dead;
      assert !(StmtEffect(p, {}, 0, false).dead <= Exec(p, s, 0).written);
    }
  }

  /** ... so a read after the annotation is analysed soundly if and only if it has a value. */
  lemma {:induction false} BareAnnotationHidesRead(x: Name, init: Option<Expr>, y: Name)
    requires init.Some? ==> SupportedExpr(init.value, false)
    ensures Sound([Annotate(x, init), Assign([NameTarget(y)], Var(x))]) <==> init.Some?
  {
    var a, p := Annotate(x, init), Assign([NameTarget(y)], Var(x));
    if init.Some? {
      assert [a, p][1..] == [p] && [p][1..] == [] && Supported(a) && Supported(p);
      assert SupportedBlock([p]);
      SupportedIsSound([a, p]);
    } else {
      BareAnnotationCounterexample(x, y);
    }
  }

  lemma {:induction false} BareAnnotationCounterexample(x: Name, y: Name)
    ensures !Sound([Annotate(x, None), Assign([NameTarget(y)], Var(x))])
  {
    var a, p := Annotate(x, None), Assign([NameTarget(y)], Var(x));
    var body, s1, s2 := [a, p], map[x := Num(1)], map[x := Num(2)];
    assert body[1..] == [p] && [p][1..] == [];
    var eff := ModuleEffect(body, {}, 0, false);
    SingleTarget(x, Num(1), s1);
    SingleTarget(y, Num(1), s1);
    SingleTarget(y, Num(2), s2);
    var first, second := StmtEffect(a, {}, 0, false), StmtEffect(p, {Ref(x, [])}, 1, false);
    assert first == Effect({}, {Ref(x, [])}, {});
    assert second.live == {} && Ref(y, []) in second.dead;
    assert ModuleEffect([], second.dead, 2, false) == Effect({}, second.dead, {});
    assert ModuleEffect([p], {Ref(x, [])}, 1, false).live == {};
    assert ModuleEffect([p], {Ref(x, [])}, 1, false).dead == second.dead;
    assert eff.live == {} && Ref(y, []) in eff.dead;
    AnnotatedRun(x, y, s1);
    AnnotatedRun(x, y, s2);
    var o1, o2 := ExecBlock(body, s1, 0), ExecBlock(body, s2, 0);
    hide ExecBlock, ModuleEffect;
    assert Agree(Refs(eff.live), s1, s2);
    assert Lookup(o1.store, Ref(y, [])) != Lookup(o2.store, Ref(y, []));
  }

  lemma {:induction false} AnnotatedRun(x: Name, y: Name, s: Store)
    requires x in s
    ensures var o := ExecBlock([Annotate(x, None), Assign([NameTarget(y)], Var(x))], s, 0);
            o.status == Done && o.store == s[y := s[x]]
  {
    var a, p := Annotate(x, None), Assign([NameTarget(y)], Var(x));
    assert [a, p][1..] == [p] && [p][1..] == [];
    SingleAssignment(y, Var(x), s);
    assert Exec(a, s, 0) == Stop(Done, s);
  }
}
