/**
 * A break-free fragment of the language the liveness visitor reads, with its meaning, and what the
 * visitor computes for it.
 *
 * Values are numbers and (immutable) tuples. A reference is a name followed by constant subscripts.
 */
module Liveness {
  import opened Wrappers

  type Name = string
  datatype Op = Add | Sub | Less

  datatype Expr =
    | Literal(n: int)
    | Var(x: Name)
    | Subscript(base: Expr, idx: nat)
    | BinOp(op: Op, left: Expr, right: Expr)
    | Tuple(elts: seq<Expr>)

  datatype Target = NameTarget(x: Name) | TupleTarget(elts: seq<Target>)

  datatype Stmt =
    | Evaluate(e: Expr)
    | Assign(targets: seq<Target>, value: Expr)
    | Annotate(x: Name, init: Option<Expr>)
    | Augment(x: Name, op: Op, value: Expr)
    | If(test: Expr, body: seq<Stmt>, orelse: seq<Stmt>)
    | While(test: Expr, body: seq<Stmt>, orelse: seq<Stmt>)
    | For(target: Target, iter: Expr, body: seq<Stmt>, orelse: seq<Stmt>)

  datatype Ref = Ref(name: Name, path: seq<nat>)

  //////////////////// Meaning ////////////////////

  datatype Value = Num(n: int) | Tup(items: seq<Value>)
  type Store = map<Name, Value>

  datatype Status = Done | Raised | OutOfFuel

  /** How a run ended, the store, the branches it took, and the references it assigned. */
  datatype Outcome = Outcome(status: Status, store: Store, taken: seq<bool>, written: set<Ref>) {
    function Then(next: Outcome): Outcome {
      Outcome(next.status, next.store, taken + next.taken, written + next.written)
    }
  }

  function Truthy(v: Value): bool { match v case Num(n) => n != 0 case Tup(items) => |items| > 0 }

  function Apply(op: Op, v: Value, w: Value): Option<Value> {
    match (op, v, w)
    case (Add, Num(m), Num(n)) => Some(Num(m + n))
    case (Add, Tup(s), Tup(t)) => Some(Tup(s + t))
    case (Sub, Num(m), Num(n)) => Some(Num(m - n))
    case (Less, Num(m), Num(n)) => Some(Num(if m < n then 1 else 0))
    case _ => None
  }

  function Item(v: Option<Value>, i: nat): Option<Value> {
    if v.Some? && v.value.Tup? && i < |v.value.items| then Some(v.value.items[i]) else None
  }

  function Eval(e: Expr, s: Store): Option<Value>
    decreases e, 1
  {
    match e
    case Literal(n) => Some(Num(n))
    case Var(x) => if x in s then Some(s[x]) else None
    case Subscript(base, i) => Item(Eval(base, s), i)
    case BinOp(op, l, r) =>
      var v, w := Eval(l, s), Eval(r, s);
      if v.Some? && w.Some? then Apply(op, v.value, w.value) else None
    case Tuple(elts) =>
      var items := EvalAll(elts, s);
      if items.Some? then Some(Tup(items.value)) else None
  }

  function EvalAll(es: seq<Expr>, s: Store): Option<seq<Value>>
    decreases es, 0
  {
    if es == [] then Some([]) else
    var v, rest := Eval(es[0], s), EvalAll(es[1..], s);
    if v.Some? && rest.Some? then Some([v.value] + rest.value) else None
  }

  /** Unpacking assignment; a shape mismatch raises. */
  function Bind(t: Target, v: Value, s: Store): Option<Store>
    decreases t, 1
  {
    match t
    case NameTarget(x) => Some(s[x := v])
    case TupleTarget(elts) =>
      if v.Tup? && |v.items| == |elts| then BindItems(elts, v.items, s) else None
  }

  function BindItems(ts: seq<Target>, vs: seq<Value>, s: Store): Option<Store>
    requires |ts| == |vs|
    decreases ts, 0
  {
    if ts == [] then Some(s) else
    var s' := Bind(ts[0], vs[0], s);
    if s'.Some? then BindItems(ts[1..], vs[1..], s'.value) else None
  }

  function BindTargets(ts: seq<Target>, v: Value, s: Store): Option<Store> {
    if ts == [] then Some(s) else
    var s' := Bind(ts[0], v, s);
    if s'.Some? then BindTargets(ts[1..], v, s'.value) else None
  }

  function TargetRefs(t: Target): set<Ref>
    decreases t, 1
  {
    match t case NameTarget(x) => {Ref(x, [])} case TupleTarget(elts) => TargetsRefs(elts)
  }

  function TargetsRefs(ts: seq<Target>): set<Ref>
    decreases ts, 0
  {
    if ts == [] then {} else TargetRefs(ts[0]) + TargetsRefs(ts[1..])
  }

  /** A tuple literal assigned to a single name also assigns the name's elements. */
  function ElementRefs(targets: seq<Target>, value: Expr): set<Ref> {
    if |targets| == 1 && targets[0].NameTarget? && value.Tuple?
    then set i | 0 <= i < |value.elts| :: Ref(targets[0].x, [i])
    else {}
  }

  function Stop(status: Status, s: Store): Outcome { Outcome(status, s, [], {}) }

  function Store?(bound: Option<Store>, s: Store, refs: set<Ref>): Outcome {
    if bound.Some? then Outcome(Done, bound.value, [], refs) else Stop(Raised, s)
  }

  function Exec(p: Stmt, s: Store, fuel: nat): Outcome
    decreases fuel, p, 2
  {
    match p
    case Evaluate(e) => if Eval(e, s).Some? then Stop(Done, s) else Stop(Raised, s)
    case Assign(targets, e) =>
      var v := Eval(e, s);
      if v.None? then Stop(Raised, s)
      else Store?(BindTargets(targets, v.value, s), s, TargetsRefs(targets) + ElementRefs(targets, e))
    case Annotate(x, init) =>
      if init.None? then Stop(Done, s) else
      var v := Eval(init.value, s);
      if v.None? then Stop(Raised, s)
      else Outcome(Done, s[x := v.value], [], {Ref(x, [])} + ElementRefs([NameTarget(x)], init.value))
    case Augment(x, op, e) =>
      var v := Eval(BinOp(op, Var(x), e), s);
      if v.None? then Stop(Raised, s) else Outcome(Done, s[x := v.value], [], {Ref(x, [])})
    case If(test, body, orelse) =>
      var v := Eval(test, s);
      if v.None? then Stop(Raised, s) else
      Outcome(Done, s, [Truthy(v.value)], {}).Then(ExecBlock(if Truthy(v.value) then body else orelse, s, fuel))
    case While(_, _, _) => ExecWhile(p, s, fuel)
    case For(_, iter, _, _) =>
      var v := Eval(iter, s);
      if v.None? || !v.value.Tup? then Stop(Raised, s) else ExecFor(p, v.value.items, s, fuel)
  }

  function ExecBlock(b: seq<Stmt>, s: Store, fuel: nat): Outcome
    decreases fuel, b, 0
  {
    if b == [] then Stop(Done, s) else
    var o := Exec(b[0], s, fuel);
    if o.status != Done then o else o.Then(ExecBlock(b[1..], o.store, fuel))
  }

  function ExecWhile(p: Stmt, s: Store, fuel: nat): Outcome
    requires p.While?
    decreases fuel, p, 1
  {
    var v := Eval(p.test, s);
    if v.None? then Stop(Raised, s)
    else if !Truthy(v.value) then Outcome(Done, s, [false], {}).Then(ExecBlock(p.orelse, s, fuel))
    else if fuel == 0 then Stop(OutOfFuel, s)
    else
      var o := Outcome(Done, s, [true], {}).Then(ExecBlock(p.body, s, fuel));
      if o.status != Done then o else o.Then(ExecWhile(p, o.store, fuel - 1))
  }

  function ExecFor(p: Stmt, items: seq<Value>, s: Store, fuel: nat): Outcome
    requires p.For?
    decreases fuel, p, 1, |items|
  {
    if items == [] then Outcome(Done, s, [false], {}).Then(ExecBlock(p.orelse, s, fuel)) else
    var bound := Bind(p.target, items[0], s);
    if bound.None? then Stop(Raised, s) else
    var o := Outcome(Done, s, [true], TargetRefs(p.target)).Then(ExecBlock(p.body, bound.value, fuel));
    if o.status != Done then o else o.Then(ExecFor(p, items[1..], o.store, fuel))
  }

  //////////////////// What the visitor computes ////////////////////

  /** A live reference, the module statement it occurs in, and whether it was already killed. */
  datatype LiveRef = LiveRef(ref: Ref, stmt: nat, isKilled: bool)

  /** Names whose one-level subscripts the visitor takes for quasiquotes and skips. */
  const QUASIQUOTED: set<Name> := {"f", "q", "ast_literal", "filter", "ifilter", "map", "imap", "reduce"}

  function Root(e: Expr): Expr { if e.Subscript? then Root(e.base) else e }

  /** The chain of a subscripted name; no chain starts at a literal, a tuple or an operation. */
  function RefOf(e: Expr): Option<Ref> {
    match e
    case Var(x) => Some(Ref(x, []))
    case Subscript(base, i) =>
      var r := RefOf(base);
      if r.Some? then Some(Ref(r.value.name, r.value.path + [i])) else None
    case _ => None
  }

  predicate Killed(r: Ref, dead: set<Ref>) { r in dead || Ref(r.name, []) in dead }

  function LiveIf(r: Ref, dead: set<Ref>, k: nat, keepKilled: bool): set<LiveRef> {
    if Killed(r, dead) && !keepKilled then {} else {LiveRef(r, k, Killed(r, dead))}
  }

  function ExprLive(e: Expr, inAttrsub: bool, dead: set<Ref>, k: nat, keepKilled: bool): set<LiveRef>
    decreases e, 1
  {
    match e
    case Literal(_) => {}
    case Var(x) => if inAttrsub then {} else LiveIf(Ref(x, []), dead, k, keepKilled)
    case Subscript(base, i) =>
      if base.Var? && base.x in QUASIQUOTED then {} else
      (if !inAttrsub && RefOf(e).Some? then LiveIf(RefOf(e).value, dead, k, keepKilled) else {})
      + ExprLive(base, true, dead, k, keepKilled)
    case BinOp(_, l, r) => ExprLive(l, false, dead, k, keepKilled) + ExprLive(r, false, dead, k, keepKilled)
    case Tuple(elts) => ExprsLive(elts, dead, k, keepKilled)
  }

  function ExprsLive(es: seq<Expr>, dead: set<Ref>, k: nat, keepKilled: bool): set<LiveRef>
    decreases es, 0
  {
    if es == [] then {} else ExprLive(es[0], false, dead, k, keepKilled) + ExprsLive(es[1..], dead, k, keepKilled)
  }

  function Refs(live: set<LiveRef>): set<Ref> { set l | l in live :: l.ref }

  /** What one statement adds to `live`, what `dead` becomes, and what it adds to `modified`. */
  datatype Effect = Effect(live: set<LiveRef>, dead: set<Ref>, modified: set<Ref>)

  function AssignEffect(targets: seq<Target>, value: Option<Expr>, dead: set<Ref>, k: nat, keepKilled: bool): Effect {
    var live := if value.Some? then ExprLive(value.value, false, dead, k, keepKilled) else {};
    var killed := TargetsRefs(targets) + if value.Some? then ElementRefs(targets, value.value) else {};
    Effect(live, dead + (killed - Refs(live)), {})
  }

  /** A branch or loop: `b` and `o` are the effects of its body and its else part, each computed
      from its own dead set; `head` is what its test or iterable adds to `live`. */
  function Join(head: set<LiveRef>, b: Effect, o: Effect, dead: set<Ref>): Effect {
    Effect(head + (set l | l in b.live + o.live && l.ref !in dead),
           dead + b.dead * o.dead, b.modified + o.modified + b.dead + o.dead)
  }

  /** The test of a branch or while loop, the iterable of a for loop. */
  function Head(p: Stmt): Expr
    requires p.If? || p.While? || p.For?
  {
    if p.For? then p.iter else p.test
  }

  /** What the body of a branch or loop starts out with as dead: a for loop's targets. */
  function Bound(p: Stmt): set<Ref> { if p.For? then TargetRefs(p.target) else {} }

  function StmtEffect(p: Stmt, dead: set<Ref>, k: nat, keepKilled: bool): Effect
    decreases p, 2
  {
    match p
    case Evaluate(e) => Effect(ExprLive(e, false, dead, k, keepKilled), dead, {})
    case Assign(targets, e) => AssignEffect(targets, Some(e), dead, k, keepKilled)
    case Annotate(x, init) => AssignEffect([NameTarget(x)], init, dead, k, keepKilled)
    case Augment(x, _, e) =>
      var target := ExprLive(Var(x), false, dead, k, keepKilled);
      Effect(target + ExprLive(e, false, dead, k, keepKilled), dead, Refs(target))
    case _ =>
      Join(ExprLive(Head(p), false, dead, k, keepKilled),
           BlockEffect(p.body, Bound(p), k, keepKilled), BlockEffect(p.orelse, {}, k, keepKilled), dead)
  }

  function BlockEffect(b: seq<Stmt>, dead: set<Ref>, k: nat, keepKilled: bool): Effect
    decreases b, 0
  {
    if b == [] then Effect({}, dead, {}) else
    var first := StmtEffect(b[0], dead, k, keepKilled);
    var rest := BlockEffect(b[1..], first.dead, k, keepKilled);
    Effect(first.live + rest.live, rest.dead, first.modified + rest.modified)
  }

  /** At the top level each statement bumps the statement counter. */
  function ModuleEffect(b: seq<Stmt>, dead: set<Ref>, k: nat, keepKilled: bool): Effect
  {
    if b == [] then Effect({}, dead, {}) else
    var first := StmtEffect(b[0], dead, k, keepKilled);
    var rest := ModuleEffect(b[1..], first.dead, k + 1, keepKilled);
    Effect(first.live + rest.live, rest.dead, first.modified + rest.modified)
  }

  /**
   * The visitor itself: it walks the tree updating `live`, `dead` and `modified`, saving and
   * restoring them around branches. Each visit adds exactly what the functions above say.
   */
  class ComputeLiveSymbolRefs {
    var live: set<LiveRef>
    var dead: set<Ref>
    var modified: set<Ref>
    var inAttrsub: bool
    var stmtCounter: nat
    const keepKilled: bool

    constructor (initKilled: set<Ref>, includeKilledLive: bool)
      ensures live == {} && dead == initKilled && modified == {} && !inAttrsub && stmtCounter == 0
      ensures keepKilled == includeKilledLive
    {
      live, dead, modified, inAttrsub, stmtCounter := {}, initKilled, {}, false, 0;
      keepKilled := includeKilledLive;
    }

    method VisitExpr(e: Expr)
      modifies this`live, this`inAttrsub
      ensures live == old(live) + ExprLive(e, old(inAttrsub), dead, stmtCounter, keepKilled)
      ensures inAttrsub == old(inAttrsub)
      decreases e, 1
    {
      var saved := inAttrsub;
      match e {
        case Literal(_) =>
        case Var(x) => if !inAttrsub { AddLive(Ref(x, [])); }
        case Subscript(base, _) =>
          if base.Var? && base.x in QUASIQUOTED { return; }
          if !inAttrsub && !Root(e).BinOp? {
            var r := RefOf(e);
            if r.Some? { AddLive(r.value); }
          }
          RootOfRef(e);
          inAttrsub := true;
          VisitExpr(base);
        case BinOp(_, l, r) =>
          inAttrsub := false;
          VisitExpr(l);
          VisitExpr(r);
        case Tuple(elts) =>
          inAttrsub := false;
          VisitExprs(elts);
      }
      inAttrsub := saved;
    }

    method VisitExprs(es: seq<Expr>)
      requires !inAttrsub
      modifies this`live, this`inAttrsub
      ensures live == old(live) + ExprsLive(es, dead, stmtCounter, keepKilled) && !inAttrsub
      decreases es, 0
    {
      if es != [] {
        VisitExpr(es[0]);
        VisitExprs(es[1..]);
      }
    }

    method AddLive(r: Ref)
      modifies this`live
      ensures live == old(live) + LiveIf(r, dead, stmtCounter, keepKilled)
    {
      var isKilled := r in dead || Ref(r.name, []) in dead;
      if isKilled && !keepKilled { return; }
      live := live + {LiveRef(r, stmtCounter, isKilled)};
    }

    method VisitAssignTarget(t: Target)
      modifies this`dead
      ensures dead == old(dead) + TargetRefs(t)
      decreases t, 1
    {
      match t {
        case NameTarget(x) => dead := dead + {Ref(x, [])};
        case TupleTarget(elts) => VisitAssignTargets(elts);
      }
    }

    method VisitAssignTargets(ts: seq<Target>)
      modifies this`dead
      ensures dead == old(dead) + TargetsRefs(ts)
      decreases ts, 0
    {
      if ts != [] {
        VisitAssignTarget(ts[0]);
        VisitAssignTargets(ts[1..]);
      }
    }

    method VisitAssignImpl(targets: seq<Target>, value: Option<Expr>)
      requires !inAttrsub
      modifies this`live, this`dead, this`inAttrsub
      ensures var eff := AssignEffect(targets, value, old(dead), stmtCounter, keepKilled);
              live == old(live) + eff.live && dead == eff.dead
      ensures !inAttrsub
    {
      var outerLive, outerDead := live, dead;
      live := {};
      if value.Some? { VisitExpr(value.value); }
      var thisLive := live;
      live := outerLive;
      VisitAssignTargets(targets);
      var thisDead := dead;
      if value.Some? { thisDead := thisDead + ElementRefs(targets, value.value); }
      thisDead := thisDead - outerDead - Refs(thisLive);
      live := live + thisLive;
      dead := outerDead + thisDead;
    }

    method VisitAugAssign(x: Name, value: Expr)
      requires !inAttrsub
      modifies this`live, this`modified, this`inAttrsub
      ensures var target := ExprLive(Var(x), false, dead, stmtCounter, keepKilled);
              && live == old(live) + target + ExprLive(value, false, dead, stmtCounter, keepKilled)
              && modified == old(modified) + Refs(target)
      ensures !inAttrsub
    {
      var outerLive := live;
      live := {};
      VisitExpr(Var(x));
      modified := modified + Refs(live);
      VisitExpr(value);
      live := outerLive + live;
    }

    method VisitBranchOrLoop(p: Stmt)
      requires !inAttrsub && (p.If? || p.While? || p.For?)
      modifies this`live, this`dead, this`modified, this`inAttrsub
      ensures var eff := StmtEffect(p, old(dead), stmtCounter, keepKilled);
              live == old(live) + eff.live && dead == eff.dead && modified == old(modified) + eff.modified
      ensures !inAttrsub
      decreases p, 1
    {
      hide ExprLive, TargetRefs, BlockEffect, StmtEffect;
      BranchEffect(p, dead, stmtCounter, keepKilled);
      VisitExpr(Head(p));
      var outerLive, outerDead := live, dead;
      dead := {};
      if p.For? { VisitAssignTarget(p.target); }
      assert dead == Bound(p);
      live := {};
      VisitBlock(p.body);
      var bodyLive, bodyDead := live, dead;
      live, dead := {}, {};
      VisitBlock(p.orelse);
      var newLive := bodyLive + live;
      modified := modified + bodyDead + dead;
      live := outerLive + set l | l in newLive && l.ref !in outerDead;
      dead := outerDead + bodyDead * dead;
    }

    method VisitStmt(p: Stmt)
      requires !inAttrsub
      modifies this`live, this`dead, this`modified, this`inAttrsub
      ensures var eff := StmtEffect(p, old(dead), stmtCounter, keepKilled);
              live == old(live) + eff.live && dead == eff.dead && modified == old(modified) + eff.modified
      ensures !inAttrsub
      decreases p, 2
    {
      match p {
        case Evaluate(e) => VisitExpr(e);
        case Assign(targets, e) => VisitAssignImpl(targets, Some(e));
        case Annotate(x, init) => VisitAssignImpl([NameTarget(x)], init);
        case Augment(x, _, e) => VisitAugAssign(x, e);
        case _ => VisitBranchOrLoop(p);
      }
    }

    method VisitBlock(b: seq<Stmt>)
      requires !inAttrsub
      modifies this`live, this`dead, this`modified, this`inAttrsub
      ensures var eff := BlockEffect(b, old(dead), stmtCounter, keepKilled);
              live == old(live) + eff.live && dead == eff.dead && modified == old(modified) + eff.modified
      ensures !inAttrsub
      decreases b, 0
    {
      if b != [] {
        VisitStmt(b[0]);
        VisitBlock(b[1..]);
      }
    }

    /** The entry point on a whole cell. */
    method VisitModule(body: seq<Stmt>)
      requires !inAttrsub && live == {} && modified == {}
      modifies this
      ensures var eff := ModuleEffect(body, old(dead), old(stmtCounter), keepKilled);
              live == eff.live && dead == eff.dead && modified == eff.modified + eff.dead
    {
      hide StmtEffect, ModuleEffect;
      ghost var start, k := dead, stmtCounter;
      ghost var all := ModuleEffect(body, dead, stmtCounter, keepKilled);
      assert body[0..] == body;
      for i := 0 to |body|
        invariant !inAttrsub && stmtCounter == k + i
        invariant var rest := ModuleEffect(body[i..], dead, stmtCounter, keepKilled);
                  live + rest.live == all.live && rest.dead == all.dead && modified + rest.modified == all.modified
      {
        ModuleUnfolds(body, i, dead, stmtCounter, keepKilled);
        VisitStmt(body[i]);
        stmtCounter := stmtCounter + 1;
      }
      ModuleDone(body, dead, stmtCounter, keepKilled);
      modified := modified + dead;
    }
  }

  lemma {:induction false} BranchEffect(p: Stmt, dead: set<Ref>, k: nat, keepKilled: bool)
    requires p.If? || p.While? || p.For?
    ensures StmtEffect(p, dead, k, keepKilled)
            == Join(ExprLive(Head(p), false, dead, k, keepKilled),
                    BlockEffect(p.body, Bound(p), k, keepKilled), BlockEffect(p.orelse, {}, k, keepKilled), dead)
  {
    hide ExprLive, TargetRefs, BlockEffect;
  }

  lemma {:induction false} ModuleUnfolds(b: seq<Stmt>, i: nat, dead: set<Ref>, k: nat, keepKilled: bool)
    requires i < |b|
    ensures var first := StmtEffect(b[i], dead, k, keepKilled);
            var rest := ModuleEffect(b[i + 1..], first.dead, k + 1, keepKilled);
            ModuleEffect(b[i..], dead, k, keepKilled)
            == Effect(first.live + rest.live, rest.dead, first.modified + rest.modified)
  {
    hide StmtEffect;
    assert b[i..][0] == b[i] && b[i..][1..] == b[i + 1..];
  }

  lemma {:induction false} ModuleDone(b: seq<Stmt>, dead: set<Ref>, k: nat, keepKilled: bool)
    ensures ModuleEffect(b[|b|..], dead, k, keepKilled) == Effect({}, dead, {})
  {
  }

  lemma {:induction false} RootOfRef(e: Expr)
    ensures RefOf(e).Some? ==> !Root(e).BinOp?
  {
    if e.Subscript? { RootOfRef(e.base); }
  }
}
