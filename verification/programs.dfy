/**
 * Cells as programs: what the liveness visitor computes for a cell's text is what the scheduler needs
 * to know about it, so running cells fearlessly holds for the programs themselves.
 */
module Programs {
  import opened Wrappers
  import opened Scheduler
  import L = Liveness
  import LS = LivenessSound

  /** A cell's place and text; a run is interrupted after `fuel` rounds of some loop. */
  datatype Program = Program(position: int, body: seq<L.Stmt>, fuel: nat)

  type Programs = map<CellId, Program>

  function Names(refs: set<L.Ref>): set<Sym> { set r | r in refs :: r.name }

  /** The names of the references live in a cell, as the visitor finds them. */
  function LiveNames(body: seq<L.Stmt>): set<Sym> { Names(L.Refs(L.ModuleEffect(body, {}, 0, false).live)) }

  /** The names some run of the cell may assign. */
  function WrittenNames(body: seq<L.Stmt>): set<Sym> { Names(LS.AssignedIn(body)) }

  /** What a run assigned, and whether it finished. */
  function Result(o: L.Outcome): Outcome { Outcome(Restrict(o.store, Names(o.written)), o.status == L.Done) }

  function CellOf(p: Program): CellSpec {
    CellSpec(p.position, LiveNames(p.body), WrittenNames(p.body),
             (env: map<Sym, Value>) => Result(L.ExecBlock(p.body, env, p.fuel)))
  }

  ghost predicate Implements(nb: Notebook, progs: Programs) {
    && nb.Keys == progs.Keys
    && (forall c <- nb :: nb[c] == CellOf(progs[c]))
    && (forall c <- progs :: LS.SupportedBlock(progs[c].body))
  }

  //////////////////// A run changes just what it assigns ////////////////////

  /** From `s` to `s'` only names of `written` changed, all of which now exist. */
  ghost predicate OnlyWritten(s: L.Store, s': L.Store, written: set<L.Ref>) {
    && (forall r <- written :: L.Ref(r.name, []) in written && r.name in s')
    && (forall x <- s :: x in s')
    && (forall x <- s' :: L.Ref(x, []) in written || (x in s && s'[x] == s[x]))
  }

  lemma {:induction false} OnlyWrittenThen(s: L.Store, s1: L.Store, s2: L.Store, written1: set<L.Ref>,
                                           written2: set<L.Ref>)
    requires OnlyWritten(s, s1, written1) && OnlyWritten(s1, s2, written2)
    ensures OnlyWritten(s, s2, written1 + written2)
  {
  }

  lemma {:induction false} BindWrites(t: L.Target, v: Value, s: L.Store)
    ensures L.Bind(t, v, s).Some? ==> OnlyWritten(s, L.Bind(t, v, s).value, L.TargetRefs(t))
    decreases t, 1
  {
    if t.TupleTarget? && v.Tup? && |v.items| == |t.elts| { BindItemsWrites(t.elts, v.items, s); }
  }

  lemma {:induction false} BindItemsWrites(ts: seq<L.Target>, vs: seq<Value>, s: L.Store)
    requires |ts| == |vs|
    ensures L.BindItems(ts, vs, s).Some? ==> OnlyWritten(s, L.BindItems(ts, vs, s).value, L.TargetsRefs(ts))
    decreases ts, 0
  {
    if ts != [] {
      BindWrites(ts[0], vs[0], s);
      var s1 := L.Bind(ts[0], vs[0], s);
      if s1.Some? {
        BindItemsWrites(ts[1..], vs[1..], s1.value);
        var s2 := L.BindItems(ts[1..], vs[1..], s1.value);
        if s2.Some? { OnlyWrittenThen(s, s1.value, s2.value, L.TargetRefs(ts[0]), L.TargetsRefs(ts[1..])); }
      }
    }
  }

  lemma {:induction false} BindTargetsWrites(ts: seq<L.Target>, v: Value, s: L.Store)
    ensures L.BindTargets(ts, v, s).Some? ==> OnlyWritten(s, L.BindTargets(ts, v, s).value, L.TargetsRefs(ts))
    decreases |ts|
  {
    if ts != [] {
      BindWrites(ts[0], v, s);
      var s1 := L.Bind(ts[0], v, s);
      if s1.Some? {
        BindTargetsWrites(ts[1..], v, s1.value);
        var s2 := L.BindTargets(ts[1..], v, s1.value);
        if s2.Some? { OnlyWrittenThen(s, s1.value, s2.value, L.TargetRefs(ts[0]), L.TargetsRefs(ts[1..])); }
      }
    }
  }

  lemma {:induction false} ElementsToo(targets: seq<L.Target>, e: L.Expr, s: L.Store, s': L.Store)
    requires OnlyWritten(s, s', L.TargetsRefs(targets))
    ensures OnlyWritten(s, s', L.TargetsRefs(targets) + L.ElementRefs(targets, e))
  {
    forall r | r in L.ElementRefs(targets, e) ensures L.Ref(r.name, []) in L.TargetsRefs(targets) {
      assert targets[1..] == [];
    }
  }

  lemma {:induction false} StmtWrites(p: L.Stmt, s: L.Store, fuel: nat)
    ensures OnlyWritten(s, L.Exec(p, s, fuel).store, L.Exec(p, s, fuel).written)
    decreases fuel, p, 2
  {
    match p {
      case Evaluate(_) =>
      case Assign(targets, e) =>
        var v := L.Eval(e, s);
        if v.Some? {
          BindTargetsWrites(targets, v.value, s);
          var bound := L.BindTargets(targets, v.value, s);
          if bound.Some? { ElementsToo(targets, e, s, bound.value); }
        }
      case Annotate(x, init) =>
        if init.Some? { AnnotateWrites(x, init.value, s, fuel); }
      case Augment(_, _, _) =>
      case If(test, body, orelse) =>
        BlockWrites(body, s, fuel);
        BlockWrites(orelse, s, fuel);
      case While(_, _, _) => WhileWrites(p, s, fuel);
      case For(_, iter, _, _) =>
        var v := L.Eval(iter, s);
        if v.Some? && v.value.Tup? { ForWrites(p, v.value.items, s, fuel); }
    }
  }

  lemma {:induction false} AnnotateWrites(x: L.Name, e: L.Expr, s: L.Store, fuel: nat)
    ensures var o := L.Exec(L.Annotate(x, Some(e)), s, fuel); OnlyWritten(s, o.store, o.written)
  {
    var v := L.Eval(e, s);
    if v.Some? {
      LS.SingleTarget(x, v.value, s);
      ElementsToo([L.NameTarget(x)], e, s, s[x := v.value]);
    }
  }

  lemma {:induction false} BlockWrites(b: seq<L.Stmt>, s: L.Store, fuel: nat)
    ensures OnlyWritten(s, L.ExecBlock(b, s, fuel).store, L.ExecBlock(b, s, fuel).written)
    decreases fuel, b, 0
  {
    if b != [] {
      StmtWrites(b[0], s, fuel);
      var o := L.Exec(b[0], s, fuel);
      if o.status == L.Done {
        BlockWrites(b[1..], o.store, fuel);
        var rest := L.ExecBlock(b[1..], o.store, fuel);
        OnlyWrittenThen(s, o.store, rest.store, o.written, rest.written);
      }
    }
  }

  lemma {:induction false} WhileWrites(p: L.Stmt, s: L.Store, fuel: nat)
    requires p.While?
    ensures OnlyWritten(s, L.ExecWhile(p, s, fuel).store, L.ExecWhile(p, s, fuel).written)
    decreases fuel, p, 1
  {
    BlockWrites(p.orelse, s, fuel);
    BlockWrites(p.body, s, fuel);
    var o := L.ExecBlock(p.body, s, fuel);
    if fuel > 0 && o.status == L.Done {
      WhileWrites(p, o.store, fuel - 1);
      var rest := L.ExecWhile(p, o.store, fuel - 1);
      OnlyWrittenThen(s, o.store, rest.store, o.written, rest.written);
    }
    WhileUnfolds(p, s, fuel);
  }

  lemma {:induction false} WhileUnfolds(p: L.Stmt, s: L.Store, fuel: nat)
    requires p.While?
    ensures var v, o, w := L.Eval(p.test, s), L.ExecBlock(p.body, s, fuel), L.ExecWhile(p, s, fuel);
            if v.None? || (L.Truthy(v.value) && fuel == 0) then w.store == s && w.written == {}
            else if !L.Truthy(v.value)
            then w.store == L.ExecBlock(p.orelse, s, fuel).store && w.written == L.ExecBlock(p.orelse, s, fuel).written
            else if o.status != L.Done then w.store == o.store && w.written == o.written
            else var rest := L.ExecWhile(p, o.store, fuel - 1);
                 w.store == rest.store && w.written == o.written + rest.written
  {
    hide L.Eval, L.ExecBlock;
  }

  lemma {:induction false} ForWrites(p: L.Stmt, items: seq<Value>, s: L.Store, fuel: nat)
    requires p.For?
    ensures OnlyWritten(s, L.ExecFor(p, items, s, fuel).store, L.ExecFor(p, items, s, fuel).written)
    decreases fuel, p, 1, |items|
  {
    if items == [] {
      BlockWrites(p.orelse, s, fuel);
    } else {
      var bound := L.Bind(p.target, items[0], s);
      if bound.Some? {
        BindWrites(p.target, items[0], s);
        BlockWrites(p.body, bound.value, fuel);
        var o := L.ExecBlock(p.body, bound.value, fuel);
        OnlyWrittenThen(s, bound.value, o.store, L.TargetRefs(p.target), o.written);
        if o.status == L.Done {
          ForWrites(p, items[1..], o.store, fuel);
          var rest := L.ExecFor(p, items[1..], o.store, fuel);
          OnlyWrittenThen(s, o.store, rest.store, L.TargetRefs(p.target) + o.written, rest.written);
        }
      }
    }
  }

  //////////////////// A cell sees its live names only ////////////////////

  lemma {:induction false} CellIsWellFormed(p: Program)
    ensures WellFormed(CellOf(p))
  {
    forall env: map<Sym, Value> ensures CellOf(p).run(env).writes.Keys <= CellOf(p).writes {
      var o := L.ExecBlock(p.body, env, p.fuel);
      LS.BlockWrittenIsAssigned(p.body, env, p.fuel);
      hide L.ExecBlock, LS.AssignedIn;
      assert CellOf(p).run(env) == Result(o);
    }
  }

  lemma {:induction false} AgreeOnLive(env: L.Store, live: set<Sym>, refs: set<L.Ref>)
    requires Names(refs) <= live
    ensures LS.Agree(refs, Restrict(env, live), env)
  {
    forall r | r in refs ensures LS.Lookup(Restrict(env, live), r) == LS.Lookup(env, r) {
      assert r.name in Names(refs);
      LS.RootDecides(r.name, r.path, Restrict(env, live), env);
    }
  }

  /** Runs that agree on what they assigned have the same result. */
  lemma {:induction false} SameResult(o1: L.Outcome, o2: L.Outcome, s1: L.Store, s2: L.Store)
    requires o1.written == o2.written && o1.status == o2.status && LS.Agree(o1.written, o1.store, o2.store)
    requires OnlyWritten(s1, o1.store, o1.written) && OnlyWritten(s2, o2.store, o2.written)
    ensures Result(o1) == Result(o2)
  {
    var w1, w2 := Result(o1).writes, Result(o2).writes;
    forall x | x in Names(o1.written) ensures x in o1.store && x in o2.store && o1.store[x] == o2.store[x] {
      var r :| r in o1.written && r.name == x;
      assert LS.Lookup(o1.store, L.Ref(x, [])) == LS.Lookup(o2.store, L.Ref(x, []));
    }
    assert w1 == w2;
  }

  /** Run on its live names alone, a cell assigns what it would in the whole namespace, with the same values. */
  lemma {:induction false} CellSeesLiveOnly(p: Program, env: L.Store)
    requires LS.SupportedBlock(p.body)
    ensures CellOf(p).run(Restrict(env, LiveNames(p.body))) == Result(L.ExecBlock(p.body, env, p.fuel))
  {
    hide L.ExecBlock, L.ModuleEffect, LS.SupportedBlock, Restrict, OnlyWritten, LS.Agree;
    var part, eff := Restrict(env, LiveNames(p.body)), L.ModuleEffect(p.body, {}, 0, false);
    AgreeOnLive(env, LiveNames(p.body), L.Refs(eff.live));
    LS.LivenessIsSound(p.body, L.Refs(eff.live), {}, 0, false, part, env, p.fuel);
    var o1, o2 := L.ExecBlock(p.body, part, p.fuel), L.ExecBlock(p.body, env, p.fuel);
    BlockWrites(p.body, part, p.fuel);
    BlockWrites(p.body, env, p.fuel);
    LS.AgreeUnion(L.Refs(eff.live), o1.written, o1.store, o2.store);
    SameResult(o1, o2, part, env);
  }

  /** A run's result is all that changes in the namespace. */
  lemma {:induction false} ResultIsAll(o: L.Outcome, env: L.Store)
    requires OnlyWritten(env, o.store, o.written)
    ensures o.store == env + Result(o).writes
  {
    var s' := env + Result(o).writes;
    forall x | x in o.store ensures x in s' && s'[x] == o.store[x] {
      if L.Ref(x, []) in o.written { assert x in Names(o.written); }
    }
  }

  //////////////////// Fearless execution of programs ////////////////////

  /** The namespace after running the programs, one after another, each on the namespace as it then is. */
  function Namespace(progs: Programs, env: L.Store, runs: seq<CellId>): L.Store
    requires forall c <- runs :: c in progs
    decreases |runs|
  {
    if runs == [] then env
    else Namespace(progs, L.ExecBlock(progs[runs[0]].body, env, progs[runs[0]].fuel).store, runs[1..])
  }

  lemma {:induction false} RunIsProgram(nb: Notebook, progs: Programs, s: State, c: CellId)
    requires Implements(nb, progs) && c in nb
    ensures Run(nb, s, c).store == L.ExecBlock(progs[c].body, s.store, progs[c].fuel).store
  {
    hide L.ExecBlock, Marked, Put, Restrict, OnlyWritten, LiveNames, LS.SupportedBlock;
    var p := progs[c];
    CellSeesLiveOnly(p, s.store);
    BlockWrites(p.body, s.store, p.fuel);
    ResultIsAll(L.ExecBlock(p.body, s.store, p.fuel), s.store);
    RecordStores(s, c, nb[c].live, Execute(nb[c], s));
  }

  lemma {:induction false} SessionIsPrograms(nb: Notebook, progs: Programs, s: State, runs: seq<CellId>)
    requires Implements(nb, progs) && forall c <- runs :: c in nb
    ensures RunAll(nb, s, runs).store == Namespace(progs, s.store, runs)
    decreases |runs|
  {
    hide Run, Implements, L.ExecBlock;
    assert nb.Keys == progs.Keys by { SameCells(nb, progs); }
    if runs != [] {
      RunIsProgram(nb, progs, s, runs[0]);
      SessionIsPrograms(nb, progs, Run(nb, s, runs[0]), runs[1..]);
    }
  }

  lemma {:induction false} SameCells(nb: Notebook, progs: Programs)
    requires Implements(nb, progs)
    ensures nb.Keys == progs.Keys
  {
  }

  lemma {:induction false} ImplementsNotebook(nb: Notebook, progs: Programs)
    requires Implements(nb, progs)
    requires forall c <- progs, d <- progs :: progs[c].position == progs[d].position ==> c == d
    ensures Notebook?(nb)
  {
    hide WellFormed, LiveNames, WrittenNames, Result, LS.SupportedBlock;
    forall c | c in nb ensures WellFormed(nb[c]) { CellIsWellFormed(progs[c]); }
  }

  /**
   * Fearless execution of programs: after a session in which every cell has run and nothing is ready
   * or waiting, the namespace is the one the programs leave when run once each from the top, in an
   * empty namespace, if and only if nothing is left over.
   */
  lemma {:induction false} FearlessPrograms(nb: Notebook, progs: Programs, session: seq<CellId>, verdict: Verdict,
                                            order: seq<CellId>)
    requires Implements(nb, progs) && SingleWriterAbove(nb) && TopDown(nb, order)
    requires forall c <- progs, d <- progs :: progs[c].position == progs[d].position ==> c == d
    requires forall c <- session :: c in nb
    requires AllRan(nb, RunAll(nb, Start, session)) && Quiescent(nb, RunAll(nb, Start, session), verdict)
    ensures Namespace(progs, map[], session) == Namespace(progs, map[], order)
            <==> NoLeftovers(nb, RunAll(nb, Start, session))
  {
    hide *;
    TopDownIsSession(nb, order);
    SameCells(nb, progs);
    ImplementsNotebook(nb, progs);
    FearlessExactly(nb, session, verdict, order);
    SessionIsPrograms(nb, progs, Start, session);
    SessionIsPrograms(nb, progs, Start, order);
    TopToBottomIsRun(nb, order);
  }

  lemma {:induction false} TopToBottomIsRun(nb: Notebook, order: seq<CellId>)
    requires forall c <- order :: c in nb
    ensures TopToBottom(nb, order) == RunAll(nb, Start, order).store && Start.store == map[]
  {
  }
}
