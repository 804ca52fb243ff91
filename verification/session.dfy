/**
 * A notebook session as the kernel keeps it: registries and stamps updated in place, run by run. Each
 * run is one step of the scheduler's state machine, and running ready cells until none is left ends.
 */
module Session {
  import opened Wrappers
  import opened Scheduler

  /** The symbols that depend on `x`. */
  function Dependents(parents: map<Sym, set<Sym>>, x: Sym): set<Sym> {
    set z | z in parents && x in parents[z]
  }

  /** `m'` is `m` with `v` put under the keys in `keys` but not in `rest`. */
  ghost predicate PutSoFar<V>(m: map<Sym, V>, m': map<Sym, V>, keys: set<Sym>, rest: set<Sym>, v: V) {
    && (forall y :: y in m' <==> y in m || (y in keys && y !in rest))
    && (forall y <- m' :: m'[y] == if y in keys && y !in rest then v else m[y])
  }

  ghost predicate MergedSoFar(m: map<Sym, Value>, m': map<Sym, Value>, writes: map<Sym, Value>, rest: set<Sym>) {
    && (forall y :: y in m' <==> y in m || (y in writes && y !in rest))
    && (forall y <- m' :: m'[y] == if y in writes && y !in rest then writes[y] else m[y])
  }

  ghost predicate DroppedSoFar<V>(m: map<Sym, V>, m': map<Sym, V>, keys: set<Sym>, rest: set<Sym>) {
    && (forall y :: y in m' <==> y in m && !(y in keys && y !in rest))
    && (forall y <- m' :: m'[y] == m[y])
  }

  lemma {:induction false} PutStep<V>(m: map<Sym, V>, m': map<Sym, V>, keys: set<Sym>, rest: set<Sym>, v: V, x: Sym)
    requires PutSoFar(m, m', keys, rest, v) && x in rest && x in keys
    ensures PutSoFar(m, m'[x := v], keys, rest - {x}, v)
  {
  }

  lemma {:induction false} MergeStep(m: map<Sym, Value>, m': map<Sym, Value>, writes: map<Sym, Value>, rest: set<Sym>,
                                     x: Sym)
    requires MergedSoFar(m, m', writes, rest) && x in rest && x in writes
    ensures MergedSoFar(m, m'[x := writes[x]], writes, rest - {x})
  {
  }

  lemma {:induction false} DropStep<V>(m: map<Sym, V>, m': map<Sym, V>, keys: set<Sym>, rest: set<Sym>, x: Sym)
    requires DroppedSoFar(m, m', keys, rest) && x in rest && x in keys
    ensures DroppedSoFar(m, m' - {x}, keys, rest - {x})
  {
  }

  lemma {:induction false} PutDone<V>(m: map<Sym, V>, m': map<Sym, V>, keys: set<Sym>, v: V)
    ensures PutSoFar(m, m, keys, keys, v)
    ensures PutSoFar(m, m', keys, {}, v) ==> m' == Put(m, keys, v)
  {
    if PutSoFar(m, m', keys, {}, v) {
      forall y ensures y in m' <==> y in Put(m, keys, v) {}
    }
  }

  lemma {:induction false} MergeDone(m: map<Sym, Value>, m': map<Sym, Value>, writes: map<Sym, Value>)
    ensures MergedSoFar(m, m, writes, writes.Keys)
    ensures MergedSoFar(m, m', writes, {}) ==> m' == m + writes
  {
  }

  lemma {:induction false} DropDone<V>(m: map<Sym, V>, m': map<Sym, V>, keys: set<Sym>)
    ensures DroppedSoFar(m, m, keys, keys)
    ensures DroppedSoFar(m, m', keys, {}) ==> m' == m - keys
  {
  }

  /** `required'` adds the time `t` for the symbols in `seen'` but not in `seen`. */
  ghost predicate MarkedNow(required: map<Sym, nat>, required': map<Sym, nat>, seen: set<Sym>, seen': set<Sym>,
                            t: nat) {
    && (forall y :: y in required' <==> y in required || (y in seen' && y !in seen))
    && (forall y <- required' :: required'[y] == if y in seen' && y !in seen then t else required[y])
  }

  /** Propagation has seen more symbols, all in `bound`, marked them, and seen all their dependents. */
  ghost predicate Spread(parents: map<Sym, set<Sym>>, bound: set<Sym>, seen: set<Sym>, seen': set<Sym>,
                         required: map<Sym, nat>, required': map<Sym, nat>, t: nat)
  {
    && seen <= seen' <= bound && MarkedNow(required, required', seen, seen', t)
    && (forall y :: y in seen' && y !in seen ==> Dependents(parents, y) <= seen')
  }

  lemma {:induction false} SpreadRefl(parents: map<Sym, set<Sym>>, bound: set<Sym>, seen: set<Sym>,
                                      required: map<Sym, nat>, t: nat)
    requires seen <= bound
    ensures Spread(parents, bound, seen, seen, required, required, t)
  {
  }

  /** First to `seen1`, then to `z`, then on from there until the dependents of `z` are seen. */
  lemma {:induction false} SpreadThen(parents: map<Sym, set<Sym>>, bound: set<Sym>, z: Sym, t: nat,
                                      seen0: set<Sym>, seen1: set<Sym>, seen2: set<Sym>,
                                      required0: map<Sym, nat>, required1: map<Sym, nat>, required2: map<Sym, nat>)
    requires Spread(parents, bound, seen0, seen1, required0, required1, t) && z !in seen1 && z in bound
    requires Spread(parents, bound, seen1 + {z}, seen2, required1[z := t], required2, t)
    requires Dependents(parents, z) <= seen2
    ensures Spread(parents, bound, seen0, seen2, required0, required2, t) && seen1 <= seen2 && z in seen2
  {
    hide Dependents;
  }

  lemma {:induction false} SpreadAfter(parents: map<Sym, set<Sym>>, bound: set<Sym>, t: nat,
                                       seen0: set<Sym>, seen1: set<Sym>, seen2: set<Sym>,
                                       required0: map<Sym, nat>, required1: map<Sym, nat>, required2: map<Sym, nat>)
    requires Spread(parents, bound, seen0, seen1, required0, required1, t)
    requires Spread(parents, bound, seen1, seen2, required1, required2, t)
    ensures Spread(parents, bound, seen0, seen2, required0, required2, t) && seen1 <= seen2
  {
    hide Dependents;
  }

  lemma {:induction false} DependentIsMarked(parents: map<Sym, set<Sym>>, written: set<Sym>, deps: set<Sym>, x: Sym,
                                             z: Sym)
    requires x in written || x in Marked(parents, written, deps)
    requires z in Dependents(parents, x) && z !in written && z !in deps
    ensures z in Marked(parents, written, deps)
  {
    if x in written {
      assert DependencyPath(parents, written, deps, [x, z]);
    } else {
      var p :| DependencyPath(parents, written, deps, p) && p[|p| - 1] == x;
      assert DependencyPath(parents, written, deps, p + [z]);
    }
  }

  /** What is closed under dependents, but for `deps`, holds everything marked. */
  lemma {:induction false} MarkedAreSeen(parents: map<Sym, set<Sym>>, written: set<Sym>, deps: set<Sym>, seen: set<Sym>)
    requires forall x :: x in written || (x in seen && x !in deps) ==> Dependents(parents, x) <= seen
    ensures Marked(parents, written, deps) <= seen
  {
    forall z | z in Marked(parents, written, deps) ensures z in seen {
      var p :| DependencyPath(parents, written, deps, p) && p[|p| - 1] == z;
      PathIsSeen(parents, written, deps, seen, p);
    }
  }

  lemma {:induction false} PathIsSeen(parents: map<Sym, set<Sym>>, written: set<Sym>, deps: set<Sym>, seen: set<Sym>,
                                      p: seq<Sym>)
    requires forall x :: x in written || (x in seen && x !in deps) ==> Dependents(parents, x) <= seen
    requires DependencyPath(parents, written, deps, p)
    ensures p[|p| - 1] in seen
    decreases |p|
  {
    var last := |p| - 1;
    if last > 1 {
      assert DependencyPath(parents, written, deps, p[..last]);
      PathIsSeen(parents, written, deps, seen, p[..last]);
      assert p[..last][last - 1] == p[last - 1];
    }
    assert p[last] in Dependents(parents, p[last - 1]);
  }

  lemma {:induction false} PartsMakeARun(nb: Notebook, s: State, c: CellId, out: Outcome, s': State)
    requires c in nb && out == Execute(nb[c], s)
    requires s'.counter == s.counter + 1 && s'.ctr == s.ctr[c := s'.counter] && s'.cellAt == s.cellAt[s'.counter := c]
    requires s'.ts == Put(s.ts, out.writes.Keys, s'.counter)
    requires s'.parents == Put(s.parents, out.writes.Keys, nb[c].live)
    requires s'.store == s.store + out.writes
    requires s'.required == Put(s.required - out.writes.Keys, Marked(s'.parents, out.writes.Keys, nb[c].live),
             s'.counter)
    requires s'.errors == if out.ok then s.errors - {c} else s.errors + {c}
    ensures s' == Run(nb, s, c)
  {
    hide Put, Marked, Execute;
  }

  class NotebookSession {
    const nb: Notebook
    var counter: nat
    var ctr: map<CellId, nat>
    var cellAt: map<nat, CellId>
    var ts: map<Sym, nat>
    var required: map<Sym, nat>
    var parents: map<Sym, set<Sym>>
    var store: map<Sym, Value>
    var errors: set<CellId>
    var seen: set<Sym>               // of the update being propagated

    function St(): State
      reads this
    {
      State(counter, ctr, cellAt, ts, required, parents, store, errors)
    }

    constructor (notebook: Notebook)
      ensures nb == notebook && St() == Start
    {
      nb, counter, ctr, cellAt, ts, required, parents, store, errors, seen :=
        notebook, 0, map[], map[], map[], map[], map[], map[], {}, {};
    }

    /** One run of a cell, from bumping the counter to marking what became stale. */
    method RunCell(c: CellId)
      requires c in nb
      modifies this
      ensures St() == Run(nb, old(St()), c)
    {
      ghost var s := St();
      hide Put, Marked, Run, Restrict;
      var out := nb[c].run(Restrict(store, nb[c].live));
      assert out == Execute(nb[c], s);
      counter := counter + 1;
      ctr, cellAt := ctr[c := counter], cellAt[counter := c];
      AssignAll(out.writes, nb[c].live);
      MarkDependents(out.writes.Keys, nb[c].live);
      errors := if out.ok then errors - {c} else errors + {c};
      PartsMakeARun(nb, s, c, out, St());
    }

    /** Each assignment stores the value, stamps the symbol, and makes the cell's live symbols its parents. */
    method AssignAll(writes: map<Sym, Value>, live: set<Sym>)
      modifies this`ts, this`required, this`parents, this`store
      ensures ts == Put(old(ts), writes.Keys, counter) && parents == Put(old(parents), writes.Keys, live)
      ensures store == old(store) + writes && required == old(required) - writes.Keys
    {
      var keys := writes.Keys;
      Begun(writes, live, ts, parents, store, required);
      hide Put, PutSoFar, MergedSoFar, DroppedSoFar;
      var rest := keys;
      while rest != {}
        invariant rest <= keys
        invariant PutSoFar(old(ts), ts, keys, rest, counter) && PutSoFar(old(parents), parents, keys, rest, live)
        invariant MergedSoFar(old(store), store, writes, rest) && DroppedSoFar(old(required), required, keys, rest)
        decreases rest
      {
        var x :| x in rest;
        PutStep(old(ts), ts, keys, rest, counter, x);
        PutStep(old(parents), parents, keys, rest, live, x);
        MergeStep(old(store), store, writes, rest, x);
        DropStep(old(required), required, keys, rest, x);
        store, ts, parents := store[x := writes[x]], ts[x := counter], parents[x := live];
        required := required - {x};
        rest := rest - {x};
      }
      PutDone(old(ts), ts, keys, counter);
      PutDone(old(parents), parents, keys, live);
      MergeDone(old(store), store, writes);
      DropDone(old(required), required, keys);
    }

    lemma {:induction false} Begun(writes: map<Sym, Value>, live: set<Sym>, ts0: map<Sym, nat>,
                                   parents0: map<Sym, set<Sym>>, store0: map<Sym, Value>, required0: map<Sym, nat>)
      ensures PutSoFar(ts0, ts0, writes.Keys, writes.Keys, counter)
      ensures PutSoFar(parents0, parents0, writes.Keys, writes.Keys, live)
      ensures MergedSoFar(store0, store0, writes, writes.Keys)
      ensures DroppedSoFar(required0, required0, writes.Keys, writes.Keys)
    {
    }

    /** Marks everything downstream of what was written, without going through what was read. */
    method MarkDependents(written: set<Sym>, deps: set<Sym>)
      modifies this`seen, this`required
      ensures required == Put(old(required), Marked(parents, written, deps), counter)
    {
      seen := written + deps;
      ghost var seen0, bound := seen, written + deps + Marked(parents, written, deps);
      SpreadRefl(parents, bound, seen, required, counter);
      hide Marked, Spread, Dependents;
      var rest := written;
      while rest != {}
        invariant rest <= written && seen0 <= seen
        invariant Spread(parents, bound, seen0, seen, old(required), required, counter)
        invariant forall x <- written :: x in rest || Dependents(parents, x) <= seen
        decreases rest
      {
        var x :| x in rest;
        rest := rest - {x};
        ghost var required1, seen1 := required, seen;
        Propagate(x, written, deps, bound);
        SpreadAfter(parents, bound, counter, seen0, seen1, seen, old(required), required1, required);
      }
      SpreadIsPut(parents, written, deps, seen, old(required), required, counter);
    }

    method Propagate(x: Sym, ghost written: set<Sym>, ghost deps: set<Sym>, ghost bound: set<Sym>)
      requires bound == written + deps + Marked(parents, written, deps) && written + deps <= seen <= bound
      requires x in written || x in Marked(parents, written, deps)
      modifies this`seen, this`required
      ensures Spread(parents, bound, old(seen), seen, old(required), required, counter)
      ensures Dependents(parents, x) <= seen && old(seen) <= seen <= bound
      decreases parents.Keys - seen
    {
      SpreadRefl(parents, bound, seen, required, counter);
      hide Marked, Spread;
      var rest := Dependents(parents, x);
      while rest != {}
        invariant rest <= Dependents(parents, x) && forall z <- Dependents(parents, x) :: z in rest || z in seen
        invariant old(seen) <= seen <= bound
        invariant Spread(parents, bound, old(seen), seen, old(required), required, counter)
        decreases rest
      {
        var z :| z in rest;
        rest := rest - {z};
        if z !in seen {
          DependentIsMarked(parents, written, deps, x, z);
          ghost var required1, seen1 := required, seen;
          seen := seen + {z};
          required := required[z := counter];
          Propagate(z, written, deps, bound);
          SpreadThen(parents, bound, z, counter, old(seen), seen1, seen, old(required), required1, required);
        }
      }
    }

    method PickReady(verdict: Verdict) returns (r: Option<CellId>)
      ensures r.Some? ==> r.value in nb && Ready(nb, St(), verdict, r.value)
      ensures r.None? ==> forall c <- nb :: !Ready(nb, St(), verdict, c)
    {
      hide Ready;
      var rest := nb.Keys;
      while rest != {}
        invariant rest <= nb.Keys && forall c <- nb :: c in rest || !Ready(nb, St(), verdict, c)
        decreases rest
      {
        var c :| c in rest;
        rest := rest - {c};
        if Ready(nb, St(), verdict, c) { return Some(c); }
      }
      r := None;
    }

    /**
     * Reactive execution: run ready cells until there is none. It ends; and if every cell has run,
     * nothing waits any more and the namespace is that of a top-to-bottom run exactly when all names
     * resolve and nothing is left over.
     */
    method RunReactively(verdict: Verdict, ghost order: seq<CellId>)
      requires Notebook?(nb) && SingleWriterAbove(nb) && TopDown(nb, order) && Gated(verdict)
      requires Invariant(nb, St())
      modifies this
      ensures Invariant(nb, St()) && forall c <- nb :: !Ready(nb, St(), verdict, c)
      ensures AllRan(nb, St()) ==> (Quiescent(nb, St(), verdict) && store == TopToBottom(nb, order)
                                    <==> Resolved(nb, St()) && NoLeftovers(nb, St()))
    {
      hide Ready, Quiescent, Resolved, NoLeftovers, AllRan, TopToBottom, Gated, Run, SingleWriterAbove, Notebook?,
        StaleNumber;
      var ready := PickReady(verdict);
      while ready.Some?
        invariant Invariant(nb, St())
        invariant ready.Some? ==> ready.value in nb && Ready(nb, St(), verdict, ready.value)
        invariant ready.None? ==> forall c <- nb :: !Ready(nb, St(), verdict, c)
        decreases StaleNumber(nb, St(), order)
      {
        ghost var s := St();
        RunCell(ready.value);
        ReadyRunDrops(nb, s, verdict, order, ready.value);
        ready := PickReady(verdict);
      }
      if AllRan(nb, St()) { NothingReadyIsRebuilt(nb, St(), verdict, order); }
    }
  }

  lemma {:induction false} SpreadIsPut(parents: map<Sym, set<Sym>>, written: set<Sym>, deps: set<Sym>, seen: set<Sym>,
                                       required: map<Sym, nat>, required': map<Sym, nat>, t: nat)
    requires Spread(parents, written + deps + Marked(parents, written, deps), written + deps, seen, required,
             required', t)
    requires forall x <- written :: Dependents(parents, x) <= seen
    ensures required' == Put(required, Marked(parents, written, deps), t)
  {
    MarkedAreSeen(parents, written, deps, seen);
    MarkedAvoids(parents, written, deps);
    hide Put, Marked;
  }

  lemma {:induction false} MarkedAvoids(parents: map<Sym, set<Sym>>, written: set<Sym>, deps: set<Sym>)
    ensures Marked(parents, written, deps) !! written + deps
  {
  }

  lemma {:induction false} ReadyRunDrops(nb: Notebook, s: State, verdict: Verdict, order: seq<CellId>, r: CellId)
    requires Notebook?(nb) && SingleWriterAbove(nb) && Invariant(nb, s) && TopDown(nb, order)
    requires r in nb && Ready(nb, s, verdict, r)
    ensures Invariant(nb, Run(nb, s, r)) && StaleNumber(nb, Run(nb, s, r), order) < StaleNumber(nb, s, order)
  {
    hide Run, SingleWriterAbove, OutputsKept, ParentsAreLive, CausesKept, Notebook?, Stale;
    RunKeepsInvariant(nb, s, r);
    RunClearsAndStalesOnlyBelow(nb, s, r);
    StaleNumberDrops(nb, s, Run(nb, s, r), order, r);
  }
}
