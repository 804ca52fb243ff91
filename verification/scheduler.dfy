/**
 * The in-order, liveness-based reactive scheduler, as a state machine over whole sessions.
 *
 * A session runs cells in any order. A run bumps the execution counter, evaluates the cell on the
 * values of its live symbols, stamps every symbol it wrote with the new counter and marks the
 * dependents of what it wrote as waiting. After each run the frontend calls a cell ready when one
 * of its live symbols was last written, at or above the cell's position, after the cell last ran.
 */
module Scheduler {
  import L = Liveness

  type CellId = nat
  type Sym = string
  type Value = L.Value

  /** What one run of a cell does: the symbols it managed to write, and whether it finished. */
  datatype Outcome = Outcome(writes: map<Sym, Value>, ok: bool)

  /** A cell's fixed content: its place, the symbols live in it, those it assigns, and its effect. */
  datatype CellSpec = CellSpec(position: int, live: set<Sym>, writes: set<Sym>,
                               run: map<Sym, Value> -> Outcome)

  type Notebook = map<CellId, CellSpec>

  datatype State = State(
    counter: nat,                  // Cell._cell_counter
    ctr: map<CellId, nat>,         // cell_ctr of each executed cell
    cellAt: map<nat, CellId>,      // Cell._cell_by_cell_ctr
    ts: map<Sym, nat>,             // cell number of each symbol's last write
    required: map<Sym, nat>,       // required_timestamp, for symbols marked waiting
    parents: map<Sym, set<Sym>>,   // Symbol.parents
    store: map<Sym, Value>,        // the user namespace
    errors: set<CellId>)           // cells whose last run raised

  const Start := State(0, map[], map[], map[], map[], map[], map[], {})

  function Restrict(m: map<Sym, Value>, keys: set<Sym>): map<Sym, Value> {
    m - (m.Keys - keys)
  }

  /** A run assigns some of the cell's targets: all of them, those on the path taken, or those before an error. */
  ghost predicate WellFormed(c: CellSpec) { forall env :: c.run(env).writes.Keys <= c.writes }

  /** A run that finishes has assigned all targets. */
  ghost predicate AssignsAll(c: CellSpec) { forall env :: c.run(env).ok ==> c.run(env).writes.Keys == c.writes }

  ghost predicate Notebook?(nb: Notebook) {
    && (forall c <- nb :: WellFormed(nb[c]))
    && (forall c <- nb, d <- nb :: nb[c].position == nb[d].position ==> c == d)
  }

  predicate WriterAbove(nb: Notebook, w: CellId, c: CellId, x: Sym)
    requires c in nb
  {
    w in nb && x in nb[w].writes && nb[w].position < nb[c].position
  }

  ghost predicate SingleWriter(nb: Notebook) {
    forall c <- nb, d <- nb :: c != d ==> nb[c].writes !! nb[d].writes
  }

  /** Each symbol is assigned by one cell, placed strictly above every cell that reads it. */
  ghost predicate SingleWriterAbove(nb: Notebook) {
    && SingleWriter(nb)
    && (forall c <- nb, x <- nb[c].live :: exists w :: WriterAbove(nb, w, c, x))
  }

  lemma {:induction false} ReadersBelow(nb: Notebook, r: CellId, c: CellId)
    requires SingleWriterAbove(nb) && r in nb && c in nb
    ensures nb[r].position >= nb[c].position ==> nb[c].live !! nb[r].writes
  {
    forall x | x in nb[c].live && x in nb[r].writes ensures nb[r].position < nb[c].position {
      var w :| WriterAbove(nb, w, c, x);
    }
  }

  //////////////////// One step ////////////////////

  /** A dependency path from a just-written symbol to `z` that never enters a blocked symbol. */
  ghost predicate DependencyPath(parents: map<Sym, set<Sym>>, written: set<Sym>, blocked: set<Sym>,
                                 p: seq<Sym>) {
    && |p| >= 2 && p[0] in written
    && (forall i :: 0 < i < |p| ==> p[i] !in written && p[i] !in blocked
                                    && p[i] in parents && p[i - 1] in parents[p[i]])
  }

  /** The symbols update propagation marks as waiting after `written` were assigned from `deps`. */
  ghost function Marked(parents: map<Sym, set<Sym>>, written: set<Sym>, deps: set<Sym>): set<Sym> {
    set z | z in parents
            && exists p :: DependencyPath(parents, written, deps, p) && p[|p| - 1] == z
  }

  /** `m` with every key in `keys` set to `v`. */
  ghost function Put<V>(m: map<Sym, V>, keys: set<Sym>, v: V): (r: map<Sym, V>)
    ensures r.Keys == m.Keys + keys
    ensures forall x <- r :: r[x] == if x in keys then v else m[x]
    decreases |keys|
  {
    if keys == {} then m else
    var k :| k in keys;
    Put(m[k := v], keys - {k}, v)
  }

  function Execute(c: CellSpec, s: State): Outcome { c.run(Restrict(s.store, c.live)) }

  /** The bookkeeping of one run of `c` that read `live` and had the outcome `out`. */
  ghost function Record(s: State, c: CellId, live: set<Sym>, out: Outcome): State {
    var t, written := s.counter + 1, out.writes.Keys;
    var parents := Put(s.parents, written, live);
    State(t, s.ctr[c := t], s.cellAt[t := c], Put(s.ts, written, t),
          Put(s.required - written, Marked(parents, written, live), t), parents,
          s.store + out.writes, if out.ok then s.errors - {c} else s.errors + {c})
  }

  ghost function Run(nb: Notebook, s: State, c: CellId): State
    requires c in nb
  {
    Record(s, c, nb[c].live, Execute(nb[c], s))
  }

  ghost function RunAll(nb: Notebook, s: State, runs: seq<CellId>): State
    requires forall c <- runs :: c in nb
    decreases |runs|
  {
    if runs == [] then s else RunAll(nb, Run(nb, s, runs[0]), runs[1..])
  }

  //////////////////// The frontend's verdicts ////////////////////

  function Ctr(s: State, c: CellId): int { if c in s.ctr then s.ctr[c] else -1 }

  /** `x` was last written by a cell at or above position `pos`. */
  predicate WrittenAtOrAbove(nb: Notebook, s: State, x: Sym, pos: int) {
    x in s.ts && s.ts[x] in s.cellAt && s.cellAt[s.ts[x]] in nb
    && nb[s.cellAt[s.ts[x]]].position <= pos
  }

  /** Some live symbol was written, at or above the cell, after the cell last ran. */
  predicate Stale(nb: Notebook, s: State, c: CellId)
    requires c in nb
  {
    exists x :: x in nb[c].live && WrittenAtOrAbove(nb, s, x, nb[c].position) && s.ts[x] > Ctr(s, c)
  }

  predicate SymbolWaiting(s: State, x: Sym) { x in s.ts && x in s.required && s.ts[x] < s.required[x] }

  /** Answers `is_waiting_at_position`; the only thing relied on is that it first asks `is_waiting`. */
  type Verdict = (State, Sym, int) -> bool

  ghost predicate Gated(verdict: Verdict) {
    forall s, x, pos :: verdict(s, x, pos) ==> SymbolWaiting(s, x)
  }

  predicate Waiting(nb: Notebook, s: State, verdict: Verdict, c: CellId)
    requires c in nb
  {
    exists x :: x in nb[c].live && (x !in s.ts || verdict(s, x, nb[c].position))
  }

  predicate Ready(nb: Notebook, s: State, verdict: Verdict, c: CellId)
    requires c in nb
  {
    !Waiting(nb, s, verdict, c) && Stale(nb, s, c)
  }

  /** A reactive run: every cell was ready when it was run. */
  ghost predicate ReadyRun(nb: Notebook, s: State, verdict: Verdict, runs: seq<CellId>)
    decreases |runs|
  {
    runs != [] ==> runs[0] in nb && Ready(nb, s, verdict, runs[0])
                   && ReadyRun(nb, Run(nb, s, runs[0]), verdict, runs[1..])
  }

  //////////////////// Reactive execution terminates ////////////////////

  ghost predicate Consistent(nb: Notebook, s: State) {
    && (forall c <- s.ctr :: c in nb && s.ctr[c] <= s.counter
                             && s.ctr[c] in s.cellAt && s.cellAt[s.ctr[c]] == c)
    && (forall n <- s.cellAt :: 0 < n <= s.counter && s.cellAt[n] in nb)
    && (forall x <- s.ts :: s.ts[x] in s.cellAt && x in nb[s.cellAt[s.ts[x]]].writes)
    && (forall x <- s.required :: s.required[x] <= s.counter)
  }

  lemma {:induction false} RunConsistent(nb: Notebook, s: State, c: CellId)
    requires Notebook?(nb) && Consistent(nb, s) && c in nb
    ensures Consistent(nb, Run(nb, s, c))
  {
    assert WellFormed(nb[c]);
    RecordConsistent(nb, s, c, Execute(nb[c], s));
  }

  lemma {:induction false} RecordConsistent(nb: Notebook, s: State, c: CellId, out: Outcome)
    requires Consistent(nb, s) && c in nb && out.writes.Keys <= nb[c].writes
    ensures Consistent(nb, Record(s, c, nb[c].live, out))
  {
    hide Marked, Put;
  }

  /** The cells of the notebook from top to bottom. */
  ghost predicate TopDown(nb: Notebook, order: seq<CellId>) {
    && (forall c <- nb :: c in order)
    && (forall c <- order :: c in nb)
    && (forall i, j :: 0 <= i < j < |order| ==> nb[order[i]].position < nb[order[j]].position)
  }

  function Pow2(n: nat): (r: nat) ensures r > 0 { if n == 0 then 1 else 2 * Pow2(n - 1) }

  /** The stale bits read from the top as one binary number. */
  function StaleNumber(nb: Notebook, s: State, order: seq<CellId>): nat
    requires forall c <- order :: c in nb
    decreases |order|
  {
    if order == [] then 0 else
    (if Stale(nb, s, order[0]) then Pow2(|order| - 1) else 0) + StaleNumber(nb, s, order[1..])
  }

  lemma {:induction false} StaleNumberBound(nb: Notebook, s: State, order: seq<CellId>)
    requires forall c <- order :: c in nb
    ensures StaleNumber(nb, s, order) < Pow2(|order|)
    decreases |order|
  {
    if order != [] { StaleNumberBound(nb, s, order[1..]); }
  }

  lemma {:induction false} RecordStalesOnlyBelow(nb: Notebook, s: State, r: CellId, out: Outcome, c: CellId)
    requires Consistent(nb, s) && r in nb && c in nb
    requires Stale(nb, Record(s, r, nb[r].live, out), c) && !Stale(nb, s, c)
    ensures c != r && nb[c].position >= nb[r].position
  {
    var s' := Record(s, r, nb[r].live, out);
    var x :| x in nb[c].live && WrittenAtOrAbove(nb, s', x, nb[c].position) && s'.ts[x] > Ctr(s', c);
    if x !in out.writes {
      assert WrittenAtOrAbove(nb, s, x, nb[c].position);
    }
  }

  /** Running a stale cell clears it, and can make only cells strictly below it stale. */
  lemma {:induction false} RunClearsAndStalesOnlyBelow(nb: Notebook, s: State, r: CellId)
    requires Notebook?(nb) && Consistent(nb, s) && r in nb
    ensures !Stale(nb, Run(nb, s, r), r)
    ensures forall c <- nb :: Stale(nb, Run(nb, s, r), c) && !Stale(nb, s, c)
                              ==> nb[c].position > nb[r].position
  {
    RunConsistent(nb, s, r);
    forall c | c in nb && Stale(nb, Run(nb, s, r), c) && !Stale(nb, s, c)
      ensures nb[c].position > nb[r].position
    {
      RecordStalesOnlyBelow(nb, s, r, Execute(nb[r], s), c);
    }
  }

  lemma {:induction false} StaleNumberDrops(nb: Notebook, s: State, s': State, order: seq<CellId>, r: CellId)
    requires forall c <- order :: c in nb
    requires forall i, j :: 0 <= i < j < |order| ==> nb[order[i]].position < nb[order[j]].position
    requires r in order && Stale(nb, s, r) && !Stale(nb, s', r)
    requires forall c <- nb :: Stale(nb, s', c) && !Stale(nb, s, c) ==> nb[c].position > nb[r].position
    ensures StaleNumber(nb, s', order) < StaleNumber(nb, s, order)
    decreases |order|
  {
    if order[0] == r {
      StaleNumberBound(nb, s', order[1..]);
    } else {
      StaleNumberDrops(nb, s, s', order[1..], r);
    }
  }

  /** Reactive execution terminates: from any state, fewer than 2^n runs of ready cells are possible. */
  lemma {:induction false} ReactiveRunsAreFinite(nb: Notebook, s: State, verdict: Verdict,
                                                 order: seq<CellId>, runs: seq<CellId>)
    requires Notebook?(nb) && Consistent(nb, s) && TopDown(nb, order)
    requires ReadyRun(nb, s, verdict, runs)
    ensures |runs| <= StaleNumber(nb, s, order) < Pow2(|order|)
    decreases |runs|
  {
    StaleNumberBound(nb, s, order);
    if runs != [] {
      var s' := Run(nb, s, runs[0]);
      RunConsistent(nb, s, runs[0]);
      RunClearsAndStalesOnlyBelow(nb, s, runs[0]);
      StaleNumberDrops(nb, s, s', order, runs[0]);
      ReactiveRunsAreFinite(nb, s', verdict, order, runs[1..]);
    }
  }

  //////////////////// What every session keeps ////////////////////

  /** No live symbol of `c` was written since `c` last ran. */
  predicate UpToDate(nb: Notebook, s: State, c: CellId)
    requires c in nb
  {
    c in s.ctr && forall x <- nb[c].live :: x in s.ts ==> s.ts[x] < s.ctr[c]
  }

  /** An up-to-date cell's outputs are those of running it on the present store: it would assign just
      the symbols that carry the stamp of its last run, and the same values. */
  ghost predicate OutputsCurrent(nb: Notebook, s: State, c: CellId)
    requires c in nb && c in s.ctr
  {
    var out := Execute(nb[c], s);
    && (forall x <- nb[c].writes :: x in out.writes <==> x in s.ts && s.ts[x] == s.ctr[c])
    && (forall x <- out.writes :: x in s.store && s.store[x] == out.writes[x])
    && (out.ok <==> c !in s.errors)
  }

  ghost predicate OutputsKept(nb: Notebook, s: State)
    requires Consistent(nb, s)
  {
    forall c <- s.ctr :: UpToDate(nb, s, c) ==> OutputsCurrent(nb, s, c)
  }

  ghost predicate SameSymbols(s: State) { s.ts.Keys == s.store.Keys == s.parents.Keys }

  /** A symbol's parents are what the cell that wrote it reads. */
  ghost predicate ParentsAreLive(nb: Notebook, s: State)
    requires Consistent(nb, s) && SameSymbols(s)
  {
    forall x <- s.ts :: s.parents[x] == nb[s.cellAt[s.ts[x]]].live
  }

  /** A waiting symbol has a parent that is newer than it or itself waiting. */
  ghost predicate WaitingHasCause(s: State, x: Sym)
  {
    x in s.parents && exists p :: p in s.parents[x] && p in s.ts && x in s.ts
                                  && (s.ts[p] > s.ts[x] || SymbolWaiting(s, p))
  }

  ghost predicate CausesKept(s: State) {
    forall x <- s.ts :: SymbolWaiting(s, x) ==> WaitingHasCause(s, x)
  }

  ghost predicate Invariant(nb: Notebook, s: State) {
    && Consistent(nb, s) && SameSymbols(s)
    && OutputsKept(nb, s) && ParentsAreLive(nb, s) && CausesKept(s)
  }

  /** `s'` is `s` after a run of `r` with outcome `out`, as far as stamps and values go. */
  ghost predicate Follows(s: State, s': State, r: CellId, live: set<Sym>, out: Outcome) {
    var t, written := s.counter + 1, out.writes.Keys;
    && s'.ctr == s.ctr[r := t] && s'.cellAt == s.cellAt[t := r]
    && s'.ts == Put(s.ts, written, t) && s'.parents == Put(s.parents, written, live)
    && s'.store == s.store + out.writes
    && s'.errors == if out.ok then s.errors - {r} else s.errors + {r}
  }

  lemma {:induction false} UnwrittenStore(s: State, s': State, live: set<Sym>, out: Outcome)
    requires s'.store == s.store + out.writes && live !! out.writes.Keys
    ensures Restrict(s'.store, live) == Restrict(s.store, live)
  {
  }

  lemma {:induction false} StepKeepsInputs(nb: Notebook, s: State, s': State, r: CellId, out: Outcome, c: CellId)
    requires Consistent(nb, s) && r in nb && c in nb && Follows(s, s', r, nb[r].live, out)
    requires c == r ==> nb[r].live !! out.writes.Keys
    requires UpToDate(nb, s', c)
    ensures nb[c].live !! out.writes.Keys && Execute(nb[c], s') == Execute(nb[c], s)
  {
    assert forall x <- nb[c].live :: x in s'.ts ==> s'.ts[x] < s.counter + 1;
    UnwrittenStore(s, s', nb[c].live, out);
  }

  lemma {:induction false} StepKeepsOutputs(nb: Notebook, s: State, s': State, r: CellId, out: Outcome, c: CellId)
    requires r in nb && c in s.ctr && c in nb && c != r && Follows(s, s', r, nb[r].live, out)
    requires OutputsCurrent(nb, s, c) && Execute(nb[c], s') == Execute(nb[c], s)
    requires Execute(nb[c], s).writes.Keys <= nb[c].writes && nb[c].writes !! out.writes.Keys
    ensures OutputsCurrent(nb, s', c)
  {
    hide Execute;
  }

  lemma {:induction false} StepGivesOutputs(nb: Notebook, s: State, s': State, r: CellId, out: Outcome)
    requires Consistent(nb, s) && r in nb && Follows(s, s', r, nb[r].live, out)
    requires out == Execute(nb[r], s') && out.writes.Keys <= nb[r].writes
    ensures OutputsCurrent(nb, s', r)
  {
    hide Execute;
    assert forall x <- s.ts :: s.ts[x] <= s.counter;
  }

  lemma {:induction false} RunKeepsOutputs(nb: Notebook, s: State, r: CellId, c: CellId)
    requires Notebook?(nb) && SingleWriterAbove(nb) && r in nb && c in nb
    requires Consistent(nb, s) && OutputsKept(nb, s) && UpToDate(nb, Run(nb, s, r), c)
    ensures OutputsCurrent(nb, Run(nb, s, r), c)
  {
    var s', out := Run(nb, s, r), Execute(nb[r], s);
    RunFollows(nb, s, r);
    assert WellFormed(nb[r]) && WellFormed(nb[c]);
    ReadersBelow(nb, r, r);
    hide Run, Follows, Execute;
    StepKeepsInputs(nb, s, s', r, out, c);
    if c == r {
      StepGivesOutputs(nb, s, s', r, out);
    } else {
      StepKeepsUpToDate(nb, s, s', r, out, c);
      StepKeepsOutputs(nb, s, s', r, out, c);
    }
  }

  lemma {:induction false} StepKeepsUpToDate(nb: Notebook, s: State, s': State, r: CellId, out: Outcome, c: CellId)
    requires r in nb && c in nb && c != r && Follows(s, s', r, nb[r].live, out)
    requires UpToDate(nb, s', c) && nb[c].live !! out.writes.Keys
    ensures UpToDate(nb, s, c)
  {
  }

  lemma {:induction false} StepKeepsParents(nb: Notebook, s: State, s': State, r: CellId, out: Outcome)
    requires Consistent(nb, s) && SameSymbols(s) && ParentsAreLive(nb, s) && r in nb
    requires Consistent(nb, s') && Follows(s, s', r, nb[r].live, out)
    ensures SameSymbols(s') && ParentsAreLive(nb, s')
  {
    assert SameSymbols(s');
  }

  /** On a path of dependencies from what was written, each symbol's predecessor explains it. */
  lemma {:induction false} MarkedHasPredecessor(parents: map<Sym, set<Sym>>, written: set<Sym>, deps: set<Sym>, x: Sym)
    returns (q: Sym)
    requires x in Marked(parents, written, deps)
    ensures q in parents[x] && (q in written || q in Marked(parents, written, deps))
  {
    var p :| DependencyPath(parents, written, deps, p) && p[|p| - 1] == x;
    q := p[|p| - 2];
    if |p| > 2 {
      var init := p[..|p| - 1];
      assert DependencyPath(parents, written, deps, init) && init[|init| - 1] == q;
    }
  }

  lemma {:induction false} MarkedNotWritten(parents: map<Sym, set<Sym>>, written: set<Sym>, deps: set<Sym>)
    ensures Marked(parents, written, deps) !! written
  {
    forall z | z in Marked(parents, written, deps) ensures z !in written {
      var p :| DependencyPath(parents, written, deps, p) && p[|p| - 1] == z;
    }
  }

  lemma {:induction false} RecordKeepsCause(s: State, s': State, written: set<Sym>, x: Sym, p: Sym)
    requires x in s.ts && p in s.ts && x in s.parents && p in s.parents[x] && x !in written
    requires s.ts[p] > s.ts[x] || SymbolWaiting(s, p)
    requires x in s'.parents && s'.parents[x] == s.parents[x] && x in s'.ts && s'.ts[x] == s.ts[x]
    requires p in s'.ts && s'.ts[p] == if p in written then s'.counter else s.ts[p]
    requires p in s.required && p !in written ==> p in s'.required && s'.required[p] >= s.required[p]
    requires s.ts[x] < s'.counter
    ensures WaitingHasCause(s', x)
  {
    assert s'.ts[p] > s'.ts[x] || SymbolWaiting(s', p);
  }

  lemma {:induction false} UnmarkedKeepsCause(nb: Notebook, s: State, s': State, written: set<Sym>, marked: set<Sym>,
                                              x: Sym)
    requires Consistent(nb, s) && s.ts.Keys == s.parents.Keys && CausesKept(s) && s'.counter == s.counter + 1
    requires s'.required == Put(s.required - written, marked, s'.counter)
    requires s'.ts == Put(s.ts, written, s'.counter) && x !in marked && SymbolWaiting(s', x)
    requires forall y <- s.parents :: y !in written ==> y in s'.parents && s'.parents[y] == s.parents[y]
    ensures WaitingHasCause(s', x)
  {
    assert SymbolWaiting(s, x);
    var p :| p in s.parents[x] && p in s.ts && (s.ts[p] > s.ts[x] || SymbolWaiting(s, p));
    RecordKeepsCause(s, s', written, x, p);
  }

  lemma {:induction false} MarkedKeepsCause(nb: Notebook, s: State, s': State, written: set<Sym>, marked: set<Sym>,
                                            x: Sym, q: Sym)
    requires Consistent(nb, s) && s'.counter == s.counter + 1 && marked !! written
    requires s'.required == Put(s.required - written, marked, s'.counter)
    requires s'.ts == Put(s.ts, written, s'.counter) && marked + written <= s'.ts.Keys
    requires x in marked && x in s'.parents && q in s'.parents[x] && (q in written || q in marked)
    ensures WaitingHasCause(s', x)
  {
    assert s'.ts[q] > s'.ts[x] || SymbolWaiting(s', q);
  }

  lemma {:induction false} StepKeepsCause(nb: Notebook, s: State, s': State, written: set<Sym>, deps: set<Sym>, x: Sym)
    requires Consistent(nb, s) && s.ts.Keys == s.parents.Keys && CausesKept(s) && s'.counter == s.counter + 1
    requires s'.parents == Put(s.parents, written, deps) && s'.ts == Put(s.ts, written, s'.counter)
    requires s'.required == Put(s.required - written, Marked(s'.parents, written, deps), s'.counter)
    requires SymbolWaiting(s', x)
    ensures WaitingHasCause(s', x)
  {
    var marked := Marked(s'.parents, written, deps);
    MarkedNotWritten(s'.parents, written, deps);
    if x in marked {
      var q := MarkedHasPredecessor(s'.parents, written, deps, x);
      MarkedKeepsCause(nb, s, s', written, marked, x, q);
    } else {
      UnmarkedKeepsCause(nb, s, s', written, marked, x);
    }
  }

  lemma {:induction false} RecordIsPut(s: State, c: CellId, live: set<Sym>, out: Outcome)
    ensures var s', written := Record(s, c, live, out), out.writes.Keys;
            && s'.counter == s.counter + 1
            && s'.parents == Put(s.parents, written, live) && s'.ts == Put(s.ts, written, s'.counter)
            && s'.required == Put(s.required - written, Marked(s'.parents, written, live), s'.counter)
  {
    hide Marked, Put;
  }

  lemma {:induction false} RecordStores(s: State, c: CellId, live: set<Sym>, out: Outcome)
    ensures var s' := Record(s, c, live, out);
            s'.store == s.store + out.writes && s'.errors == if out.ok then s.errors - {c} else s.errors + {c}
  {
    hide Marked, Put;
  }

  lemma {:induction false} StepKeepsCauses(nb: Notebook, s: State, s': State, written: set<Sym>, deps: set<Sym>)
    requires Consistent(nb, s) && SameSymbols(s) && CausesKept(s) && s'.counter == s.counter + 1
    requires s'.parents == Put(s.parents, written, deps) && s'.ts == Put(s.ts, written, s'.counter)
    requires s'.required == Put(s.required - written, Marked(s'.parents, written, deps), s'.counter)
    ensures CausesKept(s')
  {
    hide Marked, Put, Consistent;
    forall x | x in s'.ts && SymbolWaiting(s', x) ensures WaitingHasCause(s', x) {
      hide SymbolWaiting, WaitingHasCause, CausesKept;
      StepKeepsCause(nb, s, s', written, deps, x);
    }
  }

  lemma {:induction false} RunFollows(nb: Notebook, s: State, r: CellId)
    requires r in nb
    ensures Follows(s, Run(nb, s, r), r, nb[r].live, Execute(nb[r], s))
  {
  }

  lemma {:induction false} RunKeepsParents(nb: Notebook, s: State, r: CellId)
    requires Notebook?(nb) && r in nb && Consistent(nb, s) && SameSymbols(s) && ParentsAreLive(nb, s)
    ensures var s' := Run(nb, s, r); Consistent(nb, s') && SameSymbols(s') && ParentsAreLive(nb, s')
  {
    RunConsistent(nb, s, r);
    RunFollows(nb, s, r);
    hide Run, Follows, Execute;
    StepKeepsParents(nb, s, Run(nb, s, r), r, Execute(nb[r], s));
  }

  lemma {:induction false} RunKeepsCauses(nb: Notebook, s: State, r: CellId)
    requires Consistent(nb, s) && SameSymbols(s) && CausesKept(s) && r in nb
    ensures CausesKept(Run(nb, s, r))
  {
    RecordIsPut(s, r, nb[r].live, Execute(nb[r], s));
    hide Run, Execute;
    StepKeepsCauses(nb, s, Run(nb, s, r), Execute(nb[r], s).writes.Keys, nb[r].live);
  }

  lemma {:induction false} RunKeepsInvariant(nb: Notebook, s: State, r: CellId)
    requires Notebook?(nb) && SingleWriterAbove(nb) && Invariant(nb, s) && r in nb
    ensures Invariant(nb, Run(nb, s, r))
  {
    RunKeepsParents(nb, s, r);
    RunKeepsCauses(nb, s, r);
    var s' := Run(nb, s, r);
    forall c | c in s'.ctr && UpToDate(nb, s', c) ensures OutputsCurrent(nb, s', c) {
      RunKeepsOutputs(nb, s, r, c);
    }
  }

  lemma {:induction false} StartKeepsInvariant(nb: Notebook)
    ensures Invariant(nb, Start)
  {
  }

  /** Whatever cells a session runs, in whatever order, the invariant holds at its end. */
  lemma {:induction false} SessionKeepsInvariant(nb: Notebook, s: State, runs: seq<CellId>)
    requires Notebook?(nb) && SingleWriterAbove(nb) && Invariant(nb, s)
    requires forall c <- runs :: c in nb
    ensures Invariant(nb, RunAll(nb, s, runs))
    decreases |runs|
  {
    if runs != [] {
      RunKeepsInvariant(nb, s, runs[0]);
      SessionKeepsInvariant(nb, Run(nb, s, runs[0]), runs[1..]);
    }
  }

  //////////////////// No waiting cell is stuck ////////////////////

  /** `c` left nothing over: whatever exists of its symbols carries the stamp of its last run. */
  ghost predicate Clean(nb: Notebook, s: State, c: CellId)
    requires c in nb
  {
    forall x <- nb[c].writes :: x in s.ts ==> c in s.ctr && s.ts[x] == s.ctr[c]
  }

  ghost predicate NoLeftovers(nb: Notebook, s: State) { forall c <- nb :: Clean(nb, s, c) }

  /** Every symbol some cell reads exists. */
  ghost predicate Resolved(nb: Notebook, s: State) { forall c <- nb, x <- nb[c].live :: x in s.ts }

  ghost predicate AllRan(nb: Notebook, s: State) { s.ctr.Keys == nb.Keys }

  lemma {:induction false} LastWriter(nb: Notebook, s: State, w: CellId, x: Sym)
    requires SingleWriter(nb) && Consistent(nb, s) && w in nb && x in nb[w].writes && x in s.ts
    ensures s.cellAt[s.ts[x]] == w
  {
    assert x in nb[s.cellAt[s.ts[x]]].writes * nb[w].writes;
  }

  lemma {:induction false} WaitingSymbolCause(nb: Notebook, s: State, w: CellId, x: Sym) returns (p: Sym)
    requires SingleWriter(nb) && Consistent(nb, s) && SameSymbols(s) && ParentsAreLive(nb, s) && CausesKept(s)
    requires w in nb && x in nb[w].writes && SymbolWaiting(s, x)
    ensures p in nb[w].live && p in s.ts && (s.ts[p] > s.ts[x] || SymbolWaiting(s, p))
  {
    LastWriter(nb, s, w, x);
    assert WaitingHasCause(s, x);
    p :| p in s.parents[x] && p in s.ts && (s.ts[p] > s.ts[x] || SymbolWaiting(s, p));
  }

  lemma {:induction false} NewerInputIsStale(nb: Notebook, s: State, v: CellId, w: CellId, p: Sym)
    requires SingleWriter(nb) && Consistent(nb, s) && w in nb && WriterAbove(nb, v, w, p)
    requires p in nb[w].live && p in s.ts && s.ts[p] > Ctr(s, w)
    ensures Stale(nb, s, w)
  {
    LastWriter(nb, s, v, p);
    assert WrittenAtOrAbove(nb, s, p, nb[w].position);
  }

  /** Behind a waiting symbol stands a stale cell, no lower than the symbol's writer. */
  lemma {:induction false} WaitingSymbolHasStaleCell(nb: Notebook, s: State, order: seq<CellId>, w: CellId, x: Sym)
    returns (c: CellId)
    requires SingleWriterAbove(nb) && Invariant(nb, s) && NoLeftovers(nb, s) && TopDown(nb, order)
    requires w in nb && x in nb[w].writes && SymbolWaiting(s, x)
    ensures c in nb && Stale(nb, s, c) && nb[c].position <= nb[w].position
    decreases IndexOf(order, w)
  {
    hide OutputsKept, SameSymbols, ParentsAreLive, CausesKept, SingleWriter, Consistent, Stale, TopDown;
    var p := WaitingSymbolCause(nb, s, w, x);
    var v :| WriterAbove(nb, v, w, p);
    if s.ts[p] > s.ts[x] {
      assert Clean(nb, s, w);
      NewerInputIsStale(nb, s, v, w, p);
      c := w;
    } else {
      IndexMonotone(nb, order, v, w);
      c := WaitingSymbolHasStaleCell(nb, s, order, v, p);
    }
  }

  function IndexOf(order: seq<CellId>, c: CellId): (i: nat)
    requires c in order
    ensures i < |order| && order[i] == c
  {
    if order[0] == c then 0 else 1 + IndexOf(order[1..], c)
  }

  lemma {:induction false} IndexMonotone(nb: Notebook, order: seq<CellId>, v: CellId, w: CellId)
    requires TopDown(nb, order) && v in nb && w in nb && nb[v].position < nb[w].position
    ensures IndexOf(order, v) < IndexOf(order, w)
  {
  }

  /** The topmost stale cell does not wait: it is ready. */
  lemma {:induction false} TopmostStaleIsReady(nb: Notebook, s: State, verdict: Verdict, order: seq<CellId>, w: CellId)
    requires SingleWriterAbove(nb) && Invariant(nb, s) && TopDown(nb, order) && Gated(verdict)
    requires NoLeftovers(nb, s) && Resolved(nb, s)
    requires w in nb && Stale(nb, s, w)
    requires forall c <- nb :: nb[c].position < nb[w].position ==> !Stale(nb, s, c)
    ensures Ready(nb, s, verdict, w)
  {
    if Waiting(nb, s, verdict, w) {
      var c := WaitingCellHasStaleCell(nb, s, verdict, order, w);
    }
  }

  /** At or above any stale cell there is a ready one, with no stale cell above it. */
  lemma {:induction false} StaleCellHasReadyCell(nb: Notebook, s: State, verdict: Verdict,
                                                 order: seq<CellId>, w: CellId)
    returns (r: CellId)
    requires SingleWriterAbove(nb) && Invariant(nb, s) && TopDown(nb, order) && Gated(verdict)
    requires NoLeftovers(nb, s) && Resolved(nb, s) && w in nb && Stale(nb, s, w)
    ensures r in nb && nb[r].position <= nb[w].position && Ready(nb, s, verdict, r)
    ensures forall c <- nb :: nb[c].position < nb[r].position ==> !Stale(nb, s, c)
    decreases IndexOf(order, w)
  {
    hide Invariant, NoLeftovers, Resolved, SingleWriterAbove, Gated, Stale, Waiting, Ready;
    if c :| c in nb && nb[c].position < nb[w].position && Stale(nb, s, c) {
      IndexMonotone(nb, order, c, w);
      r := StaleCellHasReadyCell(nb, s, verdict, order, c);
    } else {
      r := w;
      TopmostStaleIsReady(nb, s, verdict, order, w);
    }
  }

  lemma {:induction false} WaitingCellHasStaleCell(nb: Notebook, s: State, verdict: Verdict, order: seq<CellId>,
                                                   w: CellId)
    returns (c: CellId)
    requires SingleWriterAbove(nb) && Invariant(nb, s) && TopDown(nb, order) && Gated(verdict)
    requires NoLeftovers(nb, s) && Resolved(nb, s) && w in nb && Waiting(nb, s, verdict, w)
    ensures c in nb && Stale(nb, s, c) && nb[c].position < nb[w].position
  {
    hide OutputsKept, ParentsAreLive, CausesKept, SingleWriter, Stale, TopDown, NoLeftovers;
    var x :| x in nb[w].live && (x !in s.ts || verdict(s, x, nb[w].position));
    var v :| WriterAbove(nb, v, w, x);
    c := WaitingSymbolHasStaleCell(nb, s, order, v, x);
  }

  /** While nothing is left over and all names resolve, behind any waiting cell stands a ready one. */
  lemma {:induction false} NoStuckWaiter(nb: Notebook, s: State, verdict: Verdict, order: seq<CellId>, w: CellId)
    requires SingleWriterAbove(nb) && Invariant(nb, s) && TopDown(nb, order) && Gated(verdict)
    requires NoLeftovers(nb, s) && Resolved(nb, s) && w in nb && Waiting(nb, s, verdict, w)
    ensures exists r <- nb :: Ready(nb, s, verdict, r) && nb[r].position < nb[w].position
  {
    hide Invariant, SingleWriterAbove, Gated, Ready, Waiting, TopDown, NoLeftovers, Resolved, Stale;
    var c := WaitingCellHasStaleCell(nb, s, verdict, order, w);
    var r := StaleCellHasReadyCell(nb, s, verdict, order, c);
  }

  //////////////////// Fearless execution ////////////////////

  /** Neither ready nor waiting, anywhere. */
  ghost predicate Quiescent(nb: Notebook, s: State, verdict: Verdict) {
    forall c <- nb :: !Ready(nb, s, verdict, c) && !Waiting(nb, s, verdict, c)
  }

  /** With nothing left over, a session without ready cells is quiescent exactly when all names resolve. */
  lemma {:induction false} NothingReadyIsQuiescent(nb: Notebook, s: State, verdict: Verdict, order: seq<CellId>)
    requires SingleWriterAbove(nb) && Invariant(nb, s) && TopDown(nb, order) && Gated(verdict)
    requires NoLeftovers(nb, s) && forall c <- nb :: !Ready(nb, s, verdict, c)
    ensures Quiescent(nb, s, verdict) <==> Resolved(nb, s)
  {
    if Resolved(nb, s) {
      hide SingleWriterAbove, Invariant, NoLeftovers, Resolved, TopDown, Gated, Ready, Waiting;
      forall c | c in nb ensures !Waiting(nb, s, verdict, c) {
        if Waiting(nb, s, verdict, c) { NoStuckWaiter(nb, s, verdict, order, c); }
      }
    } else if Quiescent(nb, s, verdict) {
      QuiescentIsResolved(nb, s, verdict);
    }
  }

  lemma {:induction false} QuiescentIsResolved(nb: Notebook, s: State, verdict: Verdict)
    requires Quiescent(nb, s, verdict)
    ensures Resolved(nb, s)
  {
    forall c, x | c in nb && x in nb[c].live ensures x in s.ts {
      assert !Waiting(nb, s, verdict, c);
    }
  }

  lemma {:induction false} QuiescentIsUpToDate(nb: Notebook, s: State, verdict: Verdict, c: CellId)
    requires SingleWriterAbove(nb) && Invariant(nb, s) && AllRan(nb, s)
    requires Quiescent(nb, s, verdict) && c in nb
    ensures UpToDate(nb, s, c)
  {
    assert !Stale(nb, s, c) by { assert !Ready(nb, s, verdict, c) && !Waiting(nb, s, verdict, c); }
    forall x | x in nb[c].live && x in s.ts ensures s.ts[x] < s.ctr[c] {
      InputIsOlder(nb, s, c, x);
    }
  }

  lemma {:induction false} InputIsOlder(nb: Notebook, s: State, c: CellId, x: Sym)
    requires SingleWriterAbove(nb) && Consistent(nb, s) && c in nb && c in s.ctr && !Stale(nb, s, c)
    requires x in nb[c].live && x in s.ts
    ensures s.ts[x] < s.ctr[c]
  {
    hide SingleWriter, Stale;
    var w :| WriterAbove(nb, w, c, x);
    LastWriter(nb, s, w, x);
    if s.ts[x] > s.ctr[c] { NewerInputIsStale(nb, s, w, c, x); }
  }

  /** The store a run of the cells in `order`, from an empty namespace, leaves behind. */
  ghost function TopToBottom(nb: Notebook, order: seq<CellId>): map<Sym, Value>
    requires forall c <- order :: c in nb
  {
    RunAll(nb, Start, order).store
  }

  lemma {:induction false} RunAllAppend(nb: Notebook, s: State, runs: seq<CellId>, c: CellId)
    requires (forall d <- runs :: d in nb) && c in nb
    ensures RunAll(nb, s, runs + [c]) == Run(nb, RunAll(nb, s, runs), c)
    decreases |runs|
  {
    if runs == [] {
      assert RunAll(nb, Run(nb, s, c), [c][1..]) == Run(nb, s, c);
    } else {
      assert (runs + [c])[1..] == runs[1..] + [c];
      RunAllAppend(nb, Run(nb, s, runs[0]), runs[1..], c);
    }
  }

  /** Of `c`'s symbols, `store` holds just those a run of `c` on `store` assigns, with the same values. */
  ghost predicate Solves(c: CellSpec, store: map<Sym, Value>) {
    var writes := c.run(Restrict(store, c.live)).writes;
    forall x <- c.writes :: (x in store <==> x in writes) && (x in writes ==> store[x] == writes[x])
  }

  /** A store in which every cell's equation holds, and that holds nothing else. */
  ghost predicate Solution(nb: Notebook, store: map<Sym, Value>) {
    && (forall x <- store :: exists c <- nb :: x in nb[c].writes)
    && (forall c <- nb :: Solves(nb[c], store))
  }

  lemma {:induction false} WriterComesFirst(nb: Notebook, order: seq<CellId>, k: nat, w: CellId)
    requires TopDown(nb, order) && k < |order| && w in nb && nb[w].position < nb[order[k]].position
    ensures exists i :: 0 <= i < k && order[i] == w
  {
    var i :| 0 <= i < |order| && order[i] == w;
  }

  /** Two stores agree on a symbol. */
  predicate SameAt(store: map<Sym, Value>, store': map<Sym, Value>, x: Sym) {
    && (x in store <==> x in store')
    && (x in store ==> store[x] == store'[x])
  }

  lemma {:induction false} SameInputs(store: map<Sym, Value>, store': map<Sym, Value>, live: set<Sym>)
    requires forall x <- live :: SameAt(store, store', x)
    ensures Restrict(store, live) == Restrict(store', live)
  {
    var m, m' := Restrict(store, live), Restrict(store', live);
    assert forall x :: x in m ==> x in live && SameAt(store, store', x) && x in m' && m[x] == m'[x];
    assert forall x :: x in m' ==> x in live && SameAt(store, store', x) && x in m;
  }

  lemma {:induction false} SolutionsAgree(nb: Notebook, order: seq<CellId>, store: map<Sym, Value>,
                                          store': map<Sym, Value>, k: nat)
    requires SingleWriterAbove(nb) && TopDown(nb, order) && k < |order|
    requires Solution(nb, store) && Solution(nb, store')
    ensures forall x <- nb[order[k]].writes :: SameAt(store, store', x)
  {
    var c := order[k];
    forall x | x in nb[c].live ensures SameAt(store, store', x) {
      hide SingleWriter, TopDown, Solution, SameAt;
      var w :| WriterAbove(nb, w, c, x);
      WriterComesFirst(nb, order, k, w);
      var i :| 0 <= i < k && order[i] == w;
      SolutionsAgree(nb, order, store, store', i);
    }
    SameInputs(store, store', nb[c].live);
    hide SingleWriterAbove, TopDown, Restrict;
    assert Solves(nb[c], store) && Solves(nb[c], store');
  }

  /** The cells' equations have one solution at most. */
  lemma {:induction false} SolutionIsUnique(nb: Notebook, order: seq<CellId>, store: map<Sym, Value>,
                                            store': map<Sym, Value>)
    requires SingleWriterAbove(nb) && TopDown(nb, order) && Solution(nb, store) && Solution(nb, store')
    ensures store == store'
  {
    forall x | x in store || x in store' ensures SameAt(store, store', x) {
      hide SingleWriterAbove, SameAt, Solves;
      var c :| c in nb && x in nb[c].writes;
      var k :| 0 <= k < |order| && order[k] == c;
      SolutionsAgree(nb, order, store, store', k);
    }
  }

  /** Once all cells are up to date, the store solves the cells' equations exactly when nothing is left over. */
  lemma {:induction false} UpToDateSolves(nb: Notebook, s: State)
    requires Invariant(nb, s) && AllRan(nb, s) && forall c <- nb :: UpToDate(nb, s, c)
    ensures Solution(nb, s.store) <==> NoLeftovers(nb, s)
  {
    hide Notebook?, UpToDate, OutputsCurrent, ParentsAreLive, CausesKept, Solves, Clean;
    forall x | x in s.store ensures exists c <- nb :: x in nb[c].writes {
      assert x in nb[s.cellAt[s.ts[x]]].writes;
    }
    forall c | c in nb ensures Solves(nb[c], s.store) <==> Clean(nb, s, c) {
      CurrentSolves(nb, s, c);
    }
  }

  lemma {:induction false} CurrentSolves(nb: Notebook, s: State, c: CellId)
    requires c in nb && c in s.ctr && SameSymbols(s) && OutputsCurrent(nb, s, c)
    ensures Solves(nb[c], s.store) <==> Clean(nb, s, c)
  {
    hide Restrict;
  }

  /** After the first cells ran from the top: each ran once, in turn, and what exists is theirs. */
  ghost predicate RanInTurn(nb: Notebook, s: State, done: seq<CellId>) {
    && s.counter == |done|
    && (forall c :: c in s.ctr <==> c in done)
    && (forall i | 0 <= i < |done| :: done[i] in s.ctr && s.ctr[done[i]] == i + 1)
    && (forall x <- s.ts :: 1 <= s.ts[x] <= |done| && done[s.ts[x] - 1] in nb
                            && x in nb[done[s.ts[x] - 1]].writes)
  }

  lemma {:induction false} NextInTurn(nb: Notebook, s: State, s': State, done: seq<CellId>, c: CellId, out: Outcome)
    requires RanInTurn(nb, s, done) && c in nb && c !in done && out.writes.Keys <= nb[c].writes
    requires Follows(s, s', c, nb[c].live, out) && s'.counter == s.counter + 1
    ensures RanInTurn(nb, s', done + [c])
  {
    var done' := done + [c];
    assert forall d :: d in done' <==> d in done || d == c;
    assert forall i | 0 <= i < |done| :: done'[i] == done[i];
    forall x | x in s'.ts ensures 1 <= s'.ts[x] <= |done'| && done'[s'.ts[x] - 1] in nb
      && x in nb[done'[s'.ts[x] - 1]].writes
    {
      if x !in out.writes { assert done'[s.ts[x] - 1] == done[s.ts[x] - 1]; }
    }
  }

  lemma {:induction false} TopDownRunsInTurn(nb: Notebook, order: seq<CellId>, k: nat)
    requires Notebook?(nb) && TopDown(nb, order) && k <= |order|
    ensures RanInTurn(nb, RunAll(nb, Start, order[..k]), order[..k])
  {
    hide RunAll, RanInTurn, Run, Notebook?;
    if k == 0 {
      StartsInTurn(nb, order[..0]);
    } else {
      var done, c := order[..k - 1], order[k - 1];
      TopDownRunsInTurn(nb, order, k - 1);
      assert order[..k] == done + [c];
      assert c !in done;
      RunAllAppend(nb, Start, done, c);
      RunNextInTurn(nb, RunAll(nb, Start, done), done, c);
    }
  }

  lemma {:induction false} StartsInTurn(nb: Notebook, none: seq<CellId>)
    requires none == []
    ensures RanInTurn(nb, RunAll(nb, Start, none), none)
  {
  }

  lemma {:induction false} RunNextInTurn(nb: Notebook, s: State, done: seq<CellId>, c: CellId)
    requires Notebook?(nb) && RanInTurn(nb, s, done) && c in nb && c !in done
    ensures RanInTurn(nb, Run(nb, s, c), done + [c])
  {
    hide RanInTurn, Follows, Marked, Put;
    assert WellFormed(nb[c]);
    RunFollows(nb, s, c);
    NextInTurn(nb, s, Run(nb, s, c), done, c, Execute(nb[c], s));
  }

  lemma {:induction false} InTurnIsCurrent(nb: Notebook, s: State, order: seq<CellId>)
    requires SingleWriterAbove(nb) && TopDown(nb, order) && RanInTurn(nb, s, order)
    ensures AllRan(nb, s) && NoLeftovers(nb, s) && forall c <- nb :: UpToDate(nb, s, c)
  {
    forall c, x | c in nb && x in nb[c].writes && x in s.ts ensures s.ts[x] == s.ctr[c] {
      StampInTurn(nb, s, order, c, x);
    }
    forall c, x | c in nb && x in nb[c].live && x in s.ts ensures s.ts[x] < s.ctr[c] {
      hide TopDown, RanInTurn, SingleWriter;
      var w :| WriterAbove(nb, w, c, x);
      StampInTurn(nb, s, order, w, x);
      EarlierInTurn(nb, s, order, w, c);
    }
  }

  lemma {:induction false} StampInTurn(nb: Notebook, s: State, order: seq<CellId>, c: CellId, x: Sym)
    requires SingleWriter(nb) && RanInTurn(nb, s, order) && c in nb && x in nb[c].writes && x in s.ts
    ensures c in s.ctr && s.ts[x] == s.ctr[c]
  {
    var d := order[s.ts[x] - 1];
    assert x in nb[d].writes * nb[c].writes;
  }

  lemma {:induction false} EarlierInTurn(nb: Notebook, s: State, order: seq<CellId>, w: CellId, c: CellId)
    requires TopDown(nb, order) && RanInTurn(nb, s, order) && w in nb && c in nb
    requires nb[w].position < nb[c].position
    ensures s.ctr[w] < s.ctr[c]
  {
    var i, j :| 0 <= i < |order| && 0 <= j < |order| && order[i] == w && order[j] == c;
  }

  /** A top-to-bottom run solves the cells' equations. */
  lemma {:induction false} TopToBottomSolves(nb: Notebook, order: seq<CellId>)
    requires Notebook?(nb) && SingleWriterAbove(nb) && TopDown(nb, order)
    ensures Solution(nb, TopToBottom(nb, order))
  {
    hide Notebook?, SingleWriterAbove, TopDown, Invariant, RanInTurn, RunAll, Solution, NoLeftovers, AllRan, UpToDate;
    TopDownIsSession(nb, order);
    var s := RunAll(nb, Start, order);
    StartKeepsInvariant(nb);
    SessionKeepsInvariant(nb, Start, order);
    TopDownRunsInTurn(nb, order, |order|);
    assert order[..|order|] == order;
    InTurnIsCurrent(nb, s, order);
    UpToDateSolves(nb, s);
  }

  lemma {:induction false} TopDownIsSession(nb: Notebook, order: seq<CellId>)
    requires TopDown(nb, order)
    ensures forall c <- order :: c in nb
  {
  }

  /** A quiescent session holds what a top-to-bottom run would produce exactly when nothing is left over. */
  lemma {:induction false} QuiescentIsRebuilt(nb: Notebook, s: State, verdict: Verdict, order: seq<CellId>)
    requires Notebook?(nb) && SingleWriterAbove(nb) && TopDown(nb, order)
    requires Invariant(nb, s) && AllRan(nb, s) && Quiescent(nb, s, verdict)
    ensures s.store == TopToBottom(nb, order) <==> NoLeftovers(nb, s)
  {
    hide Notebook?, SingleWriterAbove, TopDown, Invariant, Quiescent, UpToDate, TopToBottom, Solution, NoLeftovers;
    TopDownIsSession(nb, order);
    forall c | c in nb ensures UpToDate(nb, s, c) { QuiescentIsUpToDate(nb, s, verdict, c); }
    UpToDateSolves(nb, s);
    TopToBottomSolves(nb, order);
    if Solution(nb, s.store) { SolutionIsUnique(nb, order, s.store, TopToBottom(nb, order)); }
  }

  /**
   * Fearless execution, exactly: run the cells in any order and as often as you like. If every cell
   * has run and nothing is ready or waiting, then the namespace is the one "restart and run all" would
   * have produced if and only if every symbol carries the stamp of the last run of its cell.
   */
  lemma {:induction false} FearlessExactly(nb: Notebook, session: seq<CellId>, verdict: Verdict, order: seq<CellId>)
    requires Notebook?(nb) && SingleWriterAbove(nb) && TopDown(nb, order)
    requires forall c <- session :: c in nb
    requires AllRan(nb, RunAll(nb, Start, session))
    requires Quiescent(nb, RunAll(nb, Start, session), verdict)
    ensures RunAll(nb, Start, session).store == TopToBottom(nb, order)
            <==> NoLeftovers(nb, RunAll(nb, Start, session))
  {
    hide *;
    StartKeepsInvariant(nb);
    SessionKeepsInvariant(nb, Start, session);
    QuiescentIsRebuilt(nb, RunAll(nb, Start, session), verdict, order);
  }

  /** A cell whose last run finished stamped all its symbols then. */
  ghost predicate FinishedStamps(nb: Notebook, s: State) {
    forall c <- s.ctr :: c in nb && (c !in s.errors ==> forall x <- nb[c].writes :: x in s.ts && s.ts[x] == s.ctr[c])
  }

  lemma {:induction false} StepKeepsFinished(nb: Notebook, s: State, s': State, r: CellId, out: Outcome)
    requires SingleWriter(nb) && r in nb && FinishedStamps(nb, s) && Follows(s, s', r, nb[r].live, out)
    requires out.writes.Keys <= nb[r].writes && (out.ok ==> out.writes.Keys == nb[r].writes)
    ensures FinishedStamps(nb, s')
  {
    forall c | c in s'.ctr && c != r && c !in s'.errors
      ensures forall x <- nb[c].writes :: x in s'.ts && s'.ts[x] == s'.ctr[c]
    {
      assert nb[c].writes !! nb[r].writes;
      assert forall x <- nb[c].writes :: x in s.ts && s.ts[x] == s.ctr[c];
    }
  }

  lemma {:induction false} SessionKeepsFinished(nb: Notebook, s: State, runs: seq<CellId>)
    requires Notebook?(nb) && SingleWriter(nb) && (forall c <- nb :: AssignsAll(nb[c])) && FinishedStamps(nb, s)
    requires forall c <- runs :: c in nb
    ensures FinishedStamps(nb, RunAll(nb, s, runs))
    decreases |runs|
  {
    if runs != [] {
      var r := runs[0];
      assert WellFormed(nb[r]) && AssignsAll(nb[r]);
      RunFollows(nb, s, r);
      hide SingleWriter, FinishedStamps, Follows, Notebook?, Run;
      StepKeepsFinished(nb, s, Run(nb, s, r), r, Execute(nb[r], s));
      SessionKeepsFinished(nb, Run(nb, s, r), runs[1..]);
    }
  }

  /** A session in which no cell raised the last time it ran leaves nothing over and no name unresolved,
      provided a run that finishes has assigned all the cell's symbols. */
  lemma {:induction false} FinishedIsClean(nb: Notebook, session: seq<CellId>)
    requires Notebook?(nb) && SingleWriterAbove(nb) && forall c <- nb :: AssignsAll(nb[c])
    requires forall c <- session :: c in nb
    requires AllRan(nb, RunAll(nb, Start, session)) && RunAll(nb, Start, session).errors == {}
    ensures NoLeftovers(nb, RunAll(nb, Start, session)) && Resolved(nb, RunAll(nb, Start, session))
  {
    var s := RunAll(nb, Start, session);
    SessionKeepsFinished(nb, Start, session);
    hide RunAll, AssignsAll, SingleWriter, Notebook?;
    forall c, x | c in nb && x in nb[c].live ensures x in s.ts {
      var w :| WriterAbove(nb, w, c, x);
      assert w in s.ctr;
    }
  }

  /** Fearless execution: without errors, a quiescent session is as good as a top-to-bottom run. */
  lemma {:induction false} FearlessExecution(nb: Notebook, session: seq<CellId>, verdict: Verdict, order: seq<CellId>)
    requires Notebook?(nb) && SingleWriterAbove(nb) && TopDown(nb, order) && forall c <- nb :: AssignsAll(nb[c])
    requires forall c <- session :: c in nb
    requires AllRan(nb, RunAll(nb, Start, session)) && RunAll(nb, Start, session).errors == {}
    requires Quiescent(nb, RunAll(nb, Start, session), verdict)
    ensures RunAll(nb, Start, session).store == TopToBottom(nb, order)
  {
    hide *;
    FinishedIsClean(nb, session);
    FearlessExactly(nb, session, verdict, order);
  }

  /**
   * The whole promise in one statement: after any session, keep running ready cells. This stops within
   * 2^n runs. If by then every cell has run, nothing is left waiting and the namespace is that of a
   * top-to-bottom run exactly when all names resolve and nothing is left over.
   */
  lemma {:induction false} ReactiveExecutionRestoresTopToBottom(nb: Notebook, session: seq<CellId>,
                                                                reactive: seq<CellId>,
                                             verdict: Verdict, order: seq<CellId>)
    requires Notebook?(nb) && SingleWriterAbove(nb) && TopDown(nb, order) && Gated(verdict)
    requires forall c <- session :: c in nb
    requires ReadyRun(nb, RunAll(nb, Start, session), verdict, reactive)
    ensures |reactive| < Pow2(|order|) && forall c <- reactive :: c in nb
    ensures var s := RunAll(nb, RunAll(nb, Start, session), reactive);
            AllRan(nb, s) && (forall c <- nb :: !Ready(nb, s, verdict, c))
            ==> (Quiescent(nb, s, verdict) && s.store == TopToBottom(nb, order)
                 <==> Resolved(nb, s) && NoLeftovers(nb, s))
  {
    hide *;
    StartKeepsInvariant(nb);
    SessionKeepsInvariant(nb, Start, session);
    var s0 := RunAll(nb, Start, session);
    ReactiveRunsAreFinite(nb, s0, verdict, order, reactive);
    ReadyRunIsSession(nb, s0, verdict, reactive);
    SessionKeepsInvariant(nb, s0, reactive);
    var s := RunAll(nb, s0, reactive);
    if AllRan(nb, s) && forall c <- nb :: !Ready(nb, s, verdict, c) {
      NothingReadyIsRebuilt(nb, s, verdict, order);
    }
  }

  lemma {:induction false} NothingReadyIsRebuilt(nb: Notebook, s: State, verdict: Verdict, order: seq<CellId>)
    requires Notebook?(nb) && SingleWriterAbove(nb) && TopDown(nb, order) && Gated(verdict)
    requires Invariant(nb, s) && AllRan(nb, s) && forall c <- nb :: !Ready(nb, s, verdict, c)
    ensures Quiescent(nb, s, verdict) && s.store == TopToBottom(nb, order)
            <==> Resolved(nb, s) && NoLeftovers(nb, s)
  {
    hide *;
    if NoLeftovers(nb, s) { NothingReadyIsQuiescent(nb, s, verdict, order); }
    if Quiescent(nb, s, verdict) {
      QuiescentIsRebuilt(nb, s, verdict, order);
      QuiescentIsResolved(nb, s, verdict);
    }
  }

  lemma {:induction false} ReadyRunIsSession(nb: Notebook, s: State, verdict: Verdict, runs: seq<CellId>)
    requires ReadyRun(nb, s, verdict, runs)
    ensures forall c <- runs :: c in nb
    decreases |runs|
  {
    if runs != [] { ReadyRunIsSession(nb, Run(nb, s, runs[0]), verdict, runs[1..]); }
  }

  //////////////////// Leftovers are real ////////////////////

  /** Cell 0 assigns a; cell 1 assigns b a fallback while a is undefined, and raises once it is 1. */
  const Raising: Notebook := map[
    0 := CellSpec(0, {}, {"a"}, (env: map<Sym, Value>) => Outcome(map["a" := L.Num(1)], true)),
    1 := CellSpec(1, {"a"}, {"b"}, (env: map<Sym, Value>) =>
           if "a" in env then Outcome(map[], false) else Outcome(map["b" := L.Num(7)], true))]

  lemma {:induction false} RaisingIsOrdered()
    ensures Notebook?(Raising) && SingleWriterAbove(Raising) && TopDown(Raising, [0, 1])
  {
    assert WriterAbove(Raising, 0, 1, "a");
  }

  lemma {:induction false} PutOne<V>(m: map<Sym, V>, x: Sym, v: V)
    ensures Put(m, {x}, v) == m[x := v]
  {
    assert {x} - {x} == {};
  }

  lemma {:induction false} RecordAssignment(s: State, c: CellId, live: set<Sym>, x: Sym, v: Value)
    ensures var s' := Record(s, c, live, Outcome(map[x := v], true));
            && s'.ts == s.ts[x := s'.counter] && s'.store == s.store[x := v]
            && s'.errors == s.errors - {c} && x !in s'.required
  {
    hide Marked, Put, Record;
    RecordIsPut(s, c, live, Outcome(map[x := v], true));
    RecordStores(s, c, live, Outcome(map[x := v], true));
    var s' := Record(s, c, live, Outcome(map[x := v], true));
    assert map[x := v].Keys == {x};
    MarkedNotWritten(s'.parents, {x}, live);
    PutOne(s.ts, x, s'.counter);
  }

  lemma {:induction false} RecordFailure(s: State, c: CellId, live: set<Sym>)
    ensures var s' := Record(s, c, live, Outcome(map[], false));
            s'.ts == s.ts && s'.store == s.store && s'.errors == s.errors + {c} && s'.required == s.required
  {
    var s' := Record(s, c, live, Outcome(map[], false));
    MarkedByNothing(s'.parents, live);
    hide Marked;
    assert s'.required == Put(s.required - {}, {}, s'.counter);
  }

  lemma {:induction false} RaisingStep(s: State, c: CellId) returns (s': State)
    requires c in Raising
    ensures s' == Run(Raising, s, c)
    ensures s'.counter == s.counter + 1 && s'.ctr == s.ctr[c := s'.counter]
    ensures var x := if c == 0 then "a" else "b";
            if c == 1 && "a" in s.store
            then s'.ts == s.ts && s'.store == s.store && s'.errors == s.errors + {1}
                 && s'.required == s.required
            else s'.ts == s.ts[x := s'.counter] && s'.store == s.store[x := L.Num(if c == 0 then 1 else 7)]
                 && s'.errors == s.errors - {c} && x !in s'.required
  {
    hide Marked, Restrict, Put;
    s' := Run(Raising, s, c);
    RestrictHas(s.store, {"a"}, "a");
    if c == 1 && "a" in s.store {
      assert Execute(Raising[c], s) == Outcome(map[], false);
      RecordFailure(s, c, Raising[c].live);
    } else {
      var x, v := if c == 0 then "a" else "b", L.Num(if c == 0 then 1 else 7);
      assert Execute(Raising[c], s) == Outcome(map[x := v], true);
      RecordAssignment(s, c, Raising[c].live, x, v);
    }
  }

  lemma {:induction false} RaisingSession() returns (s1: State, s2: State, s3: State)
    ensures s1 == Run(Raising, Start, 1) && s2 == Run(Raising, s1, 0) && s3 == Run(Raising, s2, 1)
    ensures s3.ctr == map[1 := 3, 0 := 2] && s3.ts == map["b" := 1, "a" := 2] && "b" in s3.store
    ensures "a" !in s3.required && s3.errors == {1}
  {
    hide Run;
    s1 := RaisingStep(Start, 1);
    s2 := RaisingStep(s1, 0);
    s3 := RaisingStep(s2, 1);
  }

  lemma {:induction false} RestrictHas(m: map<Sym, Value>, keys: set<Sym>, x: Sym)
    requires x in keys
    ensures x in Restrict(m, keys) <==> x in m
  {
  }

  lemma {:induction false} MarkedByNothing(parents: map<Sym, set<Sym>>, deps: set<Sym>)
    ensures Marked(parents, {}, deps) == {}
  {
  }

  lemma {:induction false} RaisingFromScratch()
    ensures TopToBottom(Raising, [0, 1]) == map["a" := L.Num(1)]
  {
    var t1 := Run(Raising, Start, 0);
    assert "a" in Restrict(t1.store, {"a"});
    var t2 := Run(Raising, t1, 1);
    assert Execute(Raising[1], t1) == Outcome(map[], false);
    assert RunAll(Raising, Start, [0, 1]) == t2 by {
      hide Run;
      assert [0, 1][1..] == [1] && [1][1..] == [];
      assert RunAll(Raising, t1, [1]) == t2;
    }
  }

  /** A cell that raises keeps its old outputs, so quiescence alone does not give fearlessness. */
  lemma {:induction false} RaisingCellBreaksFearlessness(verdict: Verdict)
    requires Gated(verdict)
    ensures Notebook?(Raising) && SingleWriterAbove(Raising) && TopDown(Raising, [0, 1])
    ensures var s := RunAll(Raising, Start, [1, 0, 1]);
            Quiescent(Raising, s, verdict) && s.ctr.Keys == Raising.Keys && s.errors == {1}
            && s.store != TopToBottom(Raising, [0, 1])
  {
    hide SingleWriterAbove, Notebook?, TopDown, Run, RunAll, TopToBottom;
    RaisingIsOrdered();
    RaisingFromScratch();
    var s1, s2, s3 := RaisingSession();
    RaisingRuns(s1, s2, s3);
    assert "b" in s3.store;
  }

  lemma {:induction false} RaisingRuns(s1: State, s2: State, s3: State)
    requires s1 == Run(Raising, Start, 1) && s2 == Run(Raising, s1, 0) && s3 == Run(Raising, s2, 1)
    ensures RunAll(Raising, Start, [1, 0, 1]) == s3
  {
    hide Run;
    assert [1, 0, 1][1..] == [0, 1] && [0, 1][1..] == [1] && [1][1..] == [];
    assert RunAll(Raising, s1, [0, 1]) == RunAll(Raising, s2, [1]);
  }
}
