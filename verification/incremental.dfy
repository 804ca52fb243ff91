/**
 * Incremental reactive execution: after a run, the frontend runs the cells that became ready, one at
 * a time, each the topmost one below the cell run last, and stops early only if a cell raises.
 */
module Incremental {
  import opened Wrappers
  import opened Scheduler
  import opened Session
  import F = Frontend

  function ReadyCells(nb: Notebook, s: State, verdict: Verdict): set<CellId> {
    set c | c in nb && Ready(nb, s, verdict, c)
  }

  /** The cells the checker reports as newly ready after `last` ran, if `flagged` were ready before. */
  function NewReadyCells(nb: Notebook, s: State, verdict: Verdict, flagged: set<CellId>, last: CellId): set<CellId>
    requires last in nb
  {
    set c | c in nb && F.NewReady(nb, s, verdict, flagged, c, Some(nb[last].position), s.counter)
  }

  predicate Below(nb: Notebook, last: CellId, c: CellId) {
    last in nb && c in nb && nb[last].position < nb[c].position
  }

  /** Every cell has run, nothing is left over, all names resolve, and no cell is ready. */
  ghost predicate AtRest(nb: Notebook, s: State, verdict: Verdict) {
    AllRan(nb, s) && NoLeftovers(nb, s) && Resolved(nb, s) && forall c <- nb :: !Ready(nb, s, verdict, c)
  }

  /** Stale cells are below `last`, and those that are ready are pending. */
  ghost predicate OnlyPending(nb: Notebook, s: State, verdict: Verdict, pending: set<CellId>, last: CellId) {
    && (forall c <- nb :: Stale(nb, s, c) ==> Below(nb, last, c))
    && (forall c <- nb :: Ready(nb, s, verdict, c) ==> c in pending)
  }

  /** Some cell, no lower than `last`, left something over. */
  ghost predicate LeftoverAbove(nb: Notebook, s: State, last: CellId) {
    exists c <- nb :: !Below(nb, last, c) && !Clean(nb, s, c)
  }

  /** Either all is well so far, or a cell that will not run again has left something over. */
  ghost predicate OnTrack(nb: Notebook, s: State, verdict: Verdict, pending: set<CellId>, last: CellId) {
    && AllRan(nb, s) && Resolved(nb, s)
    && (if NoLeftovers(nb, s) then OnlyPending(nb, s, verdict, pending, last) else LeftoverAbove(nb, s, last))
  }

  lemma {:induction false} RunKeepsOthersClean(nb: Notebook, s: State, r: CellId, c: CellId)
    requires Notebook?(nb) && SingleWriter(nb) && r in nb && c in nb && c != r
    ensures Clean(nb, Run(nb, s, r), c) <==> Clean(nb, s, c)
  {
    assert WellFormed(nb[r]);
    RunFollows(nb, s, r);
    assert nb[c].writes !! Execute(nb[r], s).writes.Keys;
    hide Run, Execute, SingleWriter, Notebook?;
  }

  lemma {:induction false} RunKeepsRanAndResolved(nb: Notebook, s: State, r: CellId)
    requires r in nb && AllRan(nb, s) && Resolved(nb, s)
    ensures AllRan(nb, Run(nb, s, r)) && Resolved(nb, Run(nb, s, r))
  {
    RunFollows(nb, s, r);
    hide Run, Execute;
  }

  lemma {:induction false} RunKeepsLeftover(nb: Notebook, s: State, last: CellId, r: CellId)
    requires Notebook?(nb) && SingleWriter(nb) && LeftoverAbove(nb, s, last) && Below(nb, last, r)
    ensures LeftoverAbove(nb, Run(nb, s, r), r) && !NoLeftovers(nb, Run(nb, s, r))
  {
    hide Clean, Run, Notebook?, SingleWriter;
    var c :| c in nb && !Below(nb, last, c) && !Clean(nb, s, c);
    RunKeepsOthersClean(nb, s, r, c);
  }

  lemma {:induction false} RunLeavesOver(nb: Notebook, s: State, r: CellId)
    requires Notebook?(nb) && SingleWriter(nb) && r in nb && NoLeftovers(nb, s) && !NoLeftovers(nb, Run(nb, s, r))
    ensures LeftoverAbove(nb, Run(nb, s, r), r)
  {
    hide Clean, Run, Notebook?, SingleWriter;
    var c :| c in nb && !Clean(nb, Run(nb, s, r), c);
    if c != r { RunKeepsOthersClean(nb, s, r, c); }
  }

  /** After a run with no stale cell above it, stale cells are below it and the ready ones are pending. */
  lemma {:induction false} RunIsOnlyPending(nb: Notebook, s: State, s': State, verdict: Verdict, pending: set<CellId>,
                                            r: CellId)
    requires Notebook?(nb) && Consistent(nb, s) && Consistent(nb, s') && AllRan(nb, s') && r in nb
    requires s' == Run(nb, s, r)
    requires forall c <- nb :: Stale(nb, s, c) ==> c == r || Below(nb, r, c)
    requires forall c <- nb :: Ready(nb, s, verdict, c) ==> c in pending
    ensures OnlyPending(nb, s', verdict, pending + NewReadyCells(nb, s', verdict, ReadyCells(nb, s, verdict), r), r)
  {
    hide Run, Notebook?, Stale, Waiting, Consistent, NewReadyCells, AllRan, ReadyCells;
    RunClearsAndStalesOnlyBelow(nb, s, r);
    forall c | c in nb && Stale(nb, s', c) ensures Below(nb, r, c) {}
    forall c | c in nb && Ready(nb, s', verdict, c)
      ensures c in pending + NewReadyCells(nb, s', verdict, ReadyCells(nb, s, verdict), r)
    {
      NewOrReadyBefore(nb, s, s', verdict, r, c);
    }
  }

  lemma {:induction false} NewOrReadyBefore(nb: Notebook, s: State, s': State, verdict: Verdict, r: CellId, c: CellId)
    requires Consistent(nb, s') && AllRan(nb, s') && Below(nb, r, c) && Ready(nb, s', verdict, c)
    ensures c in NewReadyCells(nb, s', verdict, ReadyCells(nb, s, verdict), r) || Ready(nb, s, verdict, c)
  {
    hide Ready, F.NewlyStale;
  }

  /** The next cell to run: the topmost pending one below the last. */
  ghost predicate IsNext(nb: Notebook, pending: set<CellId>, last: CellId, r: CellId) {
    Below(nb, last, r) && r in pending && forall c <- pending :: Below(nb, last, c) ==> c == r || Below(nb, r, c)
  }

  lemma {:induction false} NothingStaleAboveNext(nb: Notebook, s: State, verdict: Verdict, order: seq<CellId>,
                                                 pending: set<CellId>, last: CellId, r: CellId, c: CellId)
    requires SingleWriterAbove(nb) && TopDown(nb, order) && Gated(verdict) && Invariant(nb, s)
    requires NoLeftovers(nb, s) && Resolved(nb, s) && OnlyPending(nb, s, verdict, pending, last)
    requires IsNext(nb, pending, last, r) && c in nb && Stale(nb, s, c) && Notebook?(nb)
    ensures c == r || Below(nb, r, c)
  {
    hide SingleWriterAbove, TopDown, Gated, Invariant, NoLeftovers, Resolved, Stale, Waiting, WellFormed;
    var d := StaleCellHasReadyCell(nb, s, verdict, order, c);
  }

  lemma {:induction false} StepOnTrack(nb: Notebook, s: State, s': State, verdict: Verdict, order: seq<CellId>,
                                       pending: set<CellId>, last: CellId, r: CellId)
    requires Notebook?(nb) && SingleWriterAbove(nb) && TopDown(nb, order) && Gated(verdict)
    requires Invariant(nb, s) && OnTrack(nb, s, verdict, pending, last) && IsNext(nb, pending, last, r)
    requires r in nb && s' == Run(nb, s, r)
    ensures OnTrack(nb, s', verdict, pending + NewReadyCells(nb, s', verdict, ReadyCells(nb, s, verdict), r), r)
  {
    hide Run, Notebook?, TopDown, Gated, Invariant, NoLeftovers, Resolved, Stale, NewReadyCells, SingleWriter,
      LeftoverAbove, ReadyCells, Ready, Consistent, AllRan;
    RunKeepsRanAndResolved(nb, s, r);
    AlsoConsistent(nb, s, s', r);
    if NoLeftovers(nb, s) {
      forall c | c in nb && Stale(nb, s, c) ensures c == r || Below(nb, r, c) {
        NothingStaleAboveNext(nb, s, verdict, order, pending, last, r, c);
      }
      RunIsOnlyPending(nb, s, s', verdict, pending, r);
      hide OnlyPending;
      if !NoLeftovers(nb, s') { RunLeavesOver(nb, s, r); }
    } else {
      RunKeepsLeftover(nb, s, last, r);
    }
  }

  lemma {:induction false} AlsoConsistent(nb: Notebook, s: State, s': State, r: CellId)
    requires Notebook?(nb) && Invariant(nb, s) && r in nb && s' == Run(nb, s, r)
    ensures Consistent(nb, s) && Consistent(nb, s')
  {
    hide Consistent, Run;
    RunConsistent(nb, s, r);
  }

  lemma {:induction false} NothingStaleAtRest(nb: Notebook, s: State, verdict: Verdict, order: seq<CellId>)
    requires SingleWriterAbove(nb) && TopDown(nb, order) && Gated(verdict) && Invariant(nb, s)
    requires AtRest(nb, s, verdict)
    ensures forall c <- nb :: !Stale(nb, s, c)
  {
    hide SingleWriterAbove, TopDown, Gated, Invariant, NoLeftovers, Resolved, Stale, Ready, AllRan;
    forall c | c in nb ensures !Stale(nb, s, c) {
      if Stale(nb, s, c) { var d := StaleCellHasReadyCell(nb, s, verdict, order, c); }
    }
  }

  lemma {:induction false} FirstOnTrack(nb: Notebook, s: State, s': State, verdict: Verdict, order: seq<CellId>,
                                        r: CellId)
    requires Notebook?(nb) && SingleWriterAbove(nb) && TopDown(nb, order) && Gated(verdict)
    requires Invariant(nb, s) && AtRest(nb, s, verdict) && r in nb && s' == Run(nb, s, r)
    ensures OnTrack(nb, s', verdict, {} + NewReadyCells(nb, s', verdict, ReadyCells(nb, s, verdict), r), r)
  {
    hide Run, Notebook?, TopDown, Gated, Invariant, NoLeftovers, Resolved, Stale, NewReadyCells, SingleWriter,
      LeftoverAbove, ReadyCells, Ready, Consistent, AllRan;
    RunKeepsRanAndResolved(nb, s, r);
    AlsoConsistent(nb, s, s', r);
    NothingStaleAtRest(nb, s, verdict, order);
    RunIsOnlyPending(nb, s, s', verdict, {}, r);
    hide OnlyPending;
    if !NoLeftovers(nb, s') { RunLeavesOver(nb, s, r); }
  }

  lemma {:induction false} EndsAtRest(nb: Notebook, s: State, verdict: Verdict, order: seq<CellId>,
                                      pending: set<CellId>, last: CellId)
    requires Notebook?(nb) && SingleWriterAbove(nb) && TopDown(nb, order) && Gated(verdict)
    requires Invariant(nb, s) && OnTrack(nb, s, verdict, pending, last)
    requires forall c <- pending :: !Below(nb, last, c)
    ensures NoLeftovers(nb, s) ==> AtRest(nb, s, verdict)
    ensures NoLeftovers(nb, s) <==> Quiescent(nb, s, verdict) && s.store == TopToBottom(nb, order)
  {
    hide Notebook?, SingleWriterAbove, Gated, Invariant, NoLeftovers, Resolved, Stale, Waiting, Quiescent,
      TopToBottom, LeftoverAbove, Below;
    if NoLeftovers(nb, s) {
      NothingReadyIsRebuilt(nb, s, verdict, order);
    } else if Quiescent(nb, s, verdict) {
      QuiescentIsRebuilt(nb, s, verdict, order);
    }
  }

  method Next(nb: Notebook, pending: set<CellId>, last: CellId) returns (r: Option<CellId>)
    requires Notebook?(nb) && last in nb
    ensures r.Some? ==> IsNext(nb, pending, last, r.value)
    ensures r.None? ==> forall c <- pending :: !Below(nb, last, c)
  {
    r := None;
    var rest := pending;
    while rest != {}
      invariant rest <= pending && (r.Some? ==> r.value in pending && Below(nb, last, r.value))
      invariant r.None? ==> forall c <- pending :: Below(nb, last, c) ==> c in rest
      invariant r.Some? ==> forall c <- pending :: Below(nb, last, c) ==> c in rest || c == r.value
                                                                           || Below(nb, r.value, c)
      decreases rest
    {
      var c :| c in rest;
      rest := rest - {c};
      if Below(nb, last, c) && (r.None? || Below(nb, c, r.value)) { r := Some(c); }
    }
  }

  /**
   * Runs `first` and then what becomes ready, from the top down: each cell once at most. `ok` is false
   * if a cell raised. Otherwise, starting at rest, the session is at rest again, and what it holds is
   * what a top-to-bottom run would produce, exactly when nothing is left over.
   */
  method RunIncrementally(session: NotebookSession, verdict: Verdict, first: CellId, ghost order: seq<CellId>)
    returns (runs: seq<CellId>, ok: bool)
    requires var nb := session.nb;
             Notebook?(nb) && SingleWriterAbove(nb) && TopDown(nb, order) && Gated(verdict) && first in nb
    requires Invariant(session.nb, session.St())
    modifies session
    ensures 1 <= |runs| <= |order| && runs[0] == first && (forall c <- runs :: c in session.nb)
    ensures Ascending(session.nb, runs)
    ensures session.St() == RunAll(session.nb, old(session.St()), runs)
    ensures ok <==> runs[|runs| - 1] !in session.errors
    ensures Invariant(session.nb, session.St())
    ensures var nb, s := session.nb, session.St();
            ok && AtRest(nb, old(session.St()), verdict) ==>
              && (NoLeftovers(nb, s) ==> AtRest(nb, s, verdict))
              && (NoLeftovers(nb, s) <==> Quiescent(nb, s, verdict) && s.store == TopToBottom(nb, order))
  {
    hide *;
    var nb := session.nb;
    ghost var s0 := session.St();
    ghost var calm := AtRest(nb, s0, verdict);
    SweepFirst(nb, s0, order, first);
    var pending, next;
    pending, next, ok := RunOne(session, verdict, {}, first);
    if calm { FirstOnTrack(nb, s0, session.St(), verdict, order, first); }
    runs := [first];
    while ok && next.Some?
      invariant Sweep(nb, s0, session.St(), order, runs) && runs[0] == first
      invariant ok <==> runs[|runs| - 1] !in session.errors
      invariant calm ==> OnTrack(nb, session.St(), verdict, pending, runs[|runs| - 1])
      invariant next.Some? ==> IsNext(nb, pending, runs[|runs| - 1], next.value)
      invariant next.None? ==> forall c <- pending :: !Below(nb, runs[|runs| - 1], c)
      decreases |order| - |runs|
    {
      ghost var s, before, last := session.St(), pending, runs[|runs| - 1];
      var r := next.value;
      SweepNext(nb, s0, s, order, before, runs, r);
      pending, next, ok := RunOne(session, verdict, pending, r);
      if calm { StepOnTrack(nb, s, session.St(), verdict, order, before, last, r); }
      runs := runs + [r];
    }
    SweepIsRun(nb, s0, session.St(), order, runs);
    if ok && calm { EndsAtRest(nb, session.St(), verdict, order, pending, runs[|runs| - 1]); }
  }

  /** Runs a cell, adds the cells that are newly ready to the pending ones, and picks the next. */
  method RunOne(session: NotebookSession, verdict: Verdict, pending: set<CellId>, r: CellId)
    returns (pending': set<CellId>, next: Option<CellId>, ok: bool)
    requires Notebook?(session.nb) && r in session.nb
    modifies session
    ensures session.St() == Run(session.nb, old(session.St()), r) && (ok <==> r !in session.errors)
    ensures pending' == pending + NewReadyCells(session.nb, session.St(), verdict,
                                                ReadyCells(session.nb, old(session.St()), verdict), r)
    ensures next.Some? ==> IsNext(session.nb, pending', r, next.value)
    ensures next.None? ==> forall c <- pending' :: !Below(session.nb, r, c)
  {
    hide *;
    var flagged := ReadyCells(session.nb, session.St(), verdict);
    session.RunCell(r);
    ok := r !in session.errors;
    pending' := pending + NewReadyCells(session.nb, session.St(), verdict, flagged, r);
    next := Next(session.nb, pending', r);
  }

  ghost predicate Ascending(nb: Notebook, runs: seq<CellId>) {
    forall i, j :: 0 <= i < j < |runs| ==> Below(nb, runs[i], runs[j])
  }

  /** `s` is `s0` after `runs`, which go from top to bottom. */
  ghost predicate Sweep(nb: Notebook, s0: State, s: State, order: seq<CellId>, runs: seq<CellId>) {
    && TopDown(nb, order) && Invariant(nb, s)
    && (forall c <- runs :: c in nb) && Ascending(nb, runs) && s == RunAll(nb, s0, runs)
    && 1 <= |runs| <= IndexOf(order, runs[|runs| - 1]) + 1
  }

  lemma {:induction false} SweepIsRun(nb: Notebook, s0: State, s: State, order: seq<CellId>, runs: seq<CellId>)
    requires Sweep(nb, s0, s, order, runs)
    ensures 1 <= |runs| <= |order| && (forall c <- runs :: c in nb) && Ascending(nb, runs)
    ensures s == RunAll(nb, s0, runs) && Invariant(nb, s)
  {
    hide RunAll, Invariant;
  }

  lemma {:induction false} SweepFirst(nb: Notebook, s0: State, order: seq<CellId>, first: CellId)
    requires Notebook?(nb) && SingleWriterAbove(nb) && TopDown(nb, order) && Invariant(nb, s0) && first in nb
    ensures Sweep(nb, s0, Run(nb, s0, first), order, [first]) && |order| >= 1
  {
    hide Run, RunAll, Invariant, SingleWriterAbove, Notebook?;
    RunKeepsInvariant(nb, s0, first);
    OneRun(nb, s0, first);
  }

  lemma {:induction false} SweepNext(nb: Notebook, s0: State, s: State, order: seq<CellId>, pending: set<CellId>,
                                     runs: seq<CellId>, r: CellId)
    requires Notebook?(nb) && SingleWriterAbove(nb) && Sweep(nb, s0, s, order, runs)
    requires IsNext(nb, pending, runs[|runs| - 1], r)
    ensures r in nb && Sweep(nb, s0, Run(nb, s, r), order, runs + [r]) && |runs| < |order| && Invariant(nb, s)
  {
    hide Run, RunAll, Invariant, SingleWriterAbove, Notebook?;
    var last := runs[|runs| - 1];
    RunKeepsInvariant(nb, s, r);
    RunAllAppend(nb, s0, runs, r);
    InOrder(nb, order, last, r);
    DownTo(nb, runs, last, r);
  }

  lemma {:induction false} OneRun(nb: Notebook, s: State, c: CellId)
    requires c in nb
    ensures RunAll(nb, s, [c]) == Run(nb, s, c)
  {
    hide Run;
    assert [c][1..] == [];
  }

  lemma {:induction false} InOrder(nb: Notebook, order: seq<CellId>, last: CellId, r: CellId)
    requires TopDown(nb, order) && last in nb && r in nb
    ensures last in order && r in order
    ensures Below(nb, last, r) ==> IndexOf(order, last) < IndexOf(order, r)
  {
  }

  lemma {:induction false} DownTo(nb: Notebook, runs: seq<CellId>, last: CellId, r: CellId)
    requires |runs| >= 1 && runs[|runs| - 1] == last && Below(nb, last, r) && Ascending(nb, runs)
    ensures Ascending(nb, runs + [r])
  {
  }
}
