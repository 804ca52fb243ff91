/**
 * What the verdict on stale inputs is for: under a verdict that recognises every stale input at the
 * reading cell's own position, a ready cell has nothing stale upstream of it, so that reactive
 * execution runs each cell once at most.
 */
module ReactiveOnce {
  import opened Scheduler

  /**
   * Behind `p[0]`, through parents, stands a write newer than its reader: each of `p` is a parent of the
   * one before and written no lower, and the last one was written after the one before it.
   */
  ghost predicate NewerBehind(nb: Notebook, s: State, pos: int, p: seq<Sym>) {
    && |p| >= 2 && WrittenAtOrAbove(nb, s, p[0], pos)
    && (forall i :: 0 <= i < |p| - 1 ==> p[i] in s.parents && p[i + 1] in s.parents[p[i]])
    && (forall i :: 0 < i < |p| ==> NoLower(nb, s, p[i], p[i - 1]))
    && p[|p| - 1] in s.ts && p[|p| - 2] in s.ts && s.ts[p[|p| - 1]] > s.ts[p[|p| - 2]]
  }

  /** `x` was last written no lower than `y`. */
  predicate NoLower(nb: Notebook, s: State, x: Sym, y: Sym) {
    && y in s.ts && s.ts[y] in s.cellAt && s.cellAt[s.ts[y]] in nb
    && WrittenAtOrAbove(nb, s, x, nb[s.cellAt[s.ts[y]]].position)
  }

  /** `x` is stale for a cell at `pos`. */
  ghost predicate StaleThere(nb: Notebook, s: State, x: Sym, pos: int) {
    exists p :: NewerBehind(nb, s, pos, p) && p[0] == x
  }

  /** The verdict recognises every symbol that is stale at the position asked about. */
  ghost predicate Recognises(nb: Notebook, s: State, verdict: Verdict) {
    forall x, pos :: StaleThere(nb, s, x, pos) ==> verdict(s, x, pos)
  }

  /** All symbols on the way to the newer write are marked as waiting. */
  ghost predicate AllMarked(s: State, p: seq<Sym>) { forall i :: 0 <= i < |p| - 1 ==> SymbolWaiting(s, p[i]) }

  ghost predicate MarkedStale(nb: Notebook, s: State, x: Sym, pos: int) {
    exists p :: NewerBehind(nb, s, pos, p) && AllMarked(s, p) && p[0] == x
  }

  /** A verdict that looks behind marked symbols only, but misses none of those. */
  ghost predicate CompleteOnMarked(nb: Notebook, verdict: Verdict) {
    forall s, x, pos :: MarkedStale(nb, s, x, pos) ==> verdict(s, x, pos)
  }

  /** Such verdicts exist among those that first ask whether the symbol is marked at all. */
  lemma {:induction false} CompleteVerdictExists(nb: Notebook) returns (verdict: Verdict)
    ensures Gated(verdict) && CompleteOnMarked(nb, verdict)
  {
    verdict := (s, x, pos) => MarkedStale(nb, s, x, pos);
  }

  //////////////////// Marks are kept ////////////////////

  /** `p` is a parent of `y` and newer, or waiting itself. */
  predicate HasCause(s: State, y: Sym, p: Sym) {
    && y in s.ts && y in s.parents && p in s.parents[y] && p in s.ts
    && (s.ts[p] > s.ts[y] || SymbolWaiting(s, p))
  }

  /** What has a newer or waiting parent waits. */
  ghost predicate MarksKept(s: State) {
    forall y, p :: HasCause(s, y, p) ==> SymbolWaiting(s, y)
  }

  /** Where marks are kept, what is stale is marked all the way. */
  lemma {:induction false} StaleIsMarked(nb: Notebook, s: State, pos: int, p: seq<Sym>, i: nat)
    requires MarksKept(s) && NewerBehind(nb, s, pos, p) && i < |p| - 1
    ensures SymbolWaiting(s, p[i])
    decreases |p| - i
  {
    hide SymbolWaiting;
    assert NoLower(nb, s, p[i + 1], p[i + 1 - 1]);
    if i < |p| - 2 { StaleIsMarked(nb, s, pos, p, i + 1); }
    assert HasCause(s, p[i], p[i + 1]);
  }

  /** There a verdict that misses nothing marked misses nothing. */
  lemma {:induction false} MarkedIsEnough(nb: Notebook, s: State, verdict: Verdict)
    requires MarksKept(s) && CompleteOnMarked(nb, verdict)
    ensures Recognises(nb, s, verdict)
  {
    hide MarksKept, NewerBehind, SymbolWaiting;
    forall x, pos | StaleThere(nb, s, x, pos) ensures verdict(s, x, pos) { StaleIsMarkedStale(nb, s, x, pos); }
  }

  lemma {:induction false} StaleIsMarkedStale(nb: Notebook, s: State, x: Sym, pos: int)
    requires MarksKept(s) && StaleThere(nb, s, x, pos)
    ensures MarkedStale(nb, s, x, pos) && SymbolWaiting(s, x)
  {
    hide MarksKept, SymbolWaiting, NoLower;
    var p :| NewerBehind(nb, s, pos, p) && p[0] == x;
    forall i | 0 <= i < |p| - 1 ensures SymbolWaiting(s, p[i]) { StaleIsMarked(nb, s, pos, p, i); }
    assert AllMarked(s, p);
  }

  /** Marks are kept if and only if the symbols marked as waiting are just those that are stale somewhere. */
  lemma {:induction false} MarksExactly(nb: Notebook, s: State, order: seq<CellId>)
    requires SingleWriterAbove(nb) && Invariant(nb, s) && TopDown(nb, order)
    ensures MarksKept(s) <==> forall x :: SymbolWaiting(s, x) <==> exists pos :: StaleThere(nb, s, x, pos)
  {
    hide SingleWriterAbove, OutputsKept, CausesKept, TopDown, StaleThere, MarksKept, SymbolWaiting;
    forall x | SymbolWaiting(s, x) ensures exists pos :: StaleThere(nb, s, x, pos) {
      var pos := WrittenSomewhere(nb, s, x);
      WaitingIsStaleThere(nb, s, order, x, pos);
    }
    if MarksKept(s) {
      forall x, pos | StaleThere(nb, s, x, pos) ensures SymbolWaiting(s, x) { StaleIsMarkedStale(nb, s, x, pos); }
    }
    if forall x :: SymbolWaiting(s, x) <==> exists pos :: StaleThere(nb, s, x, pos) {
      forall y, p | HasCause(s, y, p) ensures SymbolWaiting(s, y) { CauseIsStaleness(nb, s, order, y, p); }
      MarksFrom(s);
    }
  }

  lemma {:induction false} WrittenSomewhere(nb: Notebook, s: State, x: Sym) returns (pos: int)
    requires Consistent(nb, s) && SymbolWaiting(s, x)
    ensures WrittenAtOrAbove(nb, s, x, pos)
  {
    pos := nb[s.cellAt[s.ts[x]]].position;
  }

  lemma {:induction false} CauseIsStaleness(nb: Notebook, s: State, order: seq<CellId>, y: Sym, p: Sym)
    requires SingleWriterAbove(nb) && Invariant(nb, s) && TopDown(nb, order) && HasCause(s, y, p)
    ensures exists pos :: StaleThere(nb, s, y, pos)
  {
    hide SingleWriterAbove, OutputsKept, CausesKept, TopDown, StaleThere;
    var w := WriterReads(nb, s, y);
    var v := WriterReads(nb, s, p);
    ParentWrittenAbove(nb, s, y, p, v);
    var pos := nb[w].position;
    assert NoLower(nb, s, p, y);
    if s.ts[p] > s.ts[y] {
      NewerParent(nb, s, y, p, pos);
    } else {
      WaitingIsStaleThere(nb, s, order, p, pos);
      StaleBehind(nb, s, y, p, pos, pos);
    }
  }

  lemma {:induction false} NewerParent(nb: Notebook, s: State, x: Sym, p: Sym, pos: int)
    requires x in s.parents && p in s.parents[x] && NoLower(nb, s, p, x) && WrittenAtOrAbove(nb, s, x, pos)
    requires x in s.ts && p in s.ts && s.ts[p] > s.ts[x]
    ensures StaleThere(nb, s, x, pos)
  {
    assert NewerBehind(nb, s, pos, [x, p]) && [x, p][0] == x;
  }

  ghost predicate NoInputWaits(nb: Notebook, s: State, r: CellId)
    requires r in nb
  {
    forall x <- nb[r].live :: !SymbolWaiting(s, x)
  }

  /** The symbol `x` was last written by `w`, and its parents are what `w` reads. */
  lemma {:induction false} WriterReads(nb: Notebook, s: State, x: Sym) returns (w: CellId)
    requires Consistent(nb, s) && SameSymbols(s) && ParentsAreLive(nb, s) && x in s.ts
    ensures w in nb && w == s.cellAt[s.ts[x]] && x in nb[w].writes && s.parents[x] == nb[w].live
  {
    w := s.cellAt[s.ts[x]];
  }

  /** A parent of a symbol was written strictly above the symbol's writer. */
  lemma {:induction false} ParentWrittenAbove(nb: Notebook, s: State, x: Sym, p: Sym, v: CellId)
    requires SingleWriterAbove(nb) && Consistent(nb, s) && SameSymbols(s) && ParentsAreLive(nb, s)
    requires x in s.ts && p in s.parents[x] && v in nb && p in nb[v].writes
    ensures nb[v].position < nb[s.cellAt[s.ts[x]]].position
  {
    hide SingleWriter;
    var w := WriterReads(nb, s, x);
    var u :| WriterAbove(nb, u, w, p);
    OneWriter(nb, u, v, p);
  }

  lemma {:induction false} OneWriter(nb: Notebook, u: CellId, v: CellId, x: Sym)
    requires SingleWriter(nb) && u in nb && v in nb && x in nb[u].writes && x in nb[v].writes
    ensures u == v
  {
    assert x in nb[u].writes * nb[v].writes;
  }

  /** `x` exists and was last written strictly below the cell `r`. */
  predicate WrittenBelow(nb: Notebook, s: State, r: CellId, x: Sym)
    requires r in nb
  {
    x in s.ts && s.ts[x] in s.cellAt && s.cellAt[s.ts[x]] in nb
    && nb[r].position < nb[s.cellAt[s.ts[x]]].position
  }

  lemma {:induction false} ChildWrittenBelow(nb: Notebook, s: State, r: CellId, written: set<Sym>, x: Sym, p: Sym)
    requires SingleWriterAbove(nb) && Consistent(nb, s) && SameSymbols(s) && ParentsAreLive(nb, s)
    requires r in nb && written <= nb[r].writes && x in s.ts && p in s.parents[x]
    requires p in written || WrittenBelow(nb, s, r, p)
    ensures WrittenBelow(nb, s, r, x)
  {
    hide SingleWriterAbove;
    var w := WriterReads(nb, s, x);
    if p in written {
      ParentWrittenAbove(nb, s, x, p, r);
    } else {
      var v := WriterReads(nb, s, p);
      ParentWrittenAbove(nb, s, x, p, v);
    }
  }

  /** Whatever a run of `r` marks was last written below it. */
  lemma {:induction false} MarkedWrittenBelow(nb: Notebook, s: State, r: CellId, written: set<Sym>,
                                              parents: map<Sym, set<Sym>>, q: seq<Sym>)
    requires SingleWriterAbove(nb) && Consistent(nb, s) && SameSymbols(s) && ParentsAreLive(nb, s)
    requires r in nb && written <= nb[r].writes && parents == Put(s.parents, written, nb[r].live)
    requires DependencyPath(parents, written, nb[r].live, q)
    ensures WrittenBelow(nb, s, r, q[|q| - 1])
    decreases |q|
  {
    hide SingleWriterAbove, Consistent, ParentsAreLive, Put, WrittenBelow;
    var p, x := q[|q| - 2], q[|q| - 1];
    assert x !in written && x in parents && p in parents[x] && x in s.parents && s.parents[x] == parents[x];
    if |q| > 2 {
      var init := q[..|q| - 1];
      assert DependencyPath(parents, written, nb[r].live, init) && init[|init| - 1] == p;
      MarkedWrittenBelow(nb, s, r, written, parents, init);
    }
    ChildWrittenBelow(nb, s, r, written, x, p);
  }

  lemma {:induction false} NotReadIfBelow(nb: Notebook, s: State, r: CellId, x: Sym)
    requires SingleWriterAbove(nb) && Consistent(nb, s) && r in nb && WrittenBelow(nb, s, r, x)
    ensures x !in nb[r].live
  {
    if x in nb[r].live {
      var u :| WriterAbove(nb, u, r, x);
      OneWriter(nb, u, s.cellAt[s.ts[x]], x);
    }
  }

  /** The child `y` of something written or marked is marked too. */
  lemma {:induction false} ChildIsMarked(nb: Notebook, s: State, r: CellId, written: set<Sym>,
                                         parents: map<Sym, set<Sym>>, y: Sym, p: Sym)
    requires SingleWriterAbove(nb) && Consistent(nb, s) && SameSymbols(s) && ParentsAreLive(nb, s)
    requires r in nb && written <= nb[r].writes && parents == Put(s.parents, written, nb[r].live)
    requires y in s.ts && y !in written && p in s.parents[y]
    requires p in written || p in Marked(parents, written, nb[r].live)
    ensures y in Marked(parents, written, nb[r].live)
  {
    hide SingleWriterAbove, Consistent, ParentsAreLive, Put, WrittenBelow;
    if p in written {
      ChildWrittenBelow(nb, s, r, written, y, p);
      NotReadIfBelow(nb, s, r, y);
      assert DependencyPath(parents, written, nb[r].live, [p, y]) && [p, y][1] == y;
    } else {
      var q :| DependencyPath(parents, written, nb[r].live, q) && q[|q| - 1] == p;
      MarkedWrittenBelow(nb, s, r, written, parents, q);
      ChildWrittenBelow(nb, s, r, written, y, p);
      NotReadIfBelow(nb, s, r, y);
      assert DependencyPath(parents, written, nb[r].live, q + [y]) && (q + [y])[|q|] == y;
    }
  }

  lemma {:induction false} MarkedNotRead(parents: map<Sym, set<Sym>>, written: set<Sym>, deps: set<Sym>)
    ensures Marked(parents, written, deps) !! deps
  {
    forall z | z in Marked(parents, written, deps) ensures z !in deps {
      var p :| DependencyPath(parents, written, deps, p) && p[|p| - 1] == z;
    }
  }

  lemma {:induction false} StepKeepsMark(nb: Notebook, s: State, s': State, r: CellId, written: set<Sym>,
                                         marked: set<Sym>, y: Sym, p: Sym)
    requires Consistent(nb, s) && s.ts.Keys == s.parents.Keys && MarksKept(s) && r in nb && NoInputWaits(nb, s, r)
    requires nb[r].live !! written && marked !! written && marked !! nb[r].live && s'.counter == s.counter + 1
    requires s'.ts == Put(s.ts, written, s'.counter) && s'.parents == Put(s.parents, written, nb[r].live)
    requires s'.required == Put(s.required - written, marked, s'.counter)
    requires y in s'.ts && p in s'.parents[y] && p in s'.ts && (s'.ts[p] > s'.ts[y] || SymbolWaiting(s', p))
    requires y !in written && (p in written || p in marked) ==> y in marked
    ensures SymbolWaiting(s', y)
  {
    hide Put;
    if y !in written && y !in marked {
      assert HasCause(s, y, p);
    }
  }

  /** Running a cell none of whose inputs waits keeps the marks. */
  lemma {:induction false} RunKeepsMarks(nb: Notebook, s: State, r: CellId)
    requires Notebook?(nb) && SingleWriterAbove(nb) && Invariant(nb, s) && MarksKept(s)
    requires r in nb && NoInputWaits(nb, s, r)
    ensures MarksKept(Run(nb, s, r))
  {
    hide Put, Marked, Run, SingleWriter, OutputsKept, CausesKept, Consistent, ParentsAreLive, Notebook?, MarksKept,
      NoInputWaits, SymbolWaiting, SameSymbols, SingleWriterAbove, Invariant;
    var s', written := Run(nb, s, r), Execute(nb[r], s).writes.Keys;
    RunFacts(nb, s, r);
    forall y, p | HasCause(s', y, p) ensures SymbolWaiting(s', y) { CauseIsMarked(nb, s, s', r, written, y, p); }
    assert MarksKept(s') by { MarksFrom(s'); }
  }

  lemma {:induction false} MarksFrom(s: State)
    requires forall y, p :: HasCause(s, y, p) ==> SymbolWaiting(s, y)
    ensures MarksKept(s)
  {
  }

  lemma {:induction false} RunFacts(nb: Notebook, s: State, r: CellId)
    requires Notebook?(nb) && SingleWriterAbove(nb) && Invariant(nb, s) && r in nb
    ensures var s', written := Run(nb, s, r), Execute(nb[r], s).writes.Keys;
            && written <= nb[r].writes && nb[r].live !! written && s'.counter == s.counter + 1
            && s'.parents == Put(s.parents, written, nb[r].live) && s'.ts == Put(s.ts, written, s'.counter)
            && s'.required == Put(s.required - written, Marked(s'.parents, written, nb[r].live), s'.counter)
  {
    assert WellFormed(nb[r]);
    ReadersBelow(nb, r, r);
    RecordIsPut(s, r, nb[r].live, Execute(nb[r], s));
  }

  lemma {:induction false} CauseIsMarked(nb: Notebook, s: State, s': State, r: CellId, written: set<Sym>, y: Sym,
                                         p: Sym)
    requires SingleWriterAbove(nb) && Invariant(nb, s) && MarksKept(s) && r in nb && NoInputWaits(nb, s, r)
    requires written <= nb[r].writes && nb[r].live !! written && s'.counter == s.counter + 1
    requires s'.parents == Put(s.parents, written, nb[r].live) && s'.ts == Put(s.ts, written, s'.counter)
    requires s'.required == Put(s.required - written, Marked(s'.parents, written, nb[r].live), s'.counter)
    requires HasCause(s', y, p)
    ensures SymbolWaiting(s', y)
  {
    hide Put, Marked, SingleWriter, OutputsKept, CausesKept, Consistent, ParentsAreLive, MarksKept, NoInputWaits,
      SymbolWaiting;
    var marked := Marked(s'.parents, written, nb[r].live);
    MarkedNotWritten(s'.parents, written, nb[r].live);
    MarkedNotRead(s'.parents, written, nb[r].live);
    if y !in written && (p in written || p in marked) {
      ChildIsMarked(nb, s, r, written, s'.parents, y, p);
    }
    StepKeepsMark(nb, s, s', r, written, marked, y, p);
  }

  //////////////////// Ready cells have nothing stale upstream ////////////////////

  /** A waiting symbol is stale wherever its writer is at or above. */
  lemma {:induction false} WaitingIsStaleThere(nb: Notebook, s: State, order: seq<CellId>, x: Sym, pos: int)
    requires SingleWriterAbove(nb) && Invariant(nb, s) && TopDown(nb, order)
    requires SymbolWaiting(s, x) && WrittenAtOrAbove(nb, s, x, pos)
    ensures StaleThere(nb, s, x, pos)
    decreases IndexOf(order, s.cellAt[s.ts[x]])
  {
    hide SingleWriter, OutputsKept, SingleWriterAbove;
    var w := WriterReads(nb, s, x);
    assert WaitingHasCause(s, x);
    var p :| p in s.parents[x] && p in s.ts && (s.ts[p] > s.ts[x] || SymbolWaiting(s, p));
    hide CausesKept, WaitingHasCause, ParentsAreLive, Consistent;
    var v := WriterReads(nb, s, p);
    ParentWrittenAbove(nb, s, x, p, v);
    assert NoLower(nb, s, p, x);
    if s.ts[p] > s.ts[x] {
      NewerParent(nb, s, x, p, pos);
    } else {
      IndexMonotone(nb, order, v, w);
      hide TopDown;
      WaitingIsStaleThere(nb, s, order, p, nb[w].position);
      StaleBehind(nb, s, x, p, nb[w].position, pos);
    }
  }

  lemma {:induction false} StaleBehind(nb: Notebook, s: State, x: Sym, p: Sym, at: int, pos: int)
    requires StaleThere(nb, s, p, at) && x in s.parents && p in s.parents[x]
    requires NoLower(nb, s, p, x) && WrittenAtOrAbove(nb, s, x, pos)
    ensures StaleThere(nb, s, x, pos)
  {
    hide NoLower, WrittenAtOrAbove;
    var q :| NewerBehind(nb, s, at, q) && q[0] == p;
    var all := [x] + q;
    forall i | 0 < i < |all| ensures NoLower(nb, s, all[i], all[i - 1]) {
      if i > 1 { assert NoLower(nb, s, q[i - 1], q[i - 1 - 1]); }
    }
    forall i | 0 <= i < |all| - 1 ensures all[i] in s.parents && all[i + 1] in s.parents[all[i]] {
      if i > 0 { assert q[i - 1 + 1] in s.parents[q[i - 1]]; }
    }
    assert NewerBehind(nb, s, pos, all) && all[0] == x;
  }

  /** A cell with an input that is stale at its own position waits. */
  lemma {:induction false} StaleInputWaits(nb: Notebook, s: State, verdict: Verdict, c: CellId, x: Sym)
    requires Recognises(nb, s, verdict) && c in nb && x in nb[c].live && StaleThere(nb, s, x, nb[c].position)
    ensures Waiting(nb, s, verdict, c) && !Ready(nb, s, verdict, c)
  {
  }

  lemma {:induction false} ReadyHasNoWaitingInput(nb: Notebook, s: State, verdict: Verdict, order: seq<CellId>,
                                                  c: CellId)
    requires SingleWriterAbove(nb) && Invariant(nb, s) && TopDown(nb, order) && Recognises(nb, s, verdict)
    requires c in nb && Ready(nb, s, verdict, c)
    ensures NoInputWaits(nb, s, c)
  {
    hide SingleWriter, OutputsKept, CausesKept, TopDown, Stale, Recognises, StaleThere;
    forall x | x in nb[c].live ensures !SymbolWaiting(s, x) {
      if SymbolWaiting(s, x) {
        var w :| WriterAbove(nb, w, c, x);
        LastWriter(nb, s, w, x);
        WaitingIsStaleThere(nb, s, order, x, nb[c].position);
        StaleInputWaits(nb, s, verdict, c, x);
      }
    }
  }

  /** Each cell assigns a symbol that the next one reads. */
  ghost predicate FeedPath(nb: Notebook, e: seq<CellId>) {
    && |e| >= 1 && (forall i :: 0 <= i < |e| ==> e[i] in nb)
    && (forall i :: 0 < i < |e| ==> Feeds(nb, e[i - 1], e[i]))
  }

  predicate Feeds(nb: Notebook, d: CellId, c: CellId) {
    d in nb && c in nb && exists x :: x in nb[d].writes && x in nb[c].live
  }

  lemma {:induction false} FeedsDown(nb: Notebook, d: CellId, c: CellId)
    requires SingleWriterAbove(nb) && Feeds(nb, d, c)
    ensures nb[d].position < nb[c].position
  {
    var x :| x in nb[d].writes && x in nb[c].live;
    var w :| WriterAbove(nb, w, c, x);
    OneWriter(nb, w, d, x);
  }

  /** What a cell assigned last has as parents what the cell reads, and is as old as its last run. */
  lemma {:induction false} OutputOf(nb: Notebook, s: State, d: CellId, y: Sym)
    requires SingleWriter(nb) && Consistent(nb, s) && SameSymbols(s) && ParentsAreLive(nb, s)
    requires d in nb && Clean(nb, s, d) && y in nb[d].writes && y in s.ts
    ensures s.cellAt[s.ts[y]] == d && s.parents[y] == nb[d].live && d in s.ctr && s.ts[y] == s.ctr[d]
  {
    LastWriter(nb, s, d, y);
  }

  /** Staleness comes down with the symbols each cell passes on to the next. */
  lemma {:induction false} StalenessComesDown(nb: Notebook, s: State, e: seq<CellId>) returns (x: Sym)
    requires SingleWriterAbove(nb) && Invariant(nb, s) && NoLeftovers(nb, s) && Resolved(nb, s)
    requires FeedPath(nb, e) && |e| >= 2 && Stale(nb, s, e[0])
    ensures x in nb[e[|e| - 1]].live && StaleThere(nb, s, x, nb[e[|e| - 1]].position)
    decreases |e|
  {
    hide SingleWriter, OutputsKept, CausesKept, Consistent, ParentsAreLive, Clean, StaleThere, Feeds;
    var d, c := e[|e| - 2], e[|e| - 1];
    assert Feeds(nb, d, c);
    FeedsDown(nb, d, c);
    x := Passed(nb, d, c);
    assert Clean(nb, s, d);
    OutputOf(nb, s, d, x);
    WrittenBy(nb, s, d, x, nb[c].position);
    if |e| > 2 {
      var y := StalenessComesDown(nb, s, e[..|e| - 1]);
      BehindIsWritten(nb, s, y, nb[d].position);
      StaleBehind(nb, s, x, y, nb[d].position, nb[c].position);
    } else {
      var p :| p in nb[d].live && WrittenAtOrAbove(nb, s, p, nb[d].position) && s.ts[p] > Ctr(s, d);
      NewerParent(nb, s, x, p, nb[c].position);
    }
  }

  lemma {:induction false} Passed(nb: Notebook, d: CellId, c: CellId) returns (x: Sym)
    requires Feeds(nb, d, c)
    ensures x in nb[d].writes && x in nb[c].live
  {
    x :| x in nb[d].writes && x in nb[c].live;
  }

  lemma {:induction false} WrittenBy(nb: Notebook, s: State, d: CellId, x: Sym, pos: int)
    requires Consistent(nb, s) && x in s.ts && s.cellAt[s.ts[x]] == d && d in nb && nb[d].position <= pos
    ensures WrittenAtOrAbove(nb, s, x, pos)
    ensures forall p :: WrittenAtOrAbove(nb, s, p, nb[d].position) ==> NoLower(nb, s, p, x)
  {
  }

  lemma {:induction false} BehindIsWritten(nb: Notebook, s: State, x: Sym, pos: int)
    requires StaleThere(nb, s, x, pos)
    ensures WrittenAtOrAbove(nb, s, x, pos)
  {
  }

  /** A ready cell has no stale cell among those its inputs come from, however far up. */
  lemma {:induction false} ReadyHasNothingStaleUpstream(nb: Notebook, s: State, verdict: Verdict, e: seq<CellId>)
    requires SingleWriterAbove(nb) && Invariant(nb, s) && Recognises(nb, s, verdict)
    requires NoLeftovers(nb, s) && Resolved(nb, s)
    requires FeedPath(nb, e) && |e| >= 2 && Ready(nb, s, verdict, e[|e| - 1])
    ensures !Stale(nb, s, e[0])
  {
    hide SingleWriterAbove, Invariant, Recognises, NoLeftovers, Resolved, Stale, Ready, StaleThere;
    if Stale(nb, s, e[0]) {
      var x := StalenessComesDown(nb, s, e);
      StaleInputWaits(nb, s, verdict, e[|e| - 1], x);
    }
  }

  //////////////////// Once is enough ////////////////////

  /** Neither `c` nor any cell upstream of it is stale. */
  ghost predicate Calm(nb: Notebook, s: State, c: CellId) {
    forall e :: FeedPath(nb, e) && e[|e| - 1] == c ==> !Stale(nb, s, e[0])
  }

  lemma {:induction false} NewlyStaleReads(nb: Notebook, s: State, r: CellId, c: CellId)
    requires Notebook?(nb) && Consistent(nb, s) && r in nb && c in nb
    requires Stale(nb, Run(nb, s, r), c) && !Stale(nb, s, c)
    ensures Feeds(nb, r, c)
  {
    assert WellFormed(nb[r]);
    RecordStalesReaders(nb, s, r, Execute(nb[r], s), c);
  }

  lemma {:induction false} RecordStalesReaders(nb: Notebook, s: State, r: CellId, out: Outcome, c: CellId)
    requires Consistent(nb, s) && r in nb && c in nb && out.writes.Keys <= nb[r].writes
    requires Stale(nb, Record(s, r, nb[r].live, out), c) && !Stale(nb, s, c)
    ensures Feeds(nb, r, c)
  {
    hide Marked;
    var s' := Record(s, r, nb[r].live, out);
    var x :| x in nb[c].live && WrittenAtOrAbove(nb, s', x, nb[c].position) && s'.ts[x] > Ctr(s', c);
    if x !in out.writes {
      assert WrittenAtOrAbove(nb, s, x, nb[c].position);
    }
  }

  lemma {:induction false} CalmStays(nb: Notebook, s: State, r: CellId, c: CellId)
    requires Notebook?(nb) && Consistent(nb, s) && r in nb && Stale(nb, s, r) && Calm(nb, s, c)
    ensures Calm(nb, Run(nb, s, r), c)
  {
    hide Run, Stale, Feeds, Notebook?, Consistent;
    forall e | FeedPath(nb, e) && e[|e| - 1] == c ensures !Stale(nb, Run(nb, s, r), e[0]) {
      if Stale(nb, Run(nb, s, r), e[0]) {
        NewlyStaleReads(nb, s, r, e[0]);
        LongerPath(nb, r, e);
      }
    }
  }

  lemma {:induction false} LongerPath(nb: Notebook, r: CellId, e: seq<CellId>)
    requires FeedPath(nb, e) && r in nb && Feeds(nb, r, e[0])
    ensures FeedPath(nb, [r] + e) && ([r] + e)[|e|] == e[|e| - 1] && ([r] + e)[0] == r
  {
    hide Feeds;
    var p := [r] + e;
    forall i | 0 < i < |p| ensures Feeds(nb, p[i - 1], p[i]) {
      if i > 1 { assert Feeds(nb, e[i - 1 - 1], e[i - 1]); }
    }
  }

  lemma {:induction false} PathGoesDown(nb: Notebook, e: seq<CellId>)
    requires SingleWriterAbove(nb) && FeedPath(nb, e) && |e| >= 2
    ensures nb[e[0]].position < nb[e[|e| - 1]].position
    decreases |e|
  {
    hide SingleWriterAbove, Feeds;
    assert Feeds(nb, e[|e| - 2], e[|e| - 1]);
    FeedsDown(nb, e[|e| - 2], e[|e| - 1]);
    if |e| > 2 { PathGoesDown(nb, e[..|e| - 1]); }
  }

  lemma {:induction false} CalmOnceRun(nb: Notebook, s: State, verdict: Verdict, r: CellId)
    requires Notebook?(nb) && SingleWriterAbove(nb) && Invariant(nb, s) && Recognises(nb, s, verdict)
    requires NoLeftovers(nb, s) && Resolved(nb, s) && r in nb && Ready(nb, s, verdict, r)
    ensures Calm(nb, Run(nb, s, r), r)
  {
    hide SingleWriterAbove, Recognises, NoLeftovers, Resolved, Ready, Run, Stale, Feeds,
      Notebook?, Consistent, OutputsKept, ParentsAreLive, CausesKept;
    RunClearsAndStalesOnlyBelow(nb, s, r);
    forall e | FeedPath(nb, e) && e[|e| - 1] == r ensures !Stale(nb, Run(nb, s, r), e[0]) {
      if |e| >= 2 {
        ReadyHasNothingStaleUpstream(nb, s, verdict, e);
        PathGoesDown(nb, e);
      }
    }
  }

  /** At every point of the runs the verdict recognises what is stale, and nothing is left over. */
  ghost predicate CleanRun(nb: Notebook, s: State, verdict: Verdict, runs: seq<CellId>)
    decreases |runs|
  {
    && NoLeftovers(nb, s) && Recognises(nb, s, verdict)
    && (runs != [] && runs[0] in nb ==> CleanRun(nb, Run(nb, s, runs[0]), verdict, runs[1..]))
  }

  lemma {:induction false} RunKeepsResolved(nb: Notebook, s: State, r: CellId)
    requires Notebook?(nb) && SingleWriterAbove(nb) && Invariant(nb, s) && Resolved(nb, s) && r in nb
    ensures Invariant(nb, Run(nb, s, r)) && Resolved(nb, Run(nb, s, r)) && Consistent(nb, s)
  {
    hide Run, SingleWriterAbove, Notebook?, Consistent, OutputsKept, ParentsAreLive, CausesKept;
    RunKeepsInvariant(nb, s, r);
    RunFacts(nb, s, r);
  }

  lemma {:induction false} NoneTwice(nb: Notebook, s: State, verdict: Verdict, done: set<CellId>, runs: seq<CellId>)
    requires Notebook?(nb) && SingleWriterAbove(nb) && Invariant(nb, s) && Resolved(nb, s)
    requires ReadyRun(nb, s, verdict, runs) && CleanRun(nb, s, verdict, runs)
    requires done <= nb.Keys && forall d <- done :: Calm(nb, s, d)
    ensures forall c <- runs :: c !in done
    ensures forall i, j :: 0 <= i < j < |runs| ==> runs[i] != runs[j]
    ensures |done| + |runs| <= |nb.Keys|
    decreases |runs|
  {
    hide SingleWriterAbove, Recognises, Run, Stale, Notebook?, NoLeftovers, Calm, Ready, Invariant, Resolved,
      Consistent;
    if runs == [] {
      SubsetSize(done, nb.Keys);
    } else {
      var r := runs[0];
      var s' := Run(nb, s, r);
      RunKeepsResolved(nb, s, r);
      CalmOnceRun(nb, s, verdict, r);
      ReadyIsStale(nb, s, verdict, r);
      forall d | d in done ensures Calm(nb, s', d) && d != r {
        CalmIsNotStale(nb, s, d);
        CalmStays(nb, s, r, d);
      }
      NoneTwice(nb, s', verdict, done + {r}, runs[1..]);
    }
  }

  lemma {:induction false} ReadyIsStale(nb: Notebook, s: State, verdict: Verdict, r: CellId)
    requires r in nb && Ready(nb, s, verdict, r)
    ensures Stale(nb, s, r)
  {
  }

  lemma {:induction false} CalmIsNotStale(nb: Notebook, s: State, c: CellId)
    requires c in nb && Calm(nb, s, c)
    ensures !Stale(nb, s, c)
  {
    hide Stale;
    assert FeedPath(nb, [c]) && [c][0] == c;
  }

  lemma {:induction false} SubsetSize<T>(a: set<T>, b: set<T>)
    requires a <= b
    ensures |a| <= |b|
  {
    assert b == a + (b - a);
  }

  /**
   * Reactive execution runs each cell once at most, so within n runs, after any session, as long as the
   * verdict recognises what is stale, names resolve and nothing is left over on the way.
   */
  lemma {:induction false} ReactiveRunsOnce(nb: Notebook, session: seq<CellId>, verdict: Verdict,
                                            reactive: seq<CellId>)
    requires Notebook?(nb) && SingleWriterAbove(nb) && forall c <- session :: c in nb
    requires Resolved(nb, RunAll(nb, Start, session))
    requires ReadyRun(nb, RunAll(nb, Start, session), verdict, reactive)
    requires CleanRun(nb, RunAll(nb, Start, session), verdict, reactive)
    ensures forall i, j :: 0 <= i < j < |reactive| ==> reactive[i] != reactive[j]
    ensures |reactive| <= |nb.Keys|
  {
    hide *;
    StartKeepsInvariant(nb);
    SessionKeepsInvariant(nb, Start, session);
    NoneTwice(nb, RunAll(nb, Start, session), verdict, {}, reactive);
  }

  //////////////////// Looking behind marked symbols only ////////////////////

  /** Runs of cells none of whose inputs waits at the time. */
  ghost predicate CarefulRun(nb: Notebook, s: State, runs: seq<CellId>)
    decreases |runs|
  {
    runs != [] ==> runs[0] in nb && NoInputWaits(nb, s, runs[0]) && CarefulRun(nb, Run(nb, s, runs[0]), runs[1..])
  }

  lemma {:induction false} CarefulRunKeepsMarks(nb: Notebook, s: State, runs: seq<CellId>)
    requires Notebook?(nb) && SingleWriterAbove(nb) && Invariant(nb, s) && MarksKept(s) && CarefulRun(nb, s, runs)
    ensures forall c <- runs :: c in nb
    ensures Invariant(nb, RunAll(nb, s, runs)) && MarksKept(RunAll(nb, s, runs))
    decreases |runs|
  {
    hide Invariant, MarksKept, Run, NoInputWaits, Notebook?, SingleWriterAbove;
    if runs != [] {
      RunKeepsInvariant(nb, s, runs[0]);
      RunKeepsMarks(nb, s, runs[0]);
      CarefulRunKeepsMarks(nb, Run(nb, s, runs[0]), runs[1..]);
    }
  }

  /** After such a session, and as long as reactive runs go on from it, a verdict that misses nothing
      marked recognises everything stale. */
  lemma {:induction false} CarefulRunIsRecognised(nb: Notebook, session: seq<CellId>, verdict: Verdict,
                                                  order: seq<CellId>, reactive: seq<CellId>)
    requires Notebook?(nb) && SingleWriterAbove(nb) && TopDown(nb, order) && CompleteOnMarked(nb, verdict)
    requires (forall c <- session :: c in nb) && CarefulRun(nb, Start, session)
    requires ReadyRun(nb, RunAll(nb, Start, session), verdict, reactive)
    ensures forall c <- reactive :: c in nb
    ensures var s := RunAll(nb, RunAll(nb, Start, session), reactive); MarksKept(s) && Recognises(nb, s, verdict)
  {
    hide *;
    StartKeepsInvariant(nb);
    StartKeepsMarks();
    CarefulRunKeepsMarks(nb, Start, session);
    ReadyRunKeepsMarks(nb, RunAll(nb, Start, session), verdict, order, reactive);
    MarkedIsEnough(nb, RunAll(nb, RunAll(nb, Start, session), reactive), verdict);
  }

  lemma {:induction false} ReadyRunKeepsMarks(nb: Notebook, s: State, verdict: Verdict, order: seq<CellId>,
                                              runs: seq<CellId>)
    requires Notebook?(nb) && SingleWriterAbove(nb) && TopDown(nb, order) && CompleteOnMarked(nb, verdict)
    requires Invariant(nb, s) && MarksKept(s) && ReadyRun(nb, s, verdict, runs)
    ensures (forall c <- runs :: c in nb) && MarksKept(RunAll(nb, s, runs))
    decreases |runs|
  {
    hide Invariant, MarksKept, Run, NoInputWaits, Notebook?, SingleWriterAbove, TopDown, CompleteOnMarked, Recognises,
      Ready;
    if runs != [] {
      MarkedIsEnough(nb, s, verdict);
      ReadyHasNoWaitingInput(nb, s, verdict, order, runs[0]);
      RunKeepsInvariant(nb, s, runs[0]);
      RunKeepsMarks(nb, s, runs[0]);
      ReadyRunKeepsMarks(nb, Run(nb, s, runs[0]), verdict, order, runs[1..]);
    }
  }

  lemma {:induction false} StartKeepsMarks()
    ensures MarksKept(Start)
  {
  }

  //////////////////// Care is needed ////////////////////

  function Constant(position: int, live: set<Sym>, x: Sym): CellSpec {
    CellSpec(position, live, {x}, (env: map<Sym, Value>) => Outcome(map[x := L.Num(0)], true))
  }

  /** Four cells in a row, each reading what the one above assigns. */
  const Row: Notebook := map[0 := Constant(0, {}, "a"), 1 := Constant(1, {"a"}, "b"),
                             2 := Constant(2, {"b"}, "c"), 3 := Constant(3, {"c"}, "d")]

  lemma {:induction false} RowIsNotebook()
    ensures Notebook?(Row)
  {
    forall c | c in Row ensures WellFormed(Row[c]) && Row[c].position == c { RowCell(c); }
  }

  lemma {:induction false} RowCell(c: CellId)
    requires c in Row
    ensures c <= 3 && WellFormed(Row[c]) && Row[c].position == c && Row[c].writes == {["a", "b", "c", "d"][c]}
    ensures Row[c].live == if c == 0 then {} else {["a", "b", "c", "d"][c - 1]}
  {
  }

  lemma {:induction false} RowIsOrdered()
    ensures SingleWriterAbove(Row) && FeedPath(Row, [1, 2, 3])
  {
    forall c, d | c in Row && d in Row && c != d ensures Row[c].writes !! Row[d].writes {
      RowCell(c);
      RowCell(d);
    }
    forall c, x | c in Row && x in Row[c].live ensures WriterAbove(Row, c - 1, c, x) {
      RowCell(c);
      RowCell(c - 1);
    }
    assert SingleWriterAbove(Row) by { hide Row; }
    RowFeeds();
  }

  lemma {:induction false} RowFeeds()
    ensures FeedPath(Row, [1, 2, 3])
  {
    assert "b" in Row[1].writes && "b" in Row[2].live && "c" in Row[2].writes && "c" in Row[3].live;
    assert Feeds(Row, 1, 2) && Feeds(Row, 2, 3);
    hide Feeds;
  }

  lemma {:induction false} RowStep(s: State, c: CellId) returns (s': State)
    requires c in Row && c <= 3
    ensures s' == Run(Row, s, c) && s'.counter == s.counter + 1
    ensures s'.ctr == s.ctr[c := s'.counter] && s'.cellAt == s.cellAt[s'.counter := c]
    ensures var x := ["a", "b", "c", "d"][c]; s'.ts == s.ts[x := s'.counter] && x !in s'.required
  {
    hide Marked, Restrict, Put, RunAll;
    s' := Run(Row, s, c);
    var x := ["a", "b", "c", "d"][c];
    assert Execute(Row[c], s) == Outcome(map[x := L.Num(0)], true);
    RecordAssignment(s, c, Row[c].live, x, L.Num(0));
  }

  lemma {:induction false} CarelessSession() returns (s1: State, s2: State, s3: State, s4: State, s5: State, s6: State)
    ensures s1 == Run(Row, Start, 0) && s2 == Run(Row, s1, 1) && s3 == Run(Row, s2, 2) && s4 == Run(Row, s3, 3)
    ensures s5 == Run(Row, s4, 0) && s6 == Run(Row, s5, 2) && "c" !in s6.required
    ensures s6.ctr.Keys == {0, 1, 2, 3} && s6.ctr[3] == 4 && s6.ctr[1] == 2
    ensures "a" in s6.ts && s6.ts["a"] == 5 && "c" in s6.ts && s6.ts["c"] == 6 && "b" in s6.ts
    ensures 5 in s6.cellAt && s6.cellAt[5] == 0 && 6 in s6.cellAt && s6.cellAt[6] == 2
  {
    hide Run, Row;
    assert forall c: nat :: c <= 3 ==> c in Row by { RowCells(); }
    s1 := RowStep(Start, 0);
    s2 := RowStep(s1, 1);
    s3 := RowStep(s2, 2);
    s4 := RowStep(s3, 3);
    s5 := RowStep(s4, 0);
    s6 := RowStep(s5, 2);
  }

  lemma {:induction false} RowCells()
    ensures forall c: nat :: c <= 3 ==> c in Row
    ensures forall c <- Row :: c <= 3
  {
  }

  lemma {:induction false} RowRuns(s1: State, s2: State, s3: State, s4: State, s5: State, s6: State)
    requires s1 == Run(Row, Start, 0) && s2 == Run(Row, s1, 1) && s3 == Run(Row, s2, 2) && s4 == Run(Row, s3, 3)
    requires s5 == Run(Row, s4, 0) && s6 == Run(Row, s5, 2)
    ensures RunAll(Row, Start, [0, 1, 2, 3, 0, 2]) == s6
  {
    hide Run;
    assert [0, 1, 2, 3, 0, 2][1..] == [1, 2, 3, 0, 2] && [1, 2, 3, 0, 2][1..] == [2, 3, 0, 2];
    assert [2, 3, 0, 2][1..] == [3, 0, 2] && [3, 0, 2][1..] == [0, 2] && [0, 2][1..] == [2] && [2][1..] == [];
    assert RunAll(Row, s4, [0, 2]) == s6;
    assert RunAll(Row, s2, [2, 3, 0, 2]) == RunAll(Row, s4, [0, 2]);
  }

  /** A cell run while its input waits hides what is stale above it: cell 3 becomes ready, with cell 1,
      from which its input comes, still stale. */
  lemma {:induction false} CarelessRunMisleads(verdict: Verdict)
    requires Gated(verdict)
    ensures Notebook?(Row) && SingleWriterAbove(Row) && FeedPath(Row, [1, 2, 3])
    ensures var s := RunAll(Row, Start, [0, 1, 2, 3, 0, 2]);
            AllRan(Row, s) && Ready(Row, s, verdict, 3) && Stale(Row, s, 1)
  {
    hide Run, RunAll, SingleWriterAbove, Notebook?, FeedPath;
    RowIsNotebook();
    RowIsOrdered();
    var s1, s2, s3, s4, s5, s := CarelessSession();
    RowRuns(s1, s2, s3, s4, s5, s);
    RowCells();
    assert "c" in Row[3].live && WrittenAtOrAbove(Row, s, "c", Row[3].position);
    assert "a" in Row[1].live && WrittenAtOrAbove(Row, s, "a", Row[1].position);
  }
}
