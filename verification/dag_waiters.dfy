/**
 * DAG-based scheduling: every checked cell strictly downstream of a ready cell has to wait.
 */
module DagWaiters {
  import opened WaiterLinks

  /** A chain of directional parents down from a source, through checked cells. */
  ghost predicate DownPath(parents: Links, checked: set<CellId>, sources: set<CellId>, p: seq<CellId>) {
    && |p| >= 2 && p[0] in sources
    && (forall i :: 0 < i < |p| ==> p[i] in checked && p[i - 1] in Get(parents, p[i]))
  }

  ghost predicate Downstream(parents: Links, checked: set<CellId>, sources: set<CellId>, c: CellId) {
    exists p :: DownPath(parents, checked, sources, p) && p[|p| - 1] == c
  }

  /** The cells waiting in the end, given the ready and the waiting ones at the start. */
  ghost function DagWaiting(parents: Links, checked: set<CellId>, ready: set<CellId>, waiting: set<CellId>)
    : set<CellId>
  {
    waiting + set c | c in checked && Downstream(parents, checked, ready + waiting, c)
  }

  /** No checked cell outside `waiting` has a ready or waiting parent. */
  ghost predicate Saturated(parents: Links, checked: set<CellId>, ready: set<CellId>, waiting: set<CellId>) {
    forall c <- checked :: c !in waiting ==> Get(parents, c) !! ready + waiting
  }

  lemma {:induction false} StepDown(parents: Links, checked: set<CellId>, ready: set<CellId>, waiting: set<CellId>,
                                    m: CellId, c: CellId)
    requires m in ready || m in DagWaiting(parents, checked, ready, waiting)
    requires c in checked && m in Get(parents, c)
    ensures c in DagWaiting(parents, checked, ready, waiting)
  {
    var sources := ready + waiting;
    if m in sources {
      assert DownPath(parents, checked, sources, [m, c]) && [m, c][1] == c;
    } else {
      var p :| DownPath(parents, checked, sources, p) && p[|p| - 1] == m;
      assert DownPath(parents, checked, sources, p + [c]) && (p + [c])[|p|] == c;
    }
  }

  lemma {:induction false} SaturatedCovers(parents: Links, checked: set<CellId>, ready: set<CellId>,
                                           waiting0: set<CellId>, waiting: set<CellId>, p: seq<CellId>)
    requires Saturated(parents, checked, ready, waiting) && waiting0 <= waiting
    requires DownPath(parents, checked, ready + waiting0, p)
    ensures p[|p| - 1] in waiting
    decreases |p|
  {
    var m, c := p[|p| - 2], p[|p| - 1];
    if |p| > 2 {
      var init := p[..|p| - 1];
      SaturatedCovers(parents, checked, ready, waiting0, waiting, init);
      assert init[|init| - 1] == m;
    }
    assert m in Get(parents, c) && m in ready + waiting;
  }

  /** The downstream set is saturated, and the least saturated set above the initial one. */
  lemma {:induction false} DagWaitingIsLeast(parents: Links, checked: set<CellId>, ready: set<CellId>,
                                             waiting0: set<CellId>,
                          other: set<CellId>)
    ensures Saturated(parents, checked, ready, DagWaiting(parents, checked, ready, waiting0))
    ensures waiting0 <= other && Saturated(parents, checked, ready, other)
            ==> DagWaiting(parents, checked, ready, waiting0) <= other
  {
    var w := DagWaiting(parents, checked, ready, waiting0);
    forall c, m | c in checked && c !in w && m in Get(parents, c) ensures m !in ready + w {
      if m in ready + w { StepDown(parents, checked, ready, waiting0, m, c); }
    }
    if waiting0 <= other && Saturated(parents, checked, ready, other) {
      forall c | c in w && c !in waiting0 ensures c in other {
        var p :| DownPath(parents, checked, ready + waiting0, p) && p[|p| - 1] == c;
        SaturatedCovers(parents, checked, ready, waiting0, other, p);
      }
    }
  }

  //////////////////// What the demotion leaves ////////////////////

  /** Positions strictly increase from parent to child, as in-order directional parents do. */
  ghost predicate InOrder(parents: Links, position: map<CellId, int>) {
    forall c, m :: m in Get(parents, c) ==> m in position && c in position && position[m] < position[c]
  }

  lemma {:induction false} ParentIsAbove(parents: Links, position: map<CellId, int>, c: CellId, m: CellId)
    requires InOrder(parents, position) && m in Get(parents, c)
    ensures m in position && c in position && position[m] < position[c]
  {
  }

  lemma {:induction false} DownPathDescends(parents: Links, checked: set<CellId>, sources: set<CellId>,
                                            p: seq<CellId>, position: map<CellId, int>)
    requires InOrder(parents, position) && DownPath(parents, checked, sources, p)
    ensures p[0] in position && p[|p| - 1] in position && position[p[0]] < position[p[|p| - 1]]
    decreases |p|
  {
    var m, c := p[|p| - 2], p[|p| - 1];
    assert m in Get(parents, c);
    if |p| > 2 { DownPathDescends(parents, checked, sources, p[..|p| - 1], position); }
  }

  /** In-order, demotion never empties the ready set: its topmost cell stays. */
  lemma {:induction false} TopmostReadyStays(parents: Links, checked: set<CellId>, ready: set<CellId>,
                          position: map<CellId, int>, top: CellId)
    requires InOrder(parents, position) && top in ready && ready <= position.Keys
    requires forall c <- ready :: position[top] <= position[c]
    ensures top in ready - DagWaiting(parents, checked, ready, {})
  {
    if top in DagWaiting(parents, checked, ready, {}) {
      var p :| DownPath(parents, checked, ready + {}, p) && p[|p| - 1] == top;
      DownPathDescends(parents, checked, ready + {}, p, position);
    }
  }

  /** A ready cell keeps no ready and no waiting parent. */
  lemma {:induction false} ReadyCellsHaveSettledParents(parents: Links, checked: set<CellId>, ready: set<CellId>,
                                                        waiting0: set<CellId>)
    requires ready <= checked
    ensures var w := DagWaiting(parents, checked, ready, waiting0);
            forall c <- ready - w :: Get(parents, c) !! ready + w
  {
    DagWaitingIsLeast(parents, checked, ready, waiting0, {});
  }

  /** `c` is downstream of the one cell `m`. */
  ghost predicate Below(parents: Links, checked: set<CellId>, m: CellId, c: CellId) {
    Downstream(parents, checked, {m}, c)
  }

  lemma {:induction false} BelowTransitive(parents: Links, checked: set<CellId>, k: CellId, m: CellId, c: CellId)
    requires Below(parents, checked, k, m) && Below(parents, checked, m, c)
    ensures Below(parents, checked, k, c)
  {
    var p :| DownPath(parents, checked, {k}, p) && p[|p| - 1] == m;
    var q :| DownPath(parents, checked, {m}, q) && q[|q| - 1] == c;
    var r := p + q[1..];
    assert DownPath(parents, checked, {k}, r) && r[|r| - 1] == c;
  }

  lemma {:induction false} BelowIsDownstream(parents: Links, checked: set<CellId>, among: set<CellId>, m: CellId,
                                             c: CellId)
    requires m in among && Below(parents, checked, m, c)
    ensures Downstream(parents, checked, among, c)
  {
    var p :| DownPath(parents, checked, {m}, p) && p[|p| - 1] == c;
    assert DownPath(parents, checked, among, p);
  }

  lemma {:induction false} DownstreamIsBelow(parents: Links, checked: set<CellId>, among: set<CellId>, c: CellId)
    returns (m: CellId)
    requires Downstream(parents, checked, among, c)
    ensures m in among && Below(parents, checked, m, c)
  {
    var p :| DownPath(parents, checked, among, p) && p[|p| - 1] == c;
    m := p[0];
    assert DownPath(parents, checked, {m}, p);
  }

  /** Climbing from cell to cell above it within a finite set comes round to some cell again. */
  lemma {:induction false} ClimbingComesRound(parents: Links, checked: set<CellId>, among: set<CellId>)
    returns (d: CellId)
    requires among != {} && forall c <- among :: Downstream(parents, checked, among, c)
    ensures d in among && Below(parents, checked, d, d)
    decreases |among|
  {
    hide Below, Downstream;
    var c :| c in among;
    var m := DownstreamIsBelow(parents, checked, among, c);
    if m == c { return c; }
    var others := among - {c};
    forall x | x in others ensures Downstream(parents, checked, others, x) {
      var y := DownstreamIsBelow(parents, checked, among, x);
      if y == c {
        BelowTransitive(parents, checked, m, c, x);
        y := m;
      }
      BelowIsDownstream(parents, checked, others, y, x);
    }
    assert m in others;
    d := ClimbingComesRound(parents, checked, others);
  }

  /** `c` is downstream of a cell in `ready` that lies on a cycle of parents. */
  ghost predicate BelowACycle(parents: Links, checked: set<CellId>, ready: set<CellId>, c: CellId) {
    exists d <- ready :: Below(parents, checked, d, d) && Below(parents, checked, d, c)
  }

  /** Every ready cell is demoted if and only if each is downstream of a ready cell that lies on a
      cycle of parents. */
  lemma {:induction false} AllDemotedExactly(parents: Links, checked: set<CellId>, ready: set<CellId>)
    requires ready <= checked
    ensures ready <= DagWaiting(parents, checked, ready, {})
            <==> forall c <- ready :: BelowACycle(parents, checked, ready, c)
  {
    hide Below, Downstream, BelowACycle;
    assert ready + {} == ready;
    if forall c <- ready :: Downstream(parents, checked, ready, c) {
      forall c | c in ready ensures BelowACycle(parents, checked, ready, c) {
        CycleAbove(parents, checked, ready, c);
      }
    }
    if forall c <- ready :: BelowACycle(parents, checked, ready, c) {
      forall c | c in ready ensures Downstream(parents, checked, ready, c) {
        CycleIsAbove(parents, checked, ready, c);
      }
    }
  }

  lemma {:induction false} CycleIsAbove(parents: Links, checked: set<CellId>, ready: set<CellId>, c: CellId)
    requires BelowACycle(parents, checked, ready, c)
    ensures Downstream(parents, checked, ready, c)
  {
    hide Below, Downstream;
    var d :| d in ready && Below(parents, checked, d, d) && Below(parents, checked, d, c);
    BelowIsDownstream(parents, checked, ready, d, c);
  }

  lemma {:induction false} CycleAbove(parents: Links, checked: set<CellId>, ready: set<CellId>, c: CellId)
    requires c in ready && forall x <- ready :: Downstream(parents, checked, ready, x)
    ensures BelowACycle(parents, checked, ready, c)
  {
    hide Below, Downstream;
    var above := set m | m in ready && Below(parents, checked, m, c);
    var first := DownstreamIsBelow(parents, checked, ready, c);
    assert first in above;
    forall x | x in above ensures Downstream(parents, checked, above, x) {
      var m := DownstreamIsBelow(parents, checked, ready, x);
      BelowTransitive(parents, checked, m, x, c);
      BelowIsDownstream(parents, checked, above, m, x);
    }
    var d := ClimbingComesRound(parents, checked, above);
  }

  /** In-order no cell lies on a cycle of parents, so demotion leaves some cell ready. */
  lemma {:induction false} SomeReadyStays(parents: Links, checked: set<CellId>, ready: set<CellId>,
                                          position: map<CellId, int>)
    requires InOrder(parents, position) && ready <= checked && ready != {}
    ensures ready - DagWaiting(parents, checked, ready, {}) != {}
  {
    hide DagWaiting, InOrder, Below;
    AllDemotedExactly(parents, checked, ready);
    forall c | c in ready ensures !BelowACycle(parents, checked, ready, c) {
      forall d | d in ready ensures !Below(parents, checked, d, d) { NotBelowItself(parents, checked, position, d); }
    }
    var c :| c in ready && c !in DagWaiting(parents, checked, ready, {});
    assert c in ready - DagWaiting(parents, checked, ready, {});
  }

  lemma {:induction false} NotBelowItself(parents: Links, checked: set<CellId>, position: map<CellId, int>, d: CellId)
    requires InOrder(parents, position)
    ensures !Below(parents, checked, d, d)
  {
    if Below(parents, checked, d, d) {
      var p :| DownPath(parents, checked, {d}, p) && p[|p| - 1] == d;
      DownPathDescends(parents, checked, {d}, p, position);
    }
  }

  /** Cells with a parent that ran after them. */
  function WithNewerParent(parents: Links, ctr: map<CellId, nat>, checked: set<CellId>): set<CellId> {
    set c | c in checked && exists p :: p in Get(parents, c) && p in ctr && c in ctr && ctr[c] < ctr[p]
  }

  /** Cell 3 ran last and is a parent of three cells in a ring, as any-order scheduling allows: all three
      become ready, all three are made to wait for each other, and none is left ready. */
  lemma {:induction false} RingOfReadyCellsDeadlocks()
    ensures var parents: Links := map[0 := {2, 3}, 1 := {0, 3}, 2 := {1, 3}];
            var ready := WithNewerParent(parents, map[0 := 1, 1 := 2, 2 := 3, 3 := 4], {0, 1, 2, 3});
            ready == {0, 1, 2} && DagWaiting(parents, {0, 1, 2, 3}, ready, {}) == {0, 1, 2}
  {
    var parents: Links, all: set<CellId> := map[0 := {2, 3}, 1 := {0, 3}, 2 := {1, 3}], {0, 1, 2, 3};
    var ctr: map<CellId, nat> := map[0 := 1, 1 := 2, 2 := 3, 3 := 4];
    forall c | c in {0, 1, 2} ensures c in WithNewerParent(parents, ctr, all) {
      assert 3 in Get(parents, c);
    }
    var ready: set<CellId> := {0, 1, 2};
    assert WithNewerParent(parents, ctr, all) == ready;
    StepDown(parents, all, ready, {}, 2, 0);
    StepDown(parents, all, ready, {}, 0, 1);
    StepDown(parents, all, ready, {}, 1, 2);
    DagWaitingIsLeast(parents, all, ready, {}, ready);
  }

  //////////////////// No orphaned waiter ////////////////////

  /** The links a waiting cell starts from: its parents that are ready or waiting. */
  ghost predicate StartLinks(parents: Links, links: Links, ready: set<CellId>, waiting: set<CellId>) {
    forall w <- waiting :: Get(links, w) == Get(parents, w) * (ready + waiting)
  }

  lemma {:induction false} WaiterHasPendingParent(parents: Links, checked: set<CellId>, ready: set<CellId>,
                                                  w: CellId) returns (m: CellId)
    requires w in DagWaiting(parents, checked, ready, {})
    ensures m in Get(parents, w) && m in ready + DagWaiting(parents, checked, ready, {})
  {
    var p :| DownPath(parents, checked, ready + {}, p) && p[|p| - 1] == w;
    m := p[|p| - 2];
    if |p| > 2 {
      assert DownPath(parents, checked, ready + {}, p[..|p| - 1]) && p[..|p| - 1][|p| - 2] == m;
    }
  }

  /** In-order, climbing the pending parents of a waiting cell ends at a ready one. */
  lemma {:induction false} WaiterReachesReadyCell(parents: Links, checked: set<CellId>, ready: set<CellId>,
                                                  links: Links, position: map<CellId, int>, w: CellId, low: int)
    returns (r: CellId)
    requires InOrder(parents, position)
    requires forall c <- position :: low <= position[c]
    requires var waiting := DagWaiting(parents, checked, ready, {});
             w in waiting && StartLinks(parents, links, ready - waiting, waiting)
    ensures r in ready - DagWaiting(parents, checked, ready, {})
    ensures Reaches(links, DagWaiting(parents, checked, ready, {}), w, r)
    decreases if w in position then position[w] - low else 0
  {
    var waiting := DagWaiting(parents, checked, ready, {});
    var m := WaiterHasPendingParent(parents, checked, ready, w);
    assert m in Get(links, w) && LinkPath(links, waiting, [w, m], w, m);
    if m in waiting {
      r := WaiterReachesReadyCell(parents, checked, ready, links, position, m, low);
      ReachesTransitive(links, waiting, w, m, r);
    } else {
      r := m;
    }
  }

  /**
   * No orphaned waiter: DAG-based and in-order, each waiting cell ends up linked to at least one
   * cell, and every cell it is linked to is ready.
   */
  lemma {:induction false} NoOrphanedWaiter(parents: Links, checked: set<CellId>, ready: set<CellId>, links: Links,
                         position: map<CellId, int>, low: int, order: seq<CellId>, all: set<CellId>, w: CellId)
    requires InOrder(parents, position) && forall c <- position :: low <= position[c]
    requires var waiting := DagWaiting(parents, checked, ready, {});
             && w in waiting && StartLinks(parents, links, ready - waiting, waiting)
             && Enumerates(order, waiting) && Universe(links, waiting) <= all
    ensures var waiting := DagWaiting(parents, checked, ready, {});
            var final := Get(Strip(Close(links, waiting, order, all), waiting, order), w);
            final != {} && final <= ready - waiting
  {
    var waiting := DagWaiting(parents, checked, ready, {});
    var r := WaiterReachesReadyCell(parents, checked, ready, links, position, w, low);
    hide DagWaiting;
    NoStartSelfLinks(parents, links, ready, waiting, position);
    CloseIsReachability(links, links, waiting, order, all);
    hide Close, Reaches, InOrder, OnlyReachable;
    var final := Get(Strip(Close(links, waiting, order, all), waiting, order), w);
    hide Strip;
    assert r in final;
    forall x | x in final ensures x in ready - waiting {
      ReachedFromStartLinks(parents, links, ready - waiting, waiting, w, x);
    }
  }

  lemma {:induction false} NoStartSelfLinks(parents: Links, links: Links, ready: set<CellId>, waiting: set<CellId>,
                         position: map<CellId, int>)
    requires InOrder(parents, position) && StartLinks(parents, links, ready - waiting, waiting)
    ensures NoSelfLinks(links, waiting) && OnlyReachable(links, links, waiting)
  {
    forall v | v in waiting ensures v !in Get(links, v) {
      if v in Get(parents, v) { ParentIsAbove(parents, position, v, v); }
    }
    LinksAreReachable(links, waiting);
  }

  lemma {:induction false} ReachedFromStartLinks(parents: Links, links: Links, ready: set<CellId>, waiting: set<CellId>,
                              w: CellId, x: CellId)
    requires StartLinks(parents, links, ready, waiting) && Reaches(links, waiting, w, x) && x !in waiting
    ensures x in ready
  {
    var p :| LinkPath(links, waiting, p, w, x);
    assert x in Get(links, p[|p| - 2]);
  }
}
