/**
 * Which cells must run before a waiting cell can: the transitive closure of waiter links up to the
 * first cells that do not wait themselves, and its inverse.
 */
module WaiterLinks {
  type CellId = nat
  type Links = map<CellId, set<CellId>>

  /** A dictionary with default, read without inserting. */
  function Get(links: Links, c: CellId): set<CellId> { if c in links then links[c] else {} }

  //////////////////// The code's closure loop, as functions ////////////////////

  /** One visit of `w`: add the links of its waiting links, and never itself. */
  function Visit(links: Links, waiting: set<CellId>, w: CellId): set<CellId> {
    (Get(links, w) + (set m, x | m in Get(links, w) && m in waiting && x in Get(links, m) :: x)) - {w}
  }

  /** One pass over the waiting cells, in whatever order the set is iterated. */
  function Pass(links: Links, waiting: set<CellId>, order: seq<CellId>): (r: Links)
    decreases |order|
  {
    if order == [] then links else
    var w, before := order[|order| - 1], Pass(links, waiting, order[..|order| - 1]);
    before[w := Visit(before, waiting, w)]
  }

  /** The loop's change detection: it compares sizes only. */
  predicate SameSizes(links: Links, links': Links, order: seq<CellId>) {
    forall w <- order :: |Get(links, w)| == |Get(links', w)|
  }

  lemma {:induction false} SameSizesExtend(start: Links, before: Links, init: seq<CellId>, w: CellId,
                                           links: set<CellId>)
    requires w !in init
    ensures SameSizes(start, before[w := links], init + [w])
            <==> SameSizes(start, before, init) && |Get(start, w)| == |links|
  {
    assert w in init + [w];
    assert forall v <- init :: v in init + [w] && Get(before[w := links], v) == Get(before, v);
  }

  ghost function SelfLinked(links: Links, waiting: set<CellId>): set<CellId> {
    set w | w in waiting && w in Get(links, w)
  }

  /** Every cell mentioned by some link of a waiting cell. */
  ghost function Universe(links: Links, waiting: set<CellId>): set<CellId> {
    set w, x | w in waiting && x in Get(links, w) :: x
  }

  ghost function Missing(links: Links, waiting: set<CellId>, all: set<CellId>): set<(CellId, CellId)> {
    set w, x | w in waiting && x in all && x != w && x !in Get(links, w) :: (w, x)
  }

  ghost predicate Enumerates(order: seq<CellId>, waiting: set<CellId>) {
    && (forall w :: w in order <==> w in waiting)
    && (forall i, j :: 0 <= i < j < |order| ==> order[i] != order[j])
  }

  /** What a pass over part of the waiting cells may have done to the links. */
  ghost predicate Advanced(links: Links, links': Links, waiting: set<CellId>, all: set<CellId>) {
    forall w :: && Get(links, w) - {w} <= Get(links', w)
                && Get(links', w) <= Get(links, w) + all
                && (w in Get(links', w) ==> w in Get(links, w))
  }

  lemma {:induction false} PassAdvances(links: Links, waiting: set<CellId>, order: seq<CellId>, all: set<CellId>)
    requires forall w <- order :: w in waiting
    requires Universe(links, waiting) <= all
    ensures Advanced(links, Pass(links, waiting, order), waiting, all)
    ensures Universe(Pass(links, waiting, order), waiting) <= all
    ensures forall w :: w !in order ==> Get(Pass(links, waiting, order), w) == Get(links, w)
    ensures forall w <- order :: w !in Get(Pass(links, waiting, order), w)
    decreases |order|
  {
    if order != [] {
      var init, w := order[..|order| - 1], order[|order| - 1];
      assert order == init + [w];
      PassAdvances(links, waiting, init, all);
      var before := Pass(links, waiting, init);
      forall x | x in Visit(before, waiting, w) ensures x in all {
        assert forall m, y :: m in waiting && y in Get(before, m) ==> y in Universe(before, waiting);
      }
    }
  }

  lemma {:induction false} MissingShrinks(links: Links, links': Links, waiting: set<CellId>, all: set<CellId>)
    requires Advanced(links, links', waiting, all)
    ensures Missing(links', waiting, all) <= Missing(links, waiting, all)
    ensures SelfLinked(links', waiting) <= SelfLinked(links, waiting)
  {
  }

  lemma {:induction false} MissingDrops(links: Links, links': Links, waiting: set<CellId>, all: set<CellId>, w: CellId)
    requires Advanced(links, links', waiting, all) && w in waiting
    requires w !in Get(links, w) && |Get(links, w)| != |Get(links', w)|
    ensures Missing(links', waiting, all) != Missing(links, waiting, all)
  {
    assert Get(links, w) - {w} == Get(links, w);
    assert Get(links, w) != Get(links', w);
    var x :| x in Get(links', w) && x !in Get(links, w);
    assert (w, x) in Missing(links, waiting, all) && (w, x) !in Missing(links', waiting, all);
  }

  /** A pass that changes some size brings the loop closer to its end. */
  lemma {:induction false} PassProgresses(links: Links, waiting: set<CellId>, order: seq<CellId>, all: set<CellId>)
    requires Enumerates(order, waiting) && Universe(links, waiting) <= all
    ensures var links' := Pass(links, waiting, order);
            !SameSizes(links, links', order) ==>
              || SelfLinked(links', waiting) < SelfLinked(links, waiting)
              || (SelfLinked(links', waiting) == SelfLinked(links, waiting)
                  && Missing(links', waiting, all) < Missing(links, waiting, all))
  {
    var links' := Pass(links, waiting, order);
    PassAdvances(links, waiting, order, all);
    MissingShrinks(links, links', waiting, all);
    hide Pass, Universe, Missing, Advanced;
    if !SameSizes(links, links', order) && SelfLinked(links', waiting) == SelfLinked(links, waiting) {
      var w :| w in order && |Get(links, w)| != |Get(links', w)|;
      assert w !in SelfLinked(links', waiting);
      MissingDrops(links, links', waiting, all, w);
    }
  }

  /** A pass never brings back a self-link or undoes a link. */
  lemma {:induction false} PassShrinks(links: Links, waiting: set<CellId>, order: seq<CellId>, all: set<CellId>)
    requires Enumerates(order, waiting) && Universe(links, waiting) <= all
    ensures var links' := Pass(links, waiting, order);
            && SelfLinked(links', waiting) <= SelfLinked(links, waiting)
            && Missing(links', waiting, all) <= Missing(links, waiting, all)
  {
    PassAdvances(links, waiting, order, all);
    MissingShrinks(links, Pass(links, waiting, order), waiting, all);
  }

  /** The whole loop: pass until no size changes. It ends from any links whatever. */
  ghost function Close(links: Links, waiting: set<CellId>, order: seq<CellId>, all: set<CellId>): Links
    requires Enumerates(order, waiting) && Universe(links, waiting) <= all
    decreases SelfLinked(links, waiting), Missing(links, waiting, all)
  {
    var links' := Pass(links, waiting, order);
    PassAdvances(links, waiting, order, all);
    PassProgresses(links, waiting, order, all);
    if SameSizes(links, links', order) then links' else Close(links', waiting, order, all)
  }

  //////////////////// What the closure should be ////////////////////

  /** A chain of links from `w` to `r` that passes through waiting cells only. */
  ghost predicate LinkPath(links: Links, waiting: set<CellId>, p: seq<CellId>, w: CellId, r: CellId) {
    && |p| >= 2 && p[0] == w && p[|p| - 1] == r
    && (forall i :: 0 <= i < |p| - 1 ==> p[i] in waiting && p[i + 1] in Get(links, p[i]))
  }

  ghost predicate Reaches(links: Links, waiting: set<CellId>, w: CellId, r: CellId) {
    exists p :: LinkPath(links, waiting, p, w, r)
  }

  predicate NoSelfLinks(links: Links, waiting: set<CellId>) {
    forall w <- waiting :: w !in Get(links, w)
  }

  ghost predicate OnlyReachable(links0: Links, links: Links, waiting: set<CellId>) {
    forall w, r :: w in waiting && r in Get(links, w) ==> Reaches(links0, waiting, w, r)
  }

  lemma {:induction false} ReachesTransitive(links: Links, waiting: set<CellId>, w: CellId, m: CellId, r: CellId)
    requires Reaches(links, waiting, w, m) && Reaches(links, waiting, m, r)
    ensures Reaches(links, waiting, w, r)
  {
    var p :| LinkPath(links, waiting, p, w, m);
    var q :| LinkPath(links, waiting, q, m, r);
    assert LinkPath(links, waiting, p[..|p| - 1] + q, w, r);
  }

  lemma {:induction false} PassOnlyReachable(links0: Links, links: Links, waiting: set<CellId>, order: seq<CellId>)
    requires OnlyReachable(links0, links, waiting)
    ensures OnlyReachable(links0, Pass(links, waiting, order), waiting)
    decreases |order|
  {
    if order != [] {
      var init, w := order[..|order| - 1], order[|order| - 1];
      PassOnlyReachable(links0, links, waiting, init);
      var before := Pass(links, waiting, init);
      if w in waiting {
        forall r | r in Visit(before, waiting, w) ensures Reaches(links0, waiting, w, r) {
          if r !in Get(before, w) {
            var m :| m in Get(before, w) && m in waiting && r in Get(before, m);
            ReachesTransitive(links0, waiting, w, m, r);
          }
        }
      }
    }
  }

  /** Links closed under "the links of my waiting links are mine". */
  ghost predicate Closed(links: Links, waiting: set<CellId>) {
    forall w, m, x :: w in waiting && m in waiting && m in Get(links, w) && x in Get(links, m) && x != w
                      ==> x in Get(links, w)
  }

  lemma {:induction false} VisitCongruent(links: Links, links': Links, waiting: set<CellId>, w: CellId)
    requires forall v :: Get(links, v) == Get(links', v)
    ensures Visit(links, waiting, w) == Visit(links', waiting, w)
  {
  }

  lemma {:induction false} VisitedIsClosed(links: Links, links': Links, waiting: set<CellId>)
    requires forall w :: Get(links', w) == Get(links, w)
    requires forall w <- waiting :: Visit(links, waiting, w) == Get(links, w)
    ensures Closed(links', waiting)
  {
    forall w, m, x | w in waiting && m in waiting && m in Get(links', w) && x in Get(links', m) && x != w
      ensures x in Get(links', w)
    {
      assert x in Visit(links, waiting, w);
    }
  }

  lemma {:induction false} VisitGrows(links: Links, waiting: set<CellId>, w: CellId)
    requires w !in Get(links, w)
    ensures Get(links, w) <= Visit(links, waiting, w)
  {
  }

  /** Without self-links sizes tell everything: a pass that changes no size found the links closed. */
  lemma {:induction false} StablePass(links: Links, waiting: set<CellId>, order: seq<CellId>)
    requires NoSelfLinks(links, waiting) && SameSizes(links, Pass(links, waiting, order), order)
    requires forall w <- order :: w in waiting
    requires forall i, j :: 0 <= i < j < |order| ==> order[i] != order[j]
    ensures forall w :: Get(Pass(links, waiting, order), w) == Get(links, w)
    ensures forall w <- order :: Visit(links, waiting, w) == Get(links, w)
    decreases |order|
  {
    hide Visit;
    if order != [] {
      var init, w := order[..|order| - 1], order[|order| - 1];
      var before, after := Pass(links, waiting, init), Pass(links, waiting, order);
      assert after == before[w := Visit(before, waiting, w)];
      hide Pass;
      forall v | v in init ensures v in order && v != w && |Get(links, v)| == |Get(before, v)| {
        var i :| 0 <= i < |init| && init[i] == v;
        assert order[i] == v;
      }
      StablePass(links, waiting, init);
      VisitCongruent(links, before, waiting, w);
      VisitGrows(links, waiting, w);
      assert w in order && |Get(links, w)| == |Get(after, w)|;
      SubsetOfSameSize(Get(links, w), Visit(links, waiting, w));
      assert forall v <- order :: v == w || v in init;
    }
  }

  lemma {:induction false} SubsetOfSameSize<T>(a: set<T>, b: set<T>)
    requires a <= b && |a| == |b|
    ensures a == b
  {
    assert |b - a| == |b| - |a|;
  }

  /** The links tell of the cells that are a `target` exactly which of them can be reached. */
  ghost predicate ExactFor(links0: Links, links: Links, waiting: set<CellId>, target: CellId -> bool) {
    forall w, r :: w in waiting && target(r) && r != w
                   ==> (r in Get(links, w) <==> Reaches(links0, waiting, w, r))
  }

  /** Closed, as far as links to a `target` go. */
  ghost predicate ClosedFor(links: Links, waiting: set<CellId>, target: CellId -> bool) {
    forall w, m, x :: w in waiting && m in waiting && m in Get(links, w) && x in Get(links, m) && target(x) && x != w
                      ==> x in Get(links, w)
  }

  /** Links are kept, save those from a cell to itself. */
  predicate LinksKept(links: Links, links': Links, waiting: set<CellId>) {
    forall v <- waiting :: Get(links, v) - {v} <= Get(links', v)
  }

  lemma {:induction false} ClosedReachesAll(links0: Links, links: Links, waiting: set<CellId>, target: CellId -> bool,
                                            p: seq<CellId>, w: CellId, r: CellId)
    requires ClosedFor(links, waiting, target) && LinkPath(links0, waiting, p, w, r) && target(r) && r != w
    requires LinksKept(links0, links, waiting)
    ensures r in Get(links, w)
    decreases |p|
  {
    assert p[1] in Get(links0, w) && (p[1] == w || p[1] in Get(links, w));
    if |p| > 2 && p[1] != r {
      assert LinkPath(links0, waiting, p[1..], p[1], r);
      ClosedReachesAll(links0, links, waiting, target, p[1..], p[1], r);
    }
  }

  /** Links that only grew along chains are exact if and only if they are closed. */
  lemma {:induction false} ExactIffClosed(links0: Links, links: Links, waiting: set<CellId>, target: CellId -> bool)
    requires OnlyReachable(links0, links, waiting) && LinksKept(links0, links, waiting)
    ensures ExactFor(links0, links, waiting, target) <==> ClosedFor(links, waiting, target)
  {
    hide Get, LinkPath, Reaches;
    if ClosedFor(links, waiting, target) {
      forall w, r | w in waiting && target(r) && r != w && Reaches(links0, waiting, w, r) ensures r in Get(links, w) {
        ClosedReaches(links0, links, waiting, target, w, r);
      }
    }
    if ExactFor(links0, links, waiting, target) {
      forall w, m, x | w in waiting && m in waiting && m in Get(links, w) && x in Get(links, m) && target(x) && x != w
        ensures x in Get(links, w)
      {
        ReachesTransitive(links0, waiting, w, m, x);
      }
    }
  }

  lemma {:induction false} ClosedReaches(links0: Links, links: Links, waiting: set<CellId>, target: CellId -> bool,
                                         w: CellId, r: CellId)
    requires ClosedFor(links, waiting, target) && Reaches(links0, waiting, w, r) && target(r) && r != w
    requires LinksKept(links0, links, waiting)
    ensures r in Get(links, w)
  {
    var p :| LinkPath(links0, waiting, p, w, r);
    ClosedReachesAll(links0, links, waiting, target, p, w, r);
  }

  /**
   * The closure is exact: whenever no waiting cell starts out linked to itself, another cell ends up
   * linked to a waiting one if and only if a chain of waiting cells leads to it.
   */
  lemma {:induction false} CloseIsReachability(links0: Links, links: Links, waiting: set<CellId>,
                                               order: seq<CellId>, all: set<CellId>)
    requires Enumerates(order, waiting) && Universe(links, waiting) <= all && NoSelfLinks(links, waiting)
    requires OnlyReachable(links0, links, waiting) && LinksKept(links0, links, waiting)
    ensures forall w, r :: w in waiting && r != w ==>
              (r in Get(Close(links, waiting, order, all), w) <==> Reaches(links0, waiting, w, r))
    decreases SelfLinked(links, waiting), Missing(links, waiting, all)
  {
    var links' := Pass(links, waiting, order);
    PassAdvances(links, waiting, order, all);
    PassProgresses(links, waiting, order, all);
    PassOnlyReachable(links0, links, waiting, order);
    hide Pass, Visit, Reaches, OnlyReachable, Missing, SelfLinked, Universe;
    KeptAgain(links0, links, links', waiting, all);
    if SameSizes(links, links', order) {
      StablePass(links, waiting, order);
      VisitedIsClosed(links, links', waiting);
      ExactIffClosed(links0, links', waiting, (r: CellId) => true);
    } else {
      CloseIsReachability(links0, links', waiting, order, all);
    }
  }

  lemma {:induction false} KeptAgain(links0: Links, links: Links, links': Links, waiting: set<CellId>, all: set<CellId>)
    requires LinksKept(links0, links, waiting) && Advanced(links, links', waiting, all)
    ensures LinksKept(links0, links', waiting)
  {
  }

  /**
   * From any links whatever, the closure is exact if and only if the first pass changes some size or
   * leaves the links closed: only the first pass can be mistaken for the last.
   */
  lemma {:induction false} ClosesExactly(links: Links, waiting: set<CellId>, order: seq<CellId>, all: set<CellId>,
                                         target: CellId -> bool)
    requires Enumerates(order, waiting) && Universe(links, waiting) <= all
    ensures var first := Pass(links, waiting, order);
            ExactFor(links, Close(links, waiting, order, all), waiting, target)
            <==> (SameSizes(links, first, order) ==> ClosedFor(first, waiting, target))
  {
    hide Visit, Missing, SelfLinked, LinkPath, SameSizes;
    var first := Pass(links, waiting, order);
    PassAdvances(links, waiting, order, all);
    LinksAreReachable(links, waiting);
    PassOnlyReachable(links, links, waiting, order);
    assert LinksKept(links, first, waiting);
    if SameSizes(links, first, order) {
      ExactIffClosed(links, first, waiting, target);
    } else {
      hide Pass, Universe, Reaches, OnlyReachable;
      CloseIsReachability(links, first, waiting, order, all);
    }
  }

  lemma {:induction false} LinksAreReachable(links: Links, waiting: set<CellId>)
    ensures OnlyReachable(links, links, waiting)
  {
    forall w, r | w in waiting && r in Get(links, w) ensures Reaches(links, waiting, w, r) {
      assert LinkPath(links, waiting, [w, r], w, r);
    }
  }

  //////////////////// The final links and their inverse ////////////////////

  /** What is left once the waiting cells themselves are dropped from each waiting cell's links. */
  function Strip(links: Links, waiting: set<CellId>, order: seq<CellId>): (r: Links)
    ensures forall c :: Get(r, c) == if c in order then Get(links, c) - waiting else Get(links, c)
    decreases |order|
  {
    if order == [] then links else
    var w := order[|order| - 1];
    assert order == order[..|order| - 1] + [w];
    Strip(links, waiting, order[..|order| - 1])[w := Get(links, w) - waiting]
  }

  ghost predicate Inverse(waiterLinks: Links, readyMakerLinks: Links, waiting: set<CellId>) {
    forall w, r :: w in Get(readyMakerLinks, r) <==> w in waiting && r in Get(waiterLinks, w)
  }

  //////////////////// A self-link hides a change ////////////////////

  const SelfLinkExample: Links := map[0 := {0, 1}, 1 := {1, 2}, 2 := {3}]

  lemma {:induction false} SelfLinkPass()
    ensures Pass(SelfLinkExample, {0, 1, 2}, [0, 1, 2]) == map[0 := {1, 2}, 1 := {2, 3}, 2 := {3}]
  {
    var waiting: set<CellId>, l0 := {0, 1, 2}, SelfLinkExample;
    var l1 := l0[0 := {1, 2}];
    var l2 := l1[1 := {2, 3}];
    assert Visit(l0, waiting, 0) == {1, 2} by { assert 1 in Get(l0, 0) && 2 in Get(l0, 1); }
    assert Visit(l1, waiting, 1) == {2, 3} by { assert 2 in Get(l1, 1) && 3 in Get(l1, 2); }
    assert Visit(l2, waiting, 2) == {3};
    hide Visit;
    assert [0, 1, 2][..2] == [0, 1] && [0, 1][..1] == [0] && [0][..0] == [];
    assert Pass(l0, waiting, [0]) == l1;
    assert Pass(l0, waiting, [0, 1]) == l2;
  }

  lemma {:induction false} SelfLinkSetup()
    ensures Enumerates([0, 1, 2], {0, 1, 2}) && Universe(SelfLinkExample, {0, 1, 2}) <= {0, 1, 2, 3}
    ensures Reaches(SelfLinkExample, {0, 1, 2}, 0, 3)
  {
    assert LinkPath(SelfLinkExample, {0, 1, 2}, [0, 1, 2, 3], 0, 3);
  }

  lemma {:induction false} SelfLinkSameSizes()
    ensures SameSizes(SelfLinkExample, map[0 := {1, 2}, 1 := {2, 3}, 2 := {3}], [0, 1, 2])
  {
  }

  /**
   * Cells 0, 1 and 2 wait, 0 and 1 also on themselves, as any-order liveness allows. In the first
   * pass each of them drops itself and gains one link, so no size changes and the loop stops: cell 0
   * is left without the cell that would make it ready.
   */
  lemma {:induction false} SelfLinkLosesReadyMaker()
    ensures var waiting, order := {0, 1, 2}, [0, 1, 2];
            && Enumerates(order, waiting) && Universe(SelfLinkExample, waiting) <= {0, 1, 2, 3}
            && Reaches(SelfLinkExample, waiting, 0, 3)
            && 3 !in Get(Close(SelfLinkExample, waiting, order, {0, 1, 2, 3}), 0)
  {
    SelfLinkPass();
    SelfLinkSetup();
    hide Pass, Visit, Missing, SelfLinked, Reaches, LinkPath, Universe, Enumerates;
    SelfLinkSameSizes();
  }
}
