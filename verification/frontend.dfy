/**
 * The frontend checker: the object that decides, after each run, which cells are ready, which wait,
 * and which cells would make the waiting ones ready.
 */
module Frontend {
  import opened Wrappers
  import S = Scheduler
  import opened WaiterLinks
  import opened DagWaiters
  import R = ReactiveOnce

  /** Cell positions, and each cell's raw parents in either slicing context. */
  datatype Registry = Registry(position: map<CellId, int>, dynamicParents: Links, staticParents: Links)

  datatype Settings = Settings(inOrder: bool, contexts: seq<SlicingContext>)

  function RawParents(reg: Registry, ctx: SlicingContext, c: CellId): set<CellId> {
    Get(if ctx == Dynamic then reg.dynamicParents else reg.staticParents, c)
  }

  ghost predicate Registered(reg: Registry) {
    forall ctx, c :: RawParents(reg, ctx, c) <= reg.position.Keys
                     && (RawParents(reg, ctx, c) != {} ==> c in reg.position)
  }

  /** In-order, a parent counts only from strictly above. */
  function DirectionalParents(reg: Registry, settings: Settings, ctx: SlicingContext, c: CellId): set<CellId>
    requires Registered(reg)
  {
    if settings.inOrder
    then set p | p in RawParents(reg, ctx, c) && reg.position[p] < reg.position[c]
    else RawParents(reg, ctx, c)
  }

  /** A cell's directional parents in all enabled contexts. */
  function AllParents(reg: Registry, settings: Settings, c: CellId): set<CellId>
    requires Registered(reg)
  {
    set ctx, p | ctx in settings.contexts && p in DirectionalParents(reg, settings, ctx, c) :: p
  }

  ghost function ParentLinksOf(reg: Registry, settings: Settings, cells: set<CellId>): (r: Links)
    requires Registered(reg)
    ensures forall c :: Get(r, c) == if c in cells then AllParents(reg, settings, c) else {}
    decreases |cells|
  {
    if cells == {} then map[] else
    var c :| c in cells;
    var rest := ParentLinksOf(reg, settings, cells - {c});
    assert forall d :: d != c ==> (d in cells - {c} <==> d in cells);
    assert forall d :: d != c ==> Get(rest[c := AllParents(reg, settings, c)], d) == Get(rest, d);
    rest[c := AllParents(reg, settings, c)]
  }

  /** The directional parent relation of the whole notebook. */
  ghost function ParentLinks(reg: Registry, settings: Settings): (r: Links)
    requires Registered(reg)
    ensures forall c :: Get(r, c) == AllParents(reg, settings, c)
  {
    UnregisteredHaveNoParents(reg, settings);
    ParentLinksOf(reg, settings, reg.position.Keys)
  }

  lemma {:induction false} UnregisteredHaveNoParents(reg: Registry, settings: Settings)
    requires Registered(reg)
    ensures forall c :: c !in reg.position ==> AllParents(reg, settings, c) == {}
  {
    forall c | c !in reg.position ensures AllParents(reg, settings, c) == {} {
      assert forall ctx :: RawParents(reg, ctx, c) == {};
      assert forall ctx :: DirectionalParents(reg, settings, ctx, c) == {};
    }
  }

  /** The parents of a cell are those recorded for it in an enabled context, in-order only from above. */
  lemma {:induction false} ParentsInData(reg: Registry, settings: Settings, c: CellId, p: CellId)
    requires Registered(reg)
    ensures p in Get(ParentLinks(reg, settings), c) <==>
            && (|| (Dynamic in settings.contexts && c in reg.dynamicParents && p in reg.dynamicParents[c])
                || (Static in settings.contexts && c in reg.staticParents && p in reg.staticParents[c]))
            && (settings.inOrder ==> p in reg.position && c in reg.position && reg.position[p] < reg.position[c])
  {
    assert p in RawParents(reg, Dynamic, c) <==> c in reg.dynamicParents && p in reg.dynamicParents[c];
    assert p in RawParents(reg, Static, c) <==> c in reg.staticParents && p in reg.staticParents[c];
    forall ctx ensures p in DirectionalParents(reg, settings, ctx, c) <==>
                       p in RawParents(reg, ctx, c)
                       && (settings.inOrder ==> p in reg.position && c in reg.position
                                                && reg.position[p] < reg.position[c])
    {
    }
    hide RawParents, DirectionalParents;
    if p in AllParents(reg, settings, c) {
      var ctx :| ctx in settings.contexts && p in DirectionalParents(reg, settings, ctx, c);
      assert ctx == Dynamic || ctx == Static;
    }
    forall ctx | ctx in settings.contexts && p in DirectionalParents(reg, settings, ctx, c)
      ensures p in AllParents(reg, settings, c)
    {
    }
  }

  /** A cell waits exactly if a symbol it reads does not exist or is stale where the cell stands. */
  lemma {:induction false} WaitingMeans(nb: S.Notebook, s: S.State, verdict: S.Verdict, c: CellId)
    requires c in nb
    ensures S.Waiting(nb, s, verdict, c) <==>
            exists x <- nb[c].live :: x !in s.ts || verdict(s, x, nb[c].position)
  {
  }

  /** `x` was written, by a cell no lower than `c`, since `c` last ran. */
  predicate WrittenSinceRun(nb: S.Notebook, s: S.State, c: CellId, x: S.Sym)
    requires c in nb
  {
    && x in s.ts && (c in s.ctr ==> s.ctr[c] < s.ts[x])
    && s.ts[x] in s.cellAt && s.cellAt[s.ts[x]] in nb && nb[s.cellAt[s.ts[x]]].position <= nb[c].position
  }

  /** A cell is newly ready exactly if it has run, lies below the cell run last, all it reads exists and is
      fresh where it stands, some of that was written since it ran, and this happened just now: by a write
      at `minNewReady` or later, or because the cell was not called ready before. */
  lemma {:induction false} NewReadyMeans(nb: S.Notebook, s: S.State, verdict: S.Verdict, flagged: set<CellId>,
                                         c: CellId, lastPos: Option<int>, minNewReady: int)
    requires c in nb && forall x <- s.ts :: s.ts[x] >= 0
    ensures NewReady(nb, s, verdict, flagged, c, lastPos, minNewReady) <==>
            && c in s.ctr && s.ctr[c] > 0 && (lastPos.Some? ==> lastPos.value < nb[c].position)
            && (forall x <- nb[c].live :: x in s.ts && !verdict(s, x, nb[c].position))
            && (exists x <- nb[c].live :: WrittenSinceRun(nb, s, c, x)
                                          && (s.ts[x] >= minNewReady || (c !in flagged && s.counter >= minNewReady)))
  {
    WaitingMeans(nb, s, verdict, c);
    hide S.Waiting;
    forall x | x in nb[c].live
      ensures WrittenSinceRun(nb, s, c, x) <==>
              S.WrittenAtOrAbove(nb, s, x, nb[c].position) && s.ts[x] > S.Ctr(s, c)
    {
    }
  }

  lemma {:induction false} InOrderParentsDescend(reg: Registry, settings: Settings)
    requires Registered(reg) && settings.inOrder
    ensures InOrder(ParentLinks(reg, settings), reg.position)
  {
  }

  ghost function Elements(s: seq<CellId>): set<CellId> { set c | c in s }

  lemma {:induction false} PositionsBounded(position: map<CellId, int>) returns (low: int)
    ensures forall c <- position :: low <= position[c]
    decreases |position|
  {
    if position == map[] { low := 0; } else {
      var c :| c in position;
      low := PositionsBounded(position - {c});
      assert forall d <- position :: d == c || (d in position - {c} && (position - {c})[d] == position[d]);
      if position[c] < low { low := position[c]; }
    }
  }

  lemma {:induction false} NothingChangedSize(links: Links)
    ensures SameSizes(links, links, [])
  {
  }

  /** The ready makers of the waiting cells in `done` are recorded, and nothing else. */
  ghost predicate InverseOf(links: Links, makers: Links, done: seq<CellId>) {
    forall w, r :: w in Get(makers, r) <==> w in done && r in Get(links, w)
  }

  lemma {:induction false} InverseOfNone(links: Links, order: seq<CellId>)
    ensures InverseOf(links, map[], order[..0])
  {
  }

  lemma {:induction false} InverseOfMore(links: Links, makers: Links, makers': Links, done: seq<CellId>, w: CellId,
                                         ready: set<CellId>)
    requires InverseOf(links, makers, done) && w !in done
    requires forall r :: Get(makers', r) == Get(makers, r) + if r in ready then {w} else {}
    ensures InverseOf(links[w := ready], makers', done + [w])
  {
  }

  lemma {:induction false} InverseOfAll(links: Links, makers: Links, order: seq<CellId>, waiting: set<CellId>)
    requires InverseOf(links, makers, order) && Enumerates(order, waiting)
    ensures Inverse(links, makers, waiting)
  {
  }

  lemma {:induction false} NotYetListed(order: seq<CellId>, waiting: set<CellId>, i: nat)
    requires Enumerates(order, waiting) && i < |order|
    ensures order[i] !in order[..i]
  {
  }

  /** Some live symbol written, at or above the cell, after it last ran, was written at `least` or later. */
  predicate NewlyStale(nb: S.Notebook, s: S.State, c: CellId, least: int)
    requires c in nb
  {
    exists x :: x in nb[c].live && S.WrittenAtOrAbove(nb, s, x, nb[c].position)
                && s.ts[x] > S.Ctr(s, c) && s.ts[x] >= least
  }

  /** Whether to run the cell reactively: ready, run before, below the cell just run, and either
      made stale just now or not called ready (`flagged`) before. */
  predicate NewReady(nb: S.Notebook, s: S.State, verdict: S.Verdict, flagged: set<CellId>, c: CellId,
                     lastPos: Option<int>, minNewReady: int)
    requires c in nb
  {
    && S.Ready(nb, s, verdict, c) && S.Ctr(s, c) > 0
    && (lastPos.Some? ==> lastPos.value < nb[c].position)
    && (NewlyStale(nb, s, c, minNewReady) || (c !in flagged && s.counter >= minNewReady))
  }

  class FrontendCheckerResult {
    var waitingCells: set<CellId>
    var readyCells: set<CellId>
    var newReadyCells: set<CellId>
    var waiterLinks: Links
    var readyMakerLinks: Links
    var usedCounters: set<(CellId, S.Sym, nat)>   // Cell._used_cell_counters_by_live_symbol
    var flagged: set<CellId>                      // cells whose _ready flag is set

    constructor Empty(used: set<(CellId, S.Sym, nat)>, flags: set<CellId>)
      ensures waitingCells == readyCells == newReadyCells == {} && waiterLinks == readyMakerLinks == map[]
      ensures usedCounters == used && flagged == flags
    {
      waitingCells, readyCells, newReadyCells := {}, {}, {};
      waiterLinks, readyMakerLinks := map[], map[];
      usedCounters, flagged := used, flags;
    }

    //////////////////// Liveness-based readiness ////////////////////

    /** The newest write, at or above the cell, of a symbol live in it; -1 if there is none. */
    method MaxUsedLiveSymbolCellCounter(nb: S.Notebook, s: S.State, c: CellId) returns (m: int)
      requires c in nb
      requires forall x <- nb[c].live :: x in s.ts && s.ts[x] > 0 ==> (c, x, s.ts[x]) in usedCounters
      requires forall x <- s.ts :: s.ts[x] > 0
      ensures m >= -1
      ensures forall x <- nb[c].live :: S.WrittenAtOrAbove(nb, s, x, nb[c].position) ==> s.ts[x] <= m
      ensures m >= 0 ==> exists x <- nb[c].live :: S.WrittenAtOrAbove(nb, s, x, nb[c].position) && s.ts[x] == m
    {
      m := -1;
      var rest := nb[c].live;
      while rest != {}
        invariant rest <= nb[c].live && m >= -1
        invariant forall x <- nb[c].live - rest :: S.WrittenAtOrAbove(nb, s, x, nb[c].position) ==> s.ts[x] <= m
        invariant m >= 0 ==> exists x <- nb[c].live :: S.WrittenAtOrAbove(nb, s, x, nb[c].position) && s.ts[x] == m
        decreases rest
      {
        var x :| x in rest;
        rest := rest - {x};
        if x in s.ts && (c, x, s.ts[x]) in usedCounters {
          var used := s.ts[x];
          if used in s.cellAt && s.cellAt[used] in nb && nb[c].position >= nb[s.cellAt[used]].position {
            m := if m >= used then m else used;
          }
        }
      }
    }

    method ComputeReadiness(nb: S.Notebook, s: S.State, c: CellId, minNewReady: int)
      returns (isReady: bool, isNewReady: bool)
      requires c in nb && forall x <- s.ts :: s.ts[x] > 0
      requires forall x <- nb[c].live :: x in s.ts && s.ts[x] > 0 ==> (c, x, s.ts[x]) in usedCounters
      ensures isReady <==> c !in waitingCells && S.Stale(nb, s, c)
      ensures isNewReady <==> c !in waitingCells && S.Ctr(s, c) > 0 && NewlyStale(nb, s, c, minNewReady)
    {
      isReady, isNewReady := false, false;
      if c in waitingCells { return; }
      var m := MaxUsedLiveSymbolCellCounter(nb, s, c);
      if m > S.Ctr(s, c) {
        isReady := true;
        if S.Ctr(s, c) > 0 && m >= minNewReady { isNewReady := true; }
      }
    }

    method CheckOneCell(nb: S.Notebook, s: S.State, verdict: S.Verdict, c: CellId, lastPos: Option<int>,
                        minNewReady: int)
      requires c in nb && c !in waitingCells && forall x <- s.ts :: s.ts[x] > 0
      modifies this`waitingCells, this`readyCells, this`newReadyCells, this`usedCounters, this`flagged
      ensures waitingCells == old(waitingCells) + if S.Waiting(nb, s, verdict, c) then {c} else {}
      ensures readyCells == old(readyCells) + if S.Ready(nb, s, verdict, c) then {c} else {}
      ensures newReadyCells == old(newReadyCells)
                               + if NewReady(nb, s, verdict, old(flagged), c, lastPos, minNewReady) then {c} else {}
      ensures flagged == if S.Ready(nb, s, verdict, c) then old(flagged) + {c} else old(flagged) - {c}
      ensures usedCounters >= old(usedCounters)
    {
      CheckWaiting(nb, s, verdict, c);
      var isReady, isNewReady := ComputeReadiness(nb, s, c, minNewReady);
      hide S.Stale, S.Waiting, NewlyStale;
      if isReady { readyCells := readyCells + {c}; }
      var wasReady := c in flagged;
      flagged := if isReady then flagged + {c} else flagged - {c};
      if lastPos.Some? && nb[c].position <= lastPos.value { return; }
      if isNewReady || (S.Ctr(s, c) > 0 && !wasReady && isReady && s.counter >= minNewReady) {
        newReadyCells := newReadyCells + {c};
      }
    }

    /** Resolves the live symbols, and lets the cell wait for those that are stale or unresolved. */
    method CheckWaiting(nb: S.Notebook, s: S.State, verdict: S.Verdict, c: CellId)
      requires c in nb && c !in waitingCells
      modifies this`waitingCells, this`usedCounters
      ensures waitingCells == old(waitingCells) + if S.Waiting(nb, s, verdict, c) then {c} else {}
      ensures usedCounters >= old(usedCounters)
      ensures forall x <- nb[c].live :: x in s.ts && s.ts[x] > 0 ==> (c, x, s.ts[x]) in usedCounters
    {
      usedCounters := usedCounters
                      + set x | x in nb[c].live && x in s.ts && s.ts[x] > 0 :: (c, x, s.ts[x]);
      var waitingSymbols := set x | x in nb[c].live && x in s.ts && verdict(s, x, nb[c].position);
      var unresolved := nb[c].live - s.ts.Keys;
      assert S.Waiting(nb, s, verdict, c) <==> waitingSymbols + unresolved != {} by {
        if S.Waiting(nb, s, verdict, c) {
          var x :| x in nb[c].live && (x !in s.ts || verdict(s, x, nb[c].position));
          assert x in waitingSymbols + unresolved;
        }
        if waitingSymbols + unresolved != {} {
          var x :| x in waitingSymbols + unresolved;
        }
      }
      if waitingSymbols != {} || unresolved != {} {
        waitingCells := waitingCells + {c};
      }
    }

    /** The liveness-based result, for any cells in any order. */
    method ComputeLivenessResult(nb: S.Notebook, s: S.State, verdict: S.Verdict, cells: seq<CellId>,
                                 lastPos: Option<int>, minNewReady: int)
      requires (forall c <- cells :: c in nb) && (forall x <- s.ts :: s.ts[x] > 0)
      requires forall i, j :: 0 <= i < j < |cells| ==> cells[i] != cells[j]
      requires waitingCells == readyCells == newReadyCells == {}
      modifies this`waitingCells, this`readyCells, this`newReadyCells, this`usedCounters, this`flagged
      ensures forall c :: c in readyCells <==> c in cells && S.Ready(nb, s, verdict, c)
      ensures forall c :: c in waitingCells <==> c in cells && S.Waiting(nb, s, verdict, c)
      ensures forall c :: c in newReadyCells <==>
                c in cells && NewReady(nb, s, verdict, old(flagged), c, lastPos, minNewReady)
      ensures R.Recognises(nb, s, verdict) ==>
                && (forall c <- readyCells, x <- nb[c].live :: !R.StaleThere(nb, s, x, nb[c].position))
                && (forall c <- cells, x <- nb[c].live :: R.StaleThere(nb, s, x, nb[c].position) ==> c in waitingCells)
    {
      hide R.StaleThere, S.Ready, S.Waiting, R.Recognises;
      for i := 0 to |cells|
        invariant forall c :: c in readyCells <==> c in cells[..i] && S.Ready(nb, s, verdict, c)
        invariant forall c :: c in waitingCells <==> c in cells[..i] && S.Waiting(nb, s, verdict, c)
        invariant forall c :: c in newReadyCells <==>
                    c in cells[..i] && NewReady(nb, s, verdict, old(flagged), c, lastPos, minNewReady)
        invariant forall j :: i <= j < |cells| ==> (cells[j] in flagged <==> cells[j] in old(flagged))
      {
        assert cells[..i + 1] == cells[..i] + [cells[i]];
        CheckOneCell(nb, s, verdict, cells[i], lastPos, minNewReady);
      }
      assert cells[..|cells|] == cells;
      if R.Recognises(nb, s, verdict) {
        forall c, x | c in cells && x in nb[c].live && R.StaleThere(nb, s, x, nb[c].position)
          ensures c in waitingCells && c !in readyCells
        {
          R.StaleInputWaits(nb, s, verdict, c, x);
        }
      }
    }

    //////////////////// DAG-based waiting ////////////////////

    method ComputeDagBasedWaiters(reg: Registry, settings: Settings, cells: seq<CellId>)
      requires Registered(reg)
      modifies this`waitingCells, this`readyCells, this`newReadyCells, this`flagged
      ensures waitingCells == DagWaiting(ParentLinks(reg, settings), Elements(cells), old(readyCells),
              old(waitingCells))
      ensures readyCells == old(readyCells) - waitingCells && newReadyCells == old(newReadyCells) - waitingCells
      ensures flagged == old(flagged) - waitingCells
    {
      ghost var parents, checked := ParentLinks(reg, settings), Elements(cells);
      ghost var final := DagWaiting(parents, checked, readyCells, waitingCells);
      var prev: set<CellId> := {};
      while true
        invariant old(waitingCells) <= waitingCells <= final && prev <= waitingCells
        invariant prev == {} || prev == waitingCells
        invariant unchanged(`readyCells) && unchanged(`newReadyCells) && unchanged(`flagged)
        decreases final - prev
      {
        ghost var start := waitingCells;
        for i := 0 to |cells|
          invariant start <= waitingCells <= final
          invariant unchanged(`readyCells) && unchanged(`newReadyCells) && unchanged(`flagged)
          invariant waitingCells == start ==>
                      forall c <- cells[..i] :: c !in start ==> Get(parents, c) !! readyCells + start
        {
          assert cells[..i + 1] == cells[..i] + [cells[i]];
          if cells[i] !in waitingCells {
            VisitDagCell(reg, settings, cells[i], parents, checked, old(waitingCells));
          }
        }
        assert cells[..|cells|] == cells;
        if prev == waitingCells { break; }
        prev := waitingCells;
      }
      DagWaitingIsLeast(parents, checked, readyCells, old(waitingCells), waitingCells);
      readyCells := readyCells - waitingCells;
      newReadyCells := newReadyCells - waitingCells;
      flagged := flagged - waitingCells;
    }

    /** One cell of one pass: it waits from now on if some context shows it a ready or waiting parent. */
    method VisitDagCell(reg: Registry, settings: Settings, c: CellId,
                        ghost parents: Links, ghost checked: set<CellId>, ghost waiting0: set<CellId>)
      requires Registered(reg) && parents == ParentLinks(reg, settings) && c in checked
      requires waitingCells <= DagWaiting(parents, checked, readyCells, waiting0)
      modifies this`waitingCells
      ensures old(waitingCells) <= waitingCells <= DagWaiting(parents, checked, readyCells, waiting0)
      ensures waitingCells == old(waitingCells) ==> Get(parents, c) !! readyCells + waitingCells || c in waitingCells
    {
      hide DagWaiting, DirectionalParents;
      for j := 0 to |settings.contexts|
        invariant old(waitingCells) <= waitingCells <= DagWaiting(parents, checked, readyCells, waiting0)
        invariant waitingCells == old(waitingCells) && c !in waitingCells ==>
                    forall ctx <- settings.contexts[..j] ::
                      DirectionalParents(reg, settings, ctx, c) !! readyCells + waitingCells
      {
        assert settings.contexts[..j + 1] == settings.contexts[..j] + [settings.contexts[j]];
        var found := DirectionalParents(reg, settings, settings.contexts[j], c) * (readyCells + waitingCells);
        assert forall ctx <- settings.contexts[..j + 1] :: ctx == settings.contexts[j] || ctx in settings.contexts[..j];
        if found != {} {
          ghost var m :| m in found;
          assert m in Get(parents, c);
          StepDown(parents, checked, readyCells, waiting0, m, c);
          waitingCells := waitingCells + {c};
        } else {
          assert forall m :: m in DirectionalParents(reg, settings, settings.contexts[j], c)
                             ==> m !in readyCells + waitingCells by {
            assert forall m :: m in found <==> m in DirectionalParents(reg, settings, settings.contexts[j], c)
                                               && m in readyCells + waitingCells;
          }
        }
      }
      assert settings.contexts[..|settings.contexts|] == settings.contexts;
    }

    //////////////////// Ready makers and links ////////////////////

    /** DAG-based: a waiting cell's first links are its ready or waiting parents, but not the cell
        that was just run. */
    method ComputeDagReadyMakers(reg: Registry, settings: Settings, order: seq<CellId>, last: Option<CellId>)
      requires Registered(reg) && waiterLinks == map[] && Enumerates(order, waitingCells)
      modifies this`waiterLinks
      ensures forall w <- waitingCells :: Get(waiterLinks, w)
                == Get(ParentLinks(reg, settings), w) * (readyCells + waitingCells)
                   - if last.Some? then {last.value} else {}
      ensures waiterLinks.Keys == waitingCells
    {
      var eligible := readyCells + waitingCells;
      for i := 0 to |order|
        invariant waiterLinks.Keys == Elements(order[..i])
        invariant forall w <- order[..i] :: Get(waiterLinks, w)
                    == AllParents(reg, settings, w) * eligible - if last.Some? then {last.value} else {}
      {
        assert order[..i + 1] == order[..i] + [order[i]];
        var makers := AllParents(reg, settings, order[i]) * eligible;
        if last.Some? { makers := makers - {last.value}; }
        waiterLinks := waiterLinks[order[i] := makers];
      }
      assert order[..|order|] == order;
    }

    /** The closure loop, dropping waiting cells, and the inverse map. */
    method ComputeWaiterAndReadyMakerLinks(order: seq<CellId>, ghost all: set<CellId>)
      requires Enumerates(order, waitingCells) && Universe(waiterLinks, waitingCells) <= all
      requires readyMakerLinks == map[]
      modifies this`waiterLinks, this`readyMakerLinks
      ensures waiterLinks == Strip(Close(old(waiterLinks), waitingCells, order, all), waitingCells, order)
      ensures Inverse(waiterLinks, readyMakerLinks, waitingCells)
    {
      hide Pass, Universe, SelfLinked, Missing, SameSizes, Enumerates, Inverse, Strip;
      var changed := true;
      ghost var target := Close(waiterLinks, waitingCells, order, all);
      while changed
        invariant Universe(waiterLinks, waitingCells) <= all && readyMakerLinks == map[]
        invariant if changed then Close(waiterLinks, waitingCells, order, all) == target else waiterLinks == target
        decreases SelfLinked(waiterLinks, waitingCells), Missing(waiterLinks, waitingCells, all), changed
      {
        PassProgresses(waiterLinks, waitingCells, order, all);
        ghost var start := waiterLinks;
        changed := OnePass(order, all);
        if !changed { PassShrinks(start, waitingCells, order, all); }
      }
      StripAndInvert(order);
    }

    /** One pass over the waiting cells; it reports whether some set changed size. */
    method OnePass(order: seq<CellId>, ghost all: set<CellId>) returns (changed: bool)
      requires Enumerates(order, waitingCells) && Universe(waiterLinks, waitingCells) <= all
      modifies this`waiterLinks
      ensures waiterLinks == Pass(old(waiterLinks), waitingCells, order)
      ensures Universe(waiterLinks, waitingCells) <= all
      ensures changed <==> !SameSizes(old(waiterLinks), waiterLinks, order)
    {
      hide SameSizes, Visit, Advanced, Universe;
      PassAdvances(waiterLinks, waitingCells, order, all);
      ghost var start := waiterLinks;
      changed := false;
      assert SameSizes(start, start, []) by { NothingChangedSize(start); }
      for i := 0 to |order|
        invariant waiterLinks == Pass(start, waitingCells, order[..i])
        invariant !changed <==> SameSizes(start, waiterLinks, order[..i])
      {
        assert order[..i + 1] == order[..i] + [order[i]] && order[..i + 1][..i] == order[..i];
        PassAdvances(start, waitingCells, order[..i], all);
        var links := VisitWaiter(order[i]);
        SameSizesExtend(start, waiterLinks, order[..i], order[i], links);
        changed := changed || |Get(waiterLinks, order[i])| != |links|;
        waiterLinks := waiterLinks[order[i] := links];
      }
      assert order[..|order|] == order;
    }

    method VisitWaiter(w: CellId) returns (links: set<CellId>)
      ensures links == Visit(waiterLinks, waitingCells, w)
    {
      links := Get(waiterLinks, w);
      var rest := Get(waiterLinks, w);
      while rest != {}
        invariant rest <= Get(waiterLinks, w)
        invariant links == Get(waiterLinks, w)
                           + set m, x | m in Get(waiterLinks, w) - rest && m in waitingCells
                             && x in Get(waiterLinks, m) :: x
        decreases rest
      {
        var m :| m in rest;
        rest := rest - {m};
        if m in waitingCells { links := links + Get(waiterLinks, m); }
      }
      assert Get(waiterLinks, w) - rest == Get(waiterLinks, w);
      links := links - {w};
    }

    method StripAndInvert(order: seq<CellId>)
      requires Enumerates(order, waitingCells) && readyMakerLinks == map[]
      modifies this`waiterLinks, this`readyMakerLinks
      ensures waiterLinks == Strip(old(waiterLinks), waitingCells, order)
      ensures Inverse(waiterLinks, readyMakerLinks, waitingCells)
    {
      hide InverseOf;
      InverseOfNone(waiterLinks, order);
      for i := 0 to |order|
        invariant waiterLinks == Strip(old(waiterLinks), waitingCells, order[..i])
        invariant InverseOf(waiterLinks, readyMakerLinks, order[..i])
      {
        assert order[..i + 1] == order[..i] + [order[i]] && order[..i + 1][..i] == order[..i];
        var links := Get(waiterLinks, order[i]) - waitingCells;
        ghost var links0, makers0 := waiterLinks, readyMakerLinks;
        waiterLinks := waiterLinks[order[i] := links];
        AddWaiter(order[i], links);
        NotYetListed(order, waitingCells, i);
        InverseOfMore(links0, makers0, readyMakerLinks, order[..i], order[i], links);
      }
      assert order[..|order|] == order;
      InverseOfAll(waiterLinks, readyMakerLinks, order, waitingCells);
    }

    /** Records `w` under each of the cells it is linked to. */
    method AddWaiter(w: CellId, links: set<CellId>)
      modifies this`readyMakerLinks
      ensures forall r :: Get(readyMakerLinks, r) == Get(old(readyMakerLinks), r) + if r in links then {w} else {}
    {
      var rest := links;
      while rest != {}
        invariant rest <= links
        invariant forall r :: Get(readyMakerLinks, r)
                                == Get(old(readyMakerLinks), r) + if r in links - rest then {w} else {}
        decreases rest
      {
        var r :| r in rest;
        rest := rest - {r};
        readyMakerLinks := readyMakerLinks[r := Get(readyMakerLinks, r) + {w}];
      }
      assert links - rest == links;
    }

    method Enumerate(cells: set<CellId>) returns (order: seq<CellId>)
      ensures Enumerates(order, cells)
    {
      order := [];
      var rest := cells;
      while rest != {}
        invariant rest <= cells && Enumerates(order, cells - rest)
        decreases rest
      {
        var c :| c in rest;
        rest := rest - {c};
        order := order + [c];
      }
      assert cells - rest == cells;
    }

    /**
     * The DAG-based half of the checker, from cells already classified ready. In-order it keeps some
     * cell ready, and links every cell it makes wait to at least one cell, all of them ready.
     */
    method ComputeDagResult(reg: Registry, settings: Settings, cells: seq<CellId>, last: Option<CellId>)
      requires Registered(reg) && settings.inOrder && Elements(cells) <= reg.position.Keys
      requires waitingCells == {} && readyCells <= Elements(cells) && waiterLinks == readyMakerLinks == map[]
      requires last.Some? ==> last.value !in readyCells
                              + DagWaiting(ParentLinks(reg, settings), Elements(cells), readyCells, {})
      modifies this
      ensures waitingCells == DagWaiting(ParentLinks(reg, settings), Elements(cells), old(readyCells), {})
      ensures readyCells == old(readyCells) - waitingCells
      ensures old(readyCells) != {} ==> readyCells != {}
      ensures forall c <- readyCells :: Get(ParentLinks(reg, settings), c) !! readyCells + waitingCells
      ensures forall w <- waitingCells :: Get(waiterLinks, w) != {} && Get(waiterLinks, w) <= readyCells
      ensures Inverse(waiterLinks, readyMakerLinks, waitingCells)
    {
      hide Enumerates, Universe, Close, Strip, StartLinks, InOrder, DagWaiting, Inverse;
      ghost var parents, checked, ready := ParentLinks(reg, settings), Elements(cells), readyCells;
      InOrderParentsDescend(reg, settings);
      ReadyCellsHaveSettledParents(parents, checked, ready, {});
      if ready != {} { SomeReadyStays(parents, checked, ready, reg.position); }
      ComputeDagBasedWaiters(reg, settings, cells);
      var order := Enumerate(waitingCells);
      ComputeDagReadyMakers(reg, settings, order, last);
      ghost var links, all := waiterLinks, readyCells + waitingCells;
      LinksStart(parents, links, readyCells, waitingCells);
      ComputeWaiterAndReadyMakerLinks(order, all);
      ghost var low := PositionsBounded(reg.position);
      forall w | w in waitingCells ensures Get(waiterLinks, w) != {} && Get(waiterLinks, w) <= readyCells {
        NoOrphanedWaiter(parents, checked, ready, links, reg.position, low, order, all, w);
      }
    }
  }

  lemma {:induction false} LinksStart(parents: Links, links: Links, ready: set<CellId>, waiting: set<CellId>)
    requires forall w <- waiting :: Get(links, w) == Get(parents, w) * (ready + waiting)
    ensures StartLinks(parents, links, ready, waiting) && Universe(links, waiting) <= ready + waiting
  {
  }
}
