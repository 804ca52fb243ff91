/**
 * The edge dictionaries of cells and statements. Every node keeps the parents it read from and the
 * children that read from it, by id and symbol; the two must stay inverse to each other while cells
 * run again, ids are renamed and statements are overridden.
 */
module Edges {
  type Id = string
  type Sym = string
  type Edges = map<Id, set<Sym>>
  type Links = map<Id, Edges>

  function Get(m: Edges, b: Id): set<Sym> { if b in m then m[b] else {} }

  /** The symbols on the edge from `a` to `b`; none if there is no edge. */
  function On(m: Links, a: Id, b: Id): set<Sym> { if a in m then Get(m[a], b) else {} }

  function Of(m: Links, a: Id): Edges { if a in m then m[a] else map[] }

  function With(m: Edges, b: Id, syms: set<Sym>): Edges { m[b := Get(m, b) + syms] }

  /** An edge carries at least one symbol. */
  ghost predicate NoEmptyEdge(m: Links) { forall a, b :: a in m && b in m[a] ==> m[a][b] != {} }

  ghost predicate Inverse(parents: Links, children: Links) {
    forall c, p :: On(parents, c, p) == On(children, p, c)
  }

  /** No node is its own parent, and no two are parents of each other. */
  ghost predicate NoShortCycle(parents: Links) {
    forall c, p :: On(parents, c, p) != {} ==> c != p && On(parents, p, c) == {}
  }

  ghost predicate Linked(parents: Links, children: Links) {
    && parents.Keys == children.Keys && NoEmptyEdge(parents) && NoEmptyEdge(children)
    && (forall c, p :: On(parents, c, p) != {} ==> p in parents)
  }

  ghost predicate Exact(parents: Links, children: Links) {
    Linked(parents, children) && Inverse(parents, children) && NoShortCycle(parents)
  }

  /**
   * While `r` runs again: everyone else's edges are exact; the children maps of its parents may
   * still hold the edges of its previous version, whose parents were `prev`, and nothing more.
   */
  ghost predicate MidRun(parents: Links, children: Links, r: Id, prev: Edges) {
    && Linked(parents, children) && r in parents && NoShortCycle(parents)
    && (forall c, p :: c != r ==> On(parents, c, p) == On(children, p, c))
    && (forall p :: On(parents, r, p) <= On(children, p, r) <= On(parents, r, p) + Get(prev, p))
    && (forall p :: Get(prev, p) <= On(children, p, r))
    && (forall p :: Get(prev, p) != {} ==> p in parents && p != r && On(parents, p, r) == {})
  }

  //////////////////// One dictionary update ////////////////////

  /** `m'` is `m` with `syms` added on the one edge from `a` to `b`. */
  ghost predicate Added(m: Links, m': Links, a: Id, b: Id, syms: set<Sym>) {
    && m'.Keys == m.Keys
    && (forall x, y :: On(m', x, y) == On(m, x, y) + if x == a && y == b then syms else {})
  }

  ghost predicate Removed(m: Links, m': Links, a: Id, b: Id, syms: set<Sym>) {
    && m'.Keys == m.Keys
    && (forall x, y :: On(m', x, y) == On(m, x, y) - if x == a && y == b then syms else {})
  }

  function Add(m: Links, a: Id, b: Id, syms: set<Sym>): Links
    requires a in m
  {
    m[a := With(m[a], b, syms)]
  }

  lemma {:induction false} AddAdds(m: Links, a: Id, b: Id, syms: set<Sym>)
    requires a in m
    ensures Added(m, Add(m, a, b, syms), a, b, syms)
    ensures NoEmptyEdge(m) && syms != {} ==> NoEmptyEdge(Add(m, a, b, syms))
  {
  }

  /** Takes `syms` off one edge, and deletes the key of an edge left empty. */
  function Remove(m: Links, a: Id, b: Id, syms: set<Sym>): Links
    requires a in m
  {
    if Get(m[a], b) == {} then m
    else if Get(m[a], b) - syms == {} then m[a := m[a] - {b}]
    else m[a := m[a][b := m[a][b] - syms]]
  }

  lemma {:induction false} RemoveRemoves(m: Links, a: Id, b: Id, syms: set<Sym>)
    requires a in m
    ensures Removed(m, Remove(m, a, b, syms), a, b, syms)
    ensures NoEmptyEdge(m) ==> NoEmptyEdge(Remove(m, a, b, syms))
  {
  }

  //////////////////// Edges as pairs ////////////////////

  ghost function Pairs(e: Edges): set<(Id, Sym)> { set p, s | p in e && s in e[p] :: (p, s) }

  ghost function Star(p: Id, syms: set<Sym>): set<(Id, Sym)> { set s | s in syms :: (p, s) }

  /** The edges of `prev` that lead to `keys` and carry one of `syms`. */
  ghost function Common(prev: Edges, syms: set<Sym>, keys: set<Id>): set<(Id, Sym)> {
    set p, s | p in prev && p in keys && s in prev[p] && s in syms :: (p, s)
  }

  lemma {:induction false} PairsWith(e: Edges, b: Id, syms: set<Sym>)
    ensures Pairs(With(e, b, syms)) == Pairs(e) + Star(b, syms)
  {
    var e' := With(e, b, syms);
    forall q: (Id, Sym) ensures q in Pairs(e') <==> q in Pairs(e) + Star(b, syms) {
      assert q in Pairs(e') <==> q.0 in e' && q.1 in e'[q.0];
      assert q in Pairs(e) <==> q.0 in e && q.1 in e[q.0];
      assert q in Star(b, syms) <==> q.0 == b && q.1 in syms;
    }
  }

  ghost predicate OthersSame(m: Links, m': Links, r: Id) {
    m'.Keys == m.Keys && forall c :: c in m && c != r ==> m'[c] == m[c]
  }

  /** What one `add_parent_edges` gives the running cell `r`. */
  ghost function Gained(kids: Edges, r: Id, prev: Edges, pid: Id, syms: set<Sym>): set<(Id, Sym)> {
    if pid in kids then {}                            // already downstream of `r`
    else if pid == r then Common(prev, syms, prev.Keys)    // inherited from the previous version
    else Star(pid, syms)
  }

  lemma {:induction false} EdgeKeepsMidRun(parents: Links, children: Links, r: Id, prev: Edges, pid: Id, syms: set<Sym>)
    requires MidRun(parents, children, r, prev) && pid in parents && pid != r && pid !in children[r] && syms != {}
    ensures MidRun(Add(parents, r, pid, syms), Add(children, pid, r, syms), r, prev)
  {
    AddAdds(parents, r, pid, syms);
    AddAdds(children, pid, r, syms);
    assert On(parents, pid, r) == On(children, r, pid);
  }

  lemma {:induction false} InheritKeepsMidRun(parents: Links, children: Links, r: Id, prev: Edges, p: Id,
                                              syms: set<Sym>)
    requires MidRun(parents, children, r, prev) && p in prev && syms != {} && syms <= prev[p]
    ensures MidRun(Add(parents, r, p, syms), children, r, prev)
  {
    AddAdds(parents, r, p, syms);
    AddedInherits(parents, Add(parents, r, p, syms), children, r, prev, p, syms);
  }

  lemma {:induction false} AddedInherits(parents: Links, parents': Links, children: Links, r: Id, prev: Edges, p: Id,
                                         syms: set<Sym>)
    requires MidRun(parents, children, r, prev) && syms != {} && syms <= Get(prev, p)
    requires Added(parents, parents', r, p, syms) && NoEmptyEdge(parents')
    ensures MidRun(parents', children, r, prev)
  {
    hide On, NoEmptyEdge, NoShortCycle, Get;
    NoShortCycleAdded(parents, parents', r, p, syms);
    forall q ensures On(parents', r, q) <= On(children, q, r) <= On(parents', r, q) + Get(prev, q) {
      StaysBetween(On(parents, r, q), On(children, q, r), Get(prev, q), if q == p then syms else {});
    }
  }

  lemma {:induction false} StaysBetween<T>(low: set<T>, mid: set<T>, extra: set<T>, more: set<T>)
    requires low <= mid <= low + extra && more <= extra <= mid
    ensures low + more <= mid <= low + more + extra
  {
  }

  lemma {:induction false} NoShortCycleAdded(m: Links, m': Links, r: Id, p: Id, syms: set<Sym>)
    requires NoShortCycle(m) && Added(m, m', r, p, syms) && p != r && On(m, p, r) == {}
    ensures NoShortCycle(m')
  {
    hide On;
  }

  lemma {:induction false} MidRunKeys(parents: Links, children: Links, r: Id, prev: Edges)
    requires MidRun(parents, children, r, prev)
    ensures parents.Keys == children.Keys && r in parents && forall p :: p in prev && prev[p] != {} ==> p in parents
  {
    forall p | p in prev && prev[p] != {} ensures p in parents { assert Get(prev, p) != {}; }
  }

  lemma {:induction false} BeginsMidRun(parents: Links, children: Links, id: Id)
    requires Exact(parents, children) && id in parents
    ensures MidRun(parents[id := map[]], children, id, parents[id])
  {
    var parents', prev := parents[id := map[]], parents[id];
    assert forall c, p :: On(parents', c, p) == if c == id then {} else On(parents, c, p);
    forall p ensures Get(prev, p) == On(children, p, id) { assert On(parents, id, p) == Get(prev, p); }
    forall p | Get(prev, p) != {} ensures p in parents && p != id && On(parents', p, id) == {} {
      assert On(parents, id, p) != {};
    }
  }

  lemma {:induction false} FreshIsExact(parents: Links, children: Links, id: Id)
    requires Exact(parents, children) && id !in parents
    ensures Exact(parents[id := map[]], children[id := map[]])
  {
    var parents', children' := parents[id := map[]], children[id := map[]];
    forall c, p ensures On(parents', c, p) == On(parents, c, p) && On(children', p, c) == On(children, p, c) {
    }
  }

  //////////////////// Cleaning up after a run ////////////////////

  /** The edge from `c` to `p` has been visited: `rest` are the cells still to come, and `pids` the
      parents of cell `cur` still to come. */
  ghost predicate Visited(parents0: Links, rest: set<Id>, cur: Id, pids: set<Id>, c: Id, p: Id) {
    On(parents0, c, p) != {} && c !in rest && !(c == cur && p in pids)
  }

  /** `dangling` has been taken off the visited edges, in both maps. */
  ghost predicate Pruned(parents0: Links, children0: Links, parents: Links, children: Links,
                         rest: set<Id>, cur: Id, pids: set<Id>, dangling: set<Sym>)
  {
    && parents.Keys == parents0.Keys && children.Keys == children0.Keys
    && NoEmptyEdge(parents) && NoEmptyEdge(children)
    && (forall c, p :: On(parents, c, p)
                         == On(parents0, c, p) - if Visited(parents0, rest, cur, pids, c, p) then dangling else {})
    && (forall c, p :: On(children, p, c)
                         == On(children0, p, c) - if Visited(parents0, rest, cur, pids, c, p) then dangling else {})
  }

  lemma {:induction false} PruneStep(parents0: Links, children0: Links, parents: Links, children: Links,
                                     rest: set<Id>, cur: Id, pids: set<Id>, dangling: set<Sym>,
                                     parents': Links, children': Links, p: Id)
    requires Pruned(parents0, children0, parents, children, rest, cur, pids, dangling)
    requires Removed(parents, parents', cur, p, dangling) && Removed(children, children', p, cur, dangling)
    requires NoEmptyEdge(parents') && NoEmptyEdge(children')
    requires cur !in rest && On(parents0, cur, p) != {}
    ensures Pruned(parents0, children0, parents', children', rest, cur, pids - {p}, dangling)
    ensures parents'.Keys == parents.Keys && children'.Keys == children.Keys
  {
    forall c, q
      ensures Visited(parents0, rest, cur, pids - {p}, c, q)
              <==> Visited(parents0, rest, cur, pids, c, q) || (c == cur && q == p)
    {
    }
  }

  /** Turning to the next cell, which still has its original parents. */
  lemma {:induction false} NextCell(parents0: Links, children0: Links, parents: Links, children: Links,
                                    rest: set<Id>, cur: Id, dangling: set<Sym>, c: Id)
    requires Pruned(parents0, children0, parents, children, rest, cur, {}, dangling)
    requires NoEmptyEdge(parents0) && c in parents && c in rest
    ensures parents[c].Keys == parents0[c].Keys && forall p <- parents[c] :: On(parents0, c, p) != {}
    ensures Pruned(parents0, children0, parents, children, rest - {c}, c, parents[c].Keys, dangling)
  {
    forall p ensures p in parents[c] <==> p in parents0[c] {
      assert On(parents, c, p) == On(parents0, c, p);
    }
    forall x, p
      ensures Visited(parents0, rest - {c}, c, parents[c].Keys, x, p) <==> Visited(parents0, rest, cur, {}, x, p)
    {
      assert p in parents0[c] <==> On(parents0, c, p) != {};
    }
  }

  /** The reverse edges to `r` that only its previous version had are gone, but for those to `rest`. */
  ghost predicate Reversed(children0: Links, children: Links, parents: Links, r: Id, prev: Edges, rest: set<Id>) {
    && children.Keys == children0.Keys && NoEmptyEdge(children)
    && (forall c, p :: On(children, p, c) ==
          On(children0, p, c) - if c == r && p !in rest then Get(prev, p) - On(parents, r, p) else {})
  }

  /** The edges without the symbols in `dangling`. */
  ghost predicate Shrunk(m: Links, m': Links, dangling: set<Sym>) {
    forall a, b :: On(m', a, b) == On(m, a, b) - dangling
  }

  ghost predicate SameOn(m: Links, m': Links) { m'.Keys == m.Keys && forall c, p :: On(m', c, p) == On(m, c, p) }

  lemma {:induction false} ReverseStep(children0: Links, children: Links, children': Links, parents: Links,
                                       parents': Links, parents'': Links, r: Id, prev: Edges, rest: set<Id>, p: Id)
    requires Reversed(children0, children, parents, r, prev, rest) && SameOn(parents, parents') && p in prev
    requires var syms := prev[p] - On(parents', r, p);
             Removed(children, children', p, r, syms) && Removed(parents', parents'', r, p, syms)
    requires NoEmptyEdge(children')
    ensures Reversed(children0, children', parents, r, prev, rest - {p}) && SameOn(parents, parents'')
    ensures parents''.Keys == parents'.Keys && children'.Keys == children.Keys
  {
  }

  lemma {:induction false} CleanupIsExact(parents0: Links, children0: Links, parents1: Links, children1: Links,
                                          parents2: Links, children2: Links, r: Id, prev: Edges, cur: Id, dangling:
                                            set<Sym>)
    requires MidRun(parents0, children0, r, prev)
    requires Pruned(parents0, children0, parents1, children1, {}, cur, {}, dangling)
    requires Reversed(children1, children2, parents1, r, prev, {}) && SameOn(parents1, parents2)
    requires NoEmptyEdge(parents2)
    ensures Exact(parents2, children2) && parents2.Keys == parents0.Keys && Shrunk(parents0, parents2, dangling)
  {
    forall c, p ensures On(parents2, c, p) == On(parents0, c, p) - dangling == On(children2, p, c) {
      CleanupOn(parents0, children0, parents1, children1, parents2, children2, r, prev, cur, dangling, c, p);
    }
    ShrunkIsExact(parents0, children0, parents2, children2, dangling);
  }

  lemma {:induction false} CleanupOn(parents0: Links, children0: Links, parents1: Links, children1: Links,
                                     parents2: Links, children2: Links, r: Id, prev: Edges, cur: Id,
                                     dangling: set<Sym>, c: Id, p: Id)
    requires MidRun(parents0, children0, r, prev)
    requires Pruned(parents0, children0, parents1, children1, {}, cur, {}, dangling)
    requires Reversed(children1, children2, parents1, r, prev, {}) && SameOn(parents1, parents2)
    ensures On(parents2, c, p) == On(parents0, c, p) - dangling == On(children2, p, c)
  {
    PrunedOn(parents0, children0, parents1, children1, cur, dangling, c, p);
    MidRunOn(parents0, children0, r, prev, c, p);
    hide MidRun, Pruned;
  }

  lemma {:induction false} PrunedOn(parents0: Links, children0: Links, parents1: Links, children1: Links, cur: Id,
                                    dangling: set<Sym>, c: Id, p: Id)
    requires Pruned(parents0, children0, parents1, children1, {}, cur, {}, dangling)
    ensures On(parents1, c, p) == On(parents0, c, p) - dangling
    ensures On(children1, p, c) == On(children0, p, c) - if On(parents0, c, p) != {} then dangling else {}
  {
  }

  lemma {:induction false} MidRunOn(parents: Links, children: Links, r: Id, prev: Edges, c: Id, p: Id)
    requires MidRun(parents, children, r, prev)
    ensures c != r ==> On(parents, c, p) == On(children, p, c)
    ensures c == r ==> On(parents, c, p) <= On(children, p, c) <= On(parents, c, p) + Get(prev, p)
  {
  }

  lemma {:induction false} ShrunkIsExact(parents0: Links, children0: Links, parents: Links, children: Links,
                                         dangling: set<Sym>)
    requires Linked(parents0, children0) && NoShortCycle(parents0)
    requires parents.Keys == children.Keys == parents0.Keys && NoEmptyEdge(parents) && NoEmptyEdge(children)
    requires forall c, p :: On(parents, c, p) == On(parents0, c, p) - dangling == On(children, p, c)
    ensures Exact(parents, children)
  {
    forall c, p | On(parents, c, p) != {} ensures c != p && On(parents, p, c) == {} && p in parents {
      assert On(parents0, c, p) != {};
    }
  }

  //////////////////// Cells that run again ////////////////////

  /** One use in a run: the counter of the run that last updated the symbol, and the symbol. */
  type Use = (nat, Sym)

  datatype Run = Run(id: Id, uses: seq<Use>, dangling: set<Sym>)

  /** Every counter was a run of a known cell, and a current version is the last run of its cell. */
  ghost predicate Registered(history: seq<Id>, current: map<Id, int>) {
    && (forall k :: 0 <= k < |history| ==> history[k] in current)
    && (forall i :: i in current ==>
          if current[i] == -1 then i !in history
          else 1 <= current[i] <= |history| && history[current[i] - 1] == i
               && forall k :: current[i] <= k < |history| ==> history[k] != i)
  }

  lemma {:induction false} RegisteredAppend(history: seq<Id>, current: map<Id, int>, id: Id)
    requires Registered(history, current)
    ensures Registered(history + [id], current[id := |history| + 1])
  {
  }

  lemma {:induction false} NewIsRegistered(history: seq<Id>, current: map<Id, int>, id: Id)
    requires Registered(history, current) && id !in current
    ensures Registered(history, current[id := -1])
  {
  }

  ghost predicate KnownUses(uses: seq<Use>, counter: nat) {
    forall k :: 0 <= k < |uses| ==> 1 <= uses[k].0 <= counter
  }

  /** What one use gives the running cell: nothing if the updating cell has run again since. */
  ghost function UseGains(use: Use, history: seq<Id>, current: map<Id, int>, kids: Edges, r: Id, prev: Edges)
    : set<(Id, Sym)>
    requires Registered(history, current) && 1 <= use.0 <= |history|
  {
    var q := history[use.0 - 1];
    if current[q] != use.0 then {} else Gained(kids, r, prev, q, {use.1})
  }

  ghost function UsesGain(uses: seq<Use>, history: seq<Id>, current: map<Id, int>, kids: Edges, r: Id, prev: Edges)
    : set<(Id, Sym)>
    requires Registered(history, current) && KnownUses(uses, |history|)
  {
    if uses == [] then {}
    else UsesGain(uses[..|uses| - 1], history, current, kids, r, prev)
         + UseGains(uses[|uses| - 1], history, current, kids, r, prev)
  }

  /** The edges after `run`: those its uses gave its cell, and those of all other cells, none dangling. */
  ghost predicate AfterRun(run: Run, history: seq<Id>, current: map<Id, int>, parents0: Links, kids: Edges,
                           parents: Links)
    requires Registered(history, current) && KnownUses(run.uses, |history|)
  {
    && (forall c, p :: c != run.id ==> On(parents, c, p) == On(parents0, c, p) - run.dangling)
    && (forall p, sym :: sym in On(parents, run.id, p) <==>
          sym !in run.dangling
          && (p, sym) in UsesGain(run.uses, history, current, kids, run.id, Of(parents0, run.id)))
  }

  //////////////////// Which edges a run leaves ////////////////////

  /** The counter of the last run of a cell; 0 if it has not run. */
  function LastRun(history: seq<Id>, p: Id): (k: nat)
    ensures k <= |history|
  {
    if history == [] then 0
    else if history[|history| - 1] == p then |history|
    else LastRun(history[..|history| - 1], p)
  }

  ghost predicate UsedAs(uses: seq<Use>, counter: nat, sym: Sym) {
    exists k :: 0 <= k < |uses| && uses[k] == (counter, sym)
  }

  /**
   * The edge a run leaves from its cell to `p`, given the edges before: the run used the symbol as `p`'s
   * last run had left it, and `p` does not depend on this cell; or the edge was there already and the
   * run used the symbol as written by itself.
   */
  ghost predicate Leaves(run: Run, history: seq<Id>, parents0: Links, p: Id, sym: Sym) {
    && p != run.id && sym !in run.dangling
    && (|| (UsedAs(run.uses, LastRun(history, p), sym) && On(parents0, p, run.id) == {})
        || (UsedAs(run.uses, |history|, sym) && sym in On(parents0, run.id, p)))
  }

  /** The edges after a run: those it leaves from its cell, and those of other cells that do not dangle. */
  ghost predicate EdgesAfter(run: Run, history: seq<Id>, parents0: Links, parents: Links) {
    forall c, p, sym :: sym in On(parents, c, p) <==>
      if c == run.id then Leaves(run, history, parents0, p, sym)
      else sym in On(parents0, c, p) && sym !in run.dangling
  }

  lemma {:induction false} LastRunIs(history: seq<Id>, p: Id, k: nat)
    requires 1 <= k <= |history| && history[k - 1] == p && forall j :: k <= j < |history| ==> history[j] != p
    ensures LastRun(history, p) == k
    decreases |history|
  {
    if history[|history| - 1] != p { LastRunIs(history[..|history| - 1], p, k); }
  }

  lemma {:induction false} NeverRun(history: seq<Id>, p: Id)
    requires p !in history
    ensures LastRun(history, p) == 0
    decreases |history|
  {
    if history != [] { NeverRun(history[..|history| - 1], p); }
  }

  /** The current version of a cell is its last run. */
  lemma {:induction false} CurrentIsLast(history: seq<Id>, current: map<Id, int>, p: Id)
    requires Registered(history, current)
    ensures if p in current
            && current[p] != -1 then current[p] == LastRun(history, p) >= 1 else LastRun(history, p) == 0
  {
    if p in current && current[p] != -1 { LastRunIs(history, p, current[p]); } else { NeverRun(history, p); }
  }

  lemma {:induction false} UseGainsExactly(use: Use, history: seq<Id>, current: map<Id, int>, kids: Edges, r: Id,
                                           prev: Edges, p: Id, sym: Sym)
    requires Registered(history, current) && 1 <= use.0 <= |history| && r !in kids
    ensures (p, sym) in UseGains(use, history, current, kids, r, prev) <==>
            use.1 == sym && (|| (p != r && p !in kids && use.0 == LastRun(history, p))
                             || (use.0 == LastRun(history, r) && p in prev && sym in prev[p]))
  {
    var q := history[use.0 - 1];
    CurrentIsLast(history, current, q);
    CurrentIsLast(history, current, p);
    CurrentIsLast(history, current, r);
    hide LastRun;
    assert (p, sym) in Star(q, {use.1}) <==> p == q && sym == use.1;
    assert (p, sym) in Common(prev, {use.1}, prev.Keys) <==> p in prev && sym in prev[p] && sym == use.1;
  }

  lemma {:induction false} UsesGainExactly(uses: seq<Use>, history: seq<Id>, current: map<Id, int>, kids: Edges, r: Id,
                                           prev: Edges, p: Id, sym: Sym)
    requires Registered(history, current) && KnownUses(uses, |history|) && r !in kids
    ensures (p, sym) in UsesGain(uses, history, current, kids, r, prev) <==>
            || (p != r && p !in kids && UsedAs(uses, LastRun(history, p), sym))
            || (UsedAs(uses, LastRun(history, r), sym) && p in prev && sym in prev[p])
    decreases |uses|
  {
    if uses != [] {
      var init, use := uses[..|uses| - 1], uses[|uses| - 1];
      UsesGainExactly(init, history, current, kids, r, prev, p, sym);
      UseGainsExactly(use, history, current, kids, r, prev, p, sym);
      OneMoreUse(init, use, LastRun(history, p), sym);
      OneMoreUse(init, use, LastRun(history, r), sym);
      assert init + [use] == uses;
      hide LastRun, Registered, UseGains, UsedAs;
    }
  }

  lemma {:induction false} OneMoreUse(uses: seq<Use>, use: Use, counter: nat, sym: Sym)
    ensures UsedAs(uses + [use], counter, sym) <==> UsedAs(uses, counter, sym) || use == (counter, sym)
  {
    var all := uses + [use];
    if UsedAs(uses, counter, sym) {
      var k :| 0 <= k < |uses| && uses[k] == (counter, sym);
      assert all[k] == (counter, sym);
    }
    if use == (counter, sym) { assert all[|uses|] == (counter, sym); }
  }

  /** What a run's uses gave its cell, told by the last runs of the cells it used. */
  lemma {:induction false} AfterRunInData(run: Run, history: seq<Id>, current: map<Id, int>, parents0: Links,
                                          children0: Links, parents: Links)
    requires Registered(history, current) && KnownUses(run.uses, |history|) && Exact(parents0, children0)
    requires |history| >= 1 && history[|history| - 1] == run.id
    requires AfterRun(run, history, current, parents0, Of(children0, run.id), parents)
    ensures EdgesAfter(run, history, parents0, parents)
  {
    hide Registered, KnownUses, UsesGain, UsedAs, LastRun;
    var kids, prev := Of(children0, run.id), Of(parents0, run.id);
    assert run.id !in kids by { KidsDepend(parents0, children0, run.id, run.id); }
    forall p, sym ensures sym in On(parents, run.id, p) <==> Leaves(run, history, parents0, p, sym) {
      UsesGainExactly(run.uses, history, current, kids, run.id, prev, p, sym);
      KidsDepend(parents0, children0, run.id, p);
      assert LastRun(history, run.id) == |history| by { LastRunIs(history, run.id, |history|); }
      assert sym in On(parents0, run.id, p) <==> p in prev && sym in prev[p];
    }
  }

  /** Keys of the child map are the cells that depend on this one, which is not among them. */
  lemma {:induction false} KidsDepend(parents: Links, children: Links, r: Id, p: Id)
    requires Exact(parents, children)
    ensures p in Of(children, r) <==> On(parents, p, r) != {}
    ensures On(parents, r, r) == {}
  {
    assert On(parents, p, r) == On(children, r, p);
  }

  //////////////////// Which edges a session leaves ////////////////////

  /** The counters of a session that goes on from `history` up to its `n`-th run. */
  function HistoryAt(history: seq<Id>, runs: seq<Run>, n: nat): (h: seq<Id>)
    requires n <= |runs|
    ensures |h| == |history| + n && (n > 0 ==> h[|h| - 1] == runs[n - 1].id)
  {
    if n == 0 then history else HistoryAt(history, runs, n - 1) + [runs[n - 1].id]
  }

  /** The edges after the `n`-th run, from those in `parents0` before the first. */
  ghost predicate EdgeAt(parents0: Links, history: seq<Id>, runs: seq<Run>, n: nat, c: Id, p: Id, sym: Sym)
    requires n <= |runs|
    decreases n, 0
  {
    if n == 0 then sym in On(parents0, c, p) else
    var run, h := runs[n - 1], HistoryAt(history, runs, n);
    && sym !in run.dangling
    && if c != run.id then EdgeAt(parents0, history, runs, n - 1, c, p, sym) else
       p != c && (|| (UsedAs(run.uses, LastRun(h, p), sym)
                      && !DependsAt(parents0, history, runs, n - 1, p, c))
                  || (UsedAs(run.uses, |h|, sym) && EdgeAt(parents0, history, runs, n - 1, c, p, sym)))
  }

  /** Some edge leads from `c` to `p` after the `n`-th run. */
  ghost predicate DependsAt(parents0: Links, history: seq<Id>, runs: seq<Run>, n: nat, c: Id, p: Id)
    requires n <= |runs|
    decreases n, 1
  {
    exists sym :: EdgeAt(parents0, history, runs, n, c, p, sym)
  }

  /** A cell has the edges its last run left, as far as their symbols did not dangle after a later run. */
  lemma {:induction false} EdgesAreOfLastRun(parents0: Links, history: seq<Id>, runs: seq<Run>, m: nat, n: nat,
                                             c: Id, p: Id, sym: Sym)
    requires 1 <= m <= n <= |runs| && runs[m - 1].id == c && forall k :: m <= k < n ==> runs[k].id != c
    ensures EdgeAt(parents0, history, runs, n, c, p, sym) <==>
            EdgeAt(parents0, history, runs, m, c, p, sym) && forall k :: m <= k < n ==> sym !in runs[k].dangling
    decreases n
  {
    hide UsedAs, LastRun, HistoryAt;
    if n > m {
      EdgesAreOfLastRun(parents0, history, runs, m, n - 1, c, p, sym);
      assert EdgeAt(parents0, history, runs, n, c, p, sym) <==>
             sym !in runs[n - 1].dangling && EdgeAt(parents0, history, runs, n - 1, c, p, sym);
    }
  }

  ghost predicate EdgesAt(parents0: Links, history: seq<Id>, runs: seq<Run>, n: nat, parents: Links)
    requires n <= |runs|
  {
    forall c, p, sym :: sym in On(parents, c, p) <==> EdgeAt(parents0, history, runs, n, c, p, sym)
  }

  lemma {:induction false} NextEdges(parents0: Links, history: seq<Id>, runs: seq<Run>, n: nat, before: Links,
                                     after: Links)
    requires 1 <= n <= |runs| && EdgesAt(parents0, history, runs, n - 1, before)
    requires EdgesAfter(runs[n - 1], HistoryAt(history, runs, n), before, after)
    ensures EdgesAt(parents0, history, runs, n, after)
  {
    hide UsedAs, LastRun, On, EdgeAt, DependsAt, HistoryAt, EdgesAfter;
    forall c, p, sym ensures sym in On(after, c, p) <==> EdgeAt(parents0, history, runs, n, c, p, sym) {
      NextEdge(parents0, history, runs, n, before, after, c, p, sym);
    }
  }

  lemma {:induction false} NextEdge(parents0: Links, history: seq<Id>, runs: seq<Run>, n: nat, before: Links,
                                    after: Links, c: Id, p: Id, sym: Sym)
    requires 1 <= n <= |runs| && EdgesAt(parents0, history, runs, n - 1, before)
    requires EdgesAfter(runs[n - 1], HistoryAt(history, runs, n), before, after)
    ensures sym in On(after, c, p) <==> EdgeAt(parents0, history, runs, n, c, p, sym)
  {
    hide UsedAs, LastRun, On, EdgeAt, DependsAt, HistoryAt;
    var run, h := runs[n - 1], HistoryAt(history, runs, n);
    DependsIsOn(parents0, history, runs, n - 1, before, p, c);
    EdgeUnfolds(parents0, history, runs, n, c, p, sym);
    assert sym in On(before, c, p) <==> EdgeAt(parents0, history, runs, n - 1, c, p, sym);
    if c == run.id {
      assert sym in On(after, c, p) <==> Leaves(run, h, before, p, sym);
    } else {
      assert sym in On(after, c, p) <==> sym in On(before, c, p) && sym !in run.dangling;
    }
  }

  lemma {:induction false} EdgeUnfolds(parents0: Links, history: seq<Id>, runs: seq<Run>, n: nat, c: Id, p: Id,
                                       sym: Sym)
    requires 1 <= n <= |runs|
    ensures var run, h := runs[n - 1], HistoryAt(history, runs, n);
            EdgeAt(parents0, history, runs, n, c, p, sym) <==>
            sym !in run.dangling
            && if c != run.id then EdgeAt(parents0, history, runs, n - 1, c, p, sym) else
               p != c && (|| (UsedAs(run.uses, LastRun(h, p), sym)
                              && !DependsAt(parents0, history, runs, n - 1, p, c))
                          || (UsedAs(run.uses, |h|, sym)
                              && EdgeAt(parents0, history, runs, n - 1, c, p, sym)))
  {
    hide UsedAs, LastRun, HistoryAt, DependsAt;
  }

  lemma {:induction false} DependsIsOn(parents0: Links, history: seq<Id>, runs: seq<Run>, n: nat, m: Links, c: Id,
                                       p: Id)
    requires n <= |runs| && EdgesAt(parents0, history, runs, n, m)
    ensures DependsAt(parents0, history, runs, n, c, p) <==> On(m, c, p) != {}
  {
    hide On;
    if On(m, c, p) != {} {
      var sym :| sym in On(m, c, p);
      assert EdgeAt(parents0, history, runs, n, c, p, sym);
    }
  }

  class CellEdges {
    var parents: Links             // raw_parents of the current version of each cell
    var children: Links            // raw_children, shared by all versions of a cell
    var prev: map<Id, Edges>       // raw_parents of the version before the current one
    var current: map<Id, int>      // counter of the current version, -1 if it never ran
    var history: seq<Id>           // the cell run at each counter, from 1

    ghost predicate Valid()
      reads this
    {
      Exact(parents, children) && current.Keys == parents.Keys && Registered(history, current)
    }

    constructor ()
      ensures Valid() && parents == map[] && history == []
    {
      parents, children, prev, current, history := map[], map[], map[], map[], [];
    }

    /** Cells the front end knows of but that have not run. */
    method CreateUntracked(id: Id)
      requires Valid()
      modifies this
      ensures Valid() && history == old(history)
      ensures id in parents && forall c <- old(parents) :: c in parents && parents[c] == old(parents)[c]
      ensures id !in old(parents) ==> parents[id] == map[]
    {
      hide Exact, Registered;
      if id in current { return; }
      FreshIsExact(parents, children, id);
      NewIsRegistered(history, current, id);
      parents, children, current := parents[id := map[]], children[id := map[]], current[id := -1];
    }

    /** `self` is the cell with the last counter, mid-run. */
    ghost predicate Running(self: Id)
      reads this
    {
      && Registered(history, current) && current.Keys == parents.Keys
      && self in current && current[self] == |history| && self in prev
      && MidRun(parents, children, self, prev[self])
    }

    /** A new version of the cell: no parents yet, the children of the version before. */
    method CreateAndTrack(id: Id)
      requires Valid()
      modifies this
      ensures history == old(history) + [id] && current == old(current)[id := |history|]
      ensures Running(id)
      ensures parents == old(parents)[id := map[]]
      ensures id in children && children[id] == Of(old(children), id) && prev[id] == Of(old(parents), id)
    {
      RegisteredAppend(history, current, id);
      hide Exact, MidRun, Registered;
      history := history + [id];
      InheritChildren(id);
      current := current[id := |history|];
    }

    method InheritChildren(id: Id)
      requires Exact(parents, children)
      modifies this`parents, this`children, this`prev
      ensures id in prev && MidRun(parents, children, id, prev[id]) && parents == old(parents)[id := map[]]
      ensures id in children && children[id] == Of(old(children), id) && prev[id] == Of(old(parents), id)
    {
      assert parents.Keys == children.Keys;
      hide Exact, MidRun;
      if id in parents {
        BeginsMidRun(parents, children, id);
        prev := prev[id := parents[id]];
      } else {
        FreshIsExact(parents, children, id);
        BeginsMidRun(parents[id := map[]], children[id := map[]], id);
        assert parents[id := map[]][id := map[]] == parents[id := map[]];
        prev, children := prev[id := map[]], children[id := map[]];
      }
      parents := parents[id := map[]];
    }

    method AddParentEdges(self: Id, pid: Id, syms: set<Sym>)
      requires Running(self) && pid in parents && self in children
      modifies this`parents, this`children
      ensures Running(self) && self in children && children[self] == old(children[self])
      ensures OthersSame(old(parents), parents, self)
      ensures Pairs(parents[self]) == Pairs(old(parents)[self]) + Gained(children[self], self, prev[self], pid, syms)
    {
      hide Registered, MidRun, Pairs;
      MidRunKeys(parents, children, self, prev[self]);
      if syms == {} {
        assert Gained(children[self], self, prev[self], pid, syms) == {};
        return;
      }
      if pid in children[self] { return; }
      if pid == self {
        InheritParents(self, syms);
        return;
      }
      EdgeKeepsMidRun(parents, children, self, prev[self], pid, syms);
      PairsWith(parents[self], pid, syms);
      parents := Add(parents, self, pid, syms);
      children := Add(children, pid, self, syms);
    }

    /** A use of its own symbol: keep those edges of the previous version that carry it. */
    method InheritParents(self: Id, syms: set<Sym>)
      requires Running(self)
      modifies this`parents
      ensures Running(self) && OthersSame(old(parents), parents, self)
      ensures Pairs(parents[self]) == Pairs(old(parents)[self]) + Common(prev[self], syms, prev[self].Keys)
    {
      hide MidRun, Pairs, Registered, Common, With;
      NothingCommon(prev[self], syms);
      var rest := prev[self].Keys;
      assert prev[self].Keys - rest == {};
      while rest != {}
        invariant rest <= prev[self].Keys && Running(self) && OthersSame(old(parents), parents, self)
        invariant Pairs(parents[self]) == Pairs(old(parents)[self]) + Common(prev[self], syms, prev[self].Keys - rest)
        decreases rest
      {
        var p :| p in rest;
        var common := syms * prev[self][p];
        CommonStep(prev[self], syms, prev[self].Keys - rest, p);
        assert prev[self].Keys - (rest - {p}) == prev[self].Keys - rest + {p};
        rest := rest - {p};
        if common != {} {
          InheritKeepsMidRun(parents, children, self, prev[self], p, common);
          PairsWith(parents[self], p, common);
          parents := Add(parents, self, p, common);
        }
      }
      assert prev[self].Keys - rest == prev[self].Keys;
    }

    /** A dynamic use by the running cell of a symbol last updated by the run with counter `parent`. */
    method AddDataDep(self: Id, parent: nat, sym: Sym)
      requires Running(self) && 1 <= parent <= |history| && self in children
      modifies this`parents, this`children
      ensures Running(self) && self in children && children[self] == old(children[self])
      ensures OthersSame(old(parents), parents, self)
      ensures Pairs(parents[self]) == Pairs(old(parents)[self])
                                      + UseGains((parent, sym), history, current, children[self], self, prev[self])
    {
      hide MidRun, Pairs, Gained;
      var childCell, parentCell := history[|history| - 1], history[parent - 1];
      if current[childCell] == |history| && current[parentCell] == parent {
        AddParentEdges(childCell, parentCell, {sym});
      }
    }

    /**
     * One run of a cell, from creating its version to cleaning up after it. The maps end up exact;
     * the cell has the edges its uses gave it, and every other cell has the edges it had.
     */
    method RunCell(run: Run)
      requires Valid() && KnownUses(run.uses, |history| + 1)
      modifies this
      ensures Valid() && history == old(history) + [run.id] && current == old(current)[run.id := |history|]
      ensures AfterRun(run, history, current, old(parents), Of(old(children), run.id), parents)
      ensures EdgesAfter(run, history, old(parents), parents)
    {
      hide Exact, MidRun, UsesGain, On, Pairs, OthersSame, Shrunk, AfterRun, Registered, KnownUses, EdgesAfter;
      TrackAndUse(run.id, run.uses);
      ghost var ended := parents;
      RemoveDanglingParentEdges(run.dangling);
      RunEdges(run, history, current, old(parents), Of(old(children), run.id), old(parents)[run.id := map[]], ended,
               parents);
      AfterRunInData(run, history, current, old(parents), old(children), parents);
    }

    method TrackAndUse(id: Id, uses: seq<Use>)
      requires Valid() && KnownUses(uses, |history| + 1)
      modifies this
      ensures history == old(history) + [id] && current == old(current)[id := |history|] && Running(id)
      ensures OthersSame(old(parents)[id := map[]], parents, id)
      ensures Pairs(parents[id])
              == UsesGain(uses, history, current, Of(old(children), id), id, Of(old(parents), id))
    {
      hide Exact, MidRun, UsesGain, On, Pairs, OthersSame, Registered, KnownUses;
      CreateAndTrack(id);
      UseAll(id, uses);
    }

    method UseAll(self: Id, uses: seq<Use>)
      requires Running(self) && self in children && parents[self] == map[] && KnownUses(uses, |history|)
      modifies this`parents, this`children
      ensures Running(self) && OthersSame(old(parents), parents, self)
      ensures Pairs(parents[self]) == UsesGain(uses, history, current, old(children)[self], self, prev[self])
    {
      hide MidRun, Registered, UseGains;
      assert Pairs(parents[self]) == {};
      hide Pairs;
      for k := 0 to |uses|
        invariant Running(self) && self in children && children[self] == old(children)[self]
        invariant OthersSame(old(parents), parents, self) && KnownUses(uses[..k], |history|)
        invariant Pairs(parents[self])
                  == UsesGain(uses[..k], history, current, children[self], self, prev[self])
      {
        assert uses[..k + 1][..k] == uses[..k];
        AddDataDep(self, uses[k].0, uses[k].1);
      }
      assert uses[..|uses|] == uses;
    }

    method RunSession(runs: seq<Run>)
      requires Valid() && forall k :: 0 <= k < |runs| ==> KnownUses(runs[k].uses, |history| + k + 1)
      modifies this
      ensures Valid() && history == HistoryAt(old(history), runs, |runs|)
      ensures EdgesAt(old(parents), old(history), runs, |runs|, parents)
    {
      hide EdgesAfter, KnownUses, AfterRun;
      for k := 0 to |runs|
        invariant Valid() && history == HistoryAt(old(history), runs, k)
        invariant EdgesAt(old(parents), old(history), runs, k, parents)
      {
        ghost var before := parents;
        RunCell(runs[k]);
        NextEdges(old(parents), old(history), runs, k + 1, before, parents);
      }
    }

    method RemoveParentEdges(self: Id, pid: Id, syms: set<Sym>)
      requires syms != {} ==> self in parents && pid in children
      modifies this`parents, this`children
      ensures Removed(old(parents), parents, self, pid, syms) && Removed(old(children), children, pid, self, syms)
      ensures NoEmptyEdge(old(parents)) ==> NoEmptyEdge(parents)
      ensures NoEmptyEdge(old(children)) ==> NoEmptyEdge(children)
    {
      hide NoEmptyEdge;
      if syms == {} { return; }
      RemoveRemoves(parents, self, pid, syms);
      RemoveRemoves(children, pid, self, syms);
      parents := Remove(parents, self, pid, syms);
      children := Remove(children, pid, self, syms);
    }

    /** After a run: drop the dangling symbols everywhere, then the reverse edges of the version before. */
    method RemoveDanglingParentEdges(dangling: set<Sym>)
      requires |history| > 0 && Running(history[|history| - 1])
      modifies this`parents, this`children
      ensures Valid()
      ensures Shrunk(old(parents), parents, dangling)
    {
      hide MidRun, Exact, Registered, Shrunk;
      var cell := history[|history| - 1];
      Cleanup(cell, dangling);
    }

    method Cleanup(cell: Id, dangling: set<Sym>)
      requires cell in prev && MidRun(parents, children, cell, prev[cell])
      modifies this`parents, this`children
      ensures Exact(parents, children) && parents.Keys == old(parents).Keys
      ensures Shrunk(old(parents), parents, dangling)
    {
      MidRunKeys(parents, children, cell, prev[cell]);
      hide MidRun, Pruned, Reversed, NoEmptyEdge, Exact, SameOn, On, Get;
      ghost var cur := DropDangling(cell, dangling);
      ghost var parents1, children1 := parents, children;
      PrunedFacts(old(parents), old(children), parents, children, {}, cur, {}, dangling);
      DropReversed(cell);
      CleanupIsExact(old(parents), old(children), parents1, children1, parents, children, cell, prev[cell], cur,
                     dangling);
    }

    method DropDangling(ghost r: Id, dangling: set<Sym>) returns (ghost cur: Id)
      requires r in prev && MidRun(parents, children, r, prev[r])
      modifies this`parents, this`children
      ensures Pruned(old(parents), old(children), parents, children, {}, cur, {}, dangling)
    {
      MidRunLinked(parents, children, r, prev[r]);
      NothingPruned(parents, children, r, dangling);
      hide MidRun, Pruned, Visited, NoEmptyEdge;
      cur := r;
      var cells := parents.Keys;
      while cells != {}
        invariant cells <= old(parents).Keys
        invariant parents.Keys == old(parents).Keys && children.Keys == old(children).Keys
        invariant Pruned(old(parents), old(children), parents, children, cells, cur, {}, dangling)
        decreases cells
      {
        var c :| c in cells;
        NextCell(old(parents), old(children), parents, children, cells, cur, dangling, c);
        PrunedFacts(old(parents), old(children), parents, children, cells, cur, {}, dangling);
        cells := cells - {c};
        DropDanglingOf(c, dangling, old(parents), old(children), cells);
        cur := c;
      }
    }

    method DropDanglingOf(c: Id, dangling: set<Sym>, ghost parents0: Links, ghost children0: Links, ghost rest: set<Id>)
      requires c in parents && c !in rest && NoEmptyEdge(parents) && NoEmptyEdge(children)
      requires Pruned(parents0, children0, parents, children, rest, c, parents[c].Keys, dangling)
      requires forall p <- parents[c] :: On(parents0, c, p) != {} && p in children
      modifies this`parents, this`children
      ensures parents.Keys == old(parents).Keys && children.Keys == old(children).Keys
      ensures Pruned(parents0, children0, parents, children, rest, c, {}, dangling)
    {
      hide Pruned, Removed, NoEmptyEdge, Visited;
      var pids := parents[c].Keys;
      while pids != {}
        invariant pids <= old(parents)[c].Keys
        invariant parents.Keys == old(parents).Keys && children.Keys == old(children).Keys
        invariant NoEmptyEdge(parents) && NoEmptyEdge(children)
        invariant Pruned(parents0, children0, parents, children, rest, c, pids, dangling)
        decreases pids
      {
        var pid :| pid in pids;
        ghost var before, beforeKids := parents, children;
        RemoveParentEdges(c, pid, dangling);
        PruneStep(parents0, children0, before, beforeKids, rest, c, pids, dangling, parents, children, pid);
        pids := pids - {pid};
      }
    }

    method DropReversed(r: Id)
      requires r in prev && r in parents && NoEmptyEdge(parents) && NoEmptyEdge(children)
      requires forall p :: p in prev[r] && prev[r][p] != {} ==> p in children
      modifies this`parents, this`children
      ensures Reversed(old(children), children, old(parents), r, prev[r], {})
      ensures SameOn(old(parents), parents) && NoEmptyEdge(parents)
    {
      NothingReversed(children, parents, r, prev[r]);
      hide Reversed, SameOn, NoEmptyEdge, Removed;
      var rest := prev[r].Keys;
      while rest != {}
        invariant rest <= prev[r].Keys
        invariant parents.Keys == old(parents).Keys && children.Keys == old(children).Keys
        invariant Reversed(old(children), children, old(parents), r, prev[r], rest)
        invariant SameOn(old(parents), parents) && NoEmptyEdge(parents) && NoEmptyEdge(children)
        decreases rest
      {
        var p :| p in rest;
        ghost var before, beforeKids := parents, children;
        RemoveParentEdges(r, p, prev[r][p] - On(parents, r, p));
        ReverseStep(old(children), beforeKids, children, old(parents), before, parents, r, prev[r], rest, p);
        rest := rest - {p};
      }
    }
  }

  lemma {:induction false} RunEdges(run: Run, history: seq<Id>, current: map<Id, int>, parents0: Links, kids: Edges,
                                    begun: Links, ended: Links, parents: Links)
    requires Registered(history, current) && KnownUses(run.uses, |history|)
    requires begun == parents0[run.id := map[]] && OthersSame(begun, ended, run.id)
    requires Pairs(ended[run.id]) == UsesGain(run.uses, history, current, kids, run.id, Of(parents0, run.id))
    requires Shrunk(ended, parents, run.dangling)
    ensures AfterRun(run, history, current, parents0, kids, parents)
  {
    hide Registered, KnownUses, UsesGain;
    forall p, sym ensures sym in On(ended, run.id, p) <==> (p, sym) in Pairs(ended[run.id]) {
    }
  }

  lemma {:induction false} NothingCommon(prev: Edges, syms: set<Sym>)
    ensures Common(prev, syms, {}) == {}
  {
  }

  lemma {:induction false} CommonStep(prev: Edges, syms: set<Sym>, keys: set<Id>, p: Id)
    requires p in prev
    ensures Common(prev, syms, keys + {p}) == Common(prev, syms, keys) + Star(p, syms * prev[p])
  {
    forall q: (Id, Sym)
      ensures q in Common(prev, syms, keys + {p}) <==> q in Common(prev, syms, keys) + Star(p, syms * prev[p])
    {
      assert q in Common(prev, syms, keys + {p}) <==>
             q.0 in prev && q.0 in keys + {p} && q.1 in prev[q.0] && q.1 in syms;
      assert q in Common(prev, syms, keys) <==> q.0 in prev && q.0 in keys && q.1 in prev[q.0] && q.1 in syms;
      assert q in Star(p, syms * prev[p]) <==> q.0 == p && q.1 in syms * prev[p];
    }
  }


  lemma {:induction false} MidRunLinked(parents: Links, children: Links, r: Id, prev: Edges)
    requires MidRun(parents, children, r, prev)
    ensures NoEmptyEdge(parents) && NoEmptyEdge(children)
    ensures forall c <- parents :: parents[c].Keys <= children.Keys
  {
    forall c, p | c in parents && p in parents[c] ensures p in children { assert On(parents, c, p) != {}; }
  }

  lemma {:induction false} NothingReversed(children: Links, parents: Links, r: Id, prev: Edges)
    requires NoEmptyEdge(children)
    ensures Reversed(children, children, parents, r, prev, prev.Keys) && SameOn(parents, parents)
  {
  }

  lemma {:induction false} NothingPruned(parents: Links, children: Links, cur: Id, dangling: set<Sym>)
    requires NoEmptyEdge(parents) && NoEmptyEdge(children)
    ensures Pruned(parents, children, parents, children, parents.Keys, cur, {}, dangling)
  {
  }

  lemma {:induction false} PrunedFacts(parents0: Links, children0: Links, parents: Links, children: Links,
                                       rest: set<Id>, cur: Id, pids: set<Id>, dangling: set<Sym>)
    requires Pruned(parents0, children0, parents, children, rest, cur, pids, dangling)
    ensures NoEmptyEdge(parents) && NoEmptyEdge(children)
    ensures parents.Keys == parents0.Keys && children.Keys == children0.Keys
  {
  }

  //////////////////// Renaming a node ////////////////////

  function Back(oldId: Id, newId: Id, x: Id): Id { if x == newId then oldId else x }

  /** `m'` is `m` with the node `oldId` called `newId`. */
  ghost predicate Renamed(m: Links, m': Links, oldId: Id, newId: Id) {
    && oldId in m && m'.Keys == m.Keys - {oldId} + {newId}
    && (forall x, y :: On(m', x, y) ==
          if x == oldId || y == oldId then {} else On(m, Back(oldId, newId, x), Back(oldId, newId, y)))
  }

  /** Nothing is called `id`, and nothing points to it. */
  ghost predicate Fresh(m: Links, id: Id) { id !in m && forall x :: On(m, x, id) == {} }

  lemma {:induction false} FreshInExact(parents: Links, children: Links, id: Id)
    requires Exact(parents, children) && id !in parents
    ensures Fresh(parents, id) && Fresh(children, id)
  {
    forall x ensures On(parents, x, id) == {} && On(children, x, id) == {} {
      assert On(parents, id, x) == {} && On(children, id, x) == {};
      assert On(parents, x, id) == On(children, id, x);
      assert On(parents, id, x) == On(children, x, id);
    }
  }

  /** Renaming keeps the maps inverse, without self-edges or mutual parents. */
  lemma {:induction false} RenamingKeepsExact(parents: Links, children: Links, parents': Links, children': Links,
                                              oldId: Id, newId: Id)
    requires Exact(parents, children) && newId !in parents && NoEmptyEdge(parents') && NoEmptyEdge(children')
    requires Renamed(parents, parents', oldId, newId) && Renamed(children, children', oldId, newId)
    ensures Exact(parents', children')
  {
    forall c, p ensures On(parents', c, p) == On(children', p, c) {
      assert On(parents, Back(oldId, newId, c), Back(oldId, newId, p)) == On(children, Back(oldId, newId, p),
             Back(oldId, newId, c));
    }
    forall c, p | On(parents', c, p) != {} ensures c != p && On(parents', p, c) == {} && p in parents' {
      var c0, p0 := Back(oldId, newId, c), Back(oldId, newId, p);
      assert On(parents, c0, p0) != {};
    }
  }

  function RenameKey(e: Edges, oldId: Id, newId: Id): Edges {
    if oldId in e then (e - {oldId})[newId := e[oldId]] else e
  }

  /** In the rows of `xs` not in `rest`, the key `oldId` has become `newId`. */
  ghost predicate KeysRenamed(m: Links, m': Links, xs: set<Id>, rest: set<Id>, oldId: Id, newId: Id) {
    && m'.Keys == m.Keys && NoEmptyEdge(m')
    && (forall x, y :: On(m', x, y) ==
          if x in xs && x !in rest then (if y == oldId then {} else On(m, x, Back(oldId, newId, y))) else On(m, x, y))
  }

  lemma {:induction false} RenameRow(m: Links, m': Links, xs: set<Id>, rest: set<Id>, oldId: Id, newId: Id, x: Id)
    requires KeysRenamed(m, m', xs, rest, oldId, newId) && x in rest && x in xs && x in m && newId !in m[x]
    ensures KeysRenamed(m, m'[x := RenameKey(m'[x], oldId, newId)], xs, rest - {x}, oldId, newId)
  {
    var m'' := m'[x := RenameKey(m'[x], oldId, newId)];
    forall y ensures On(m'', x, y) == if y == oldId then {} else On(m, x, Back(oldId, newId, y)) {
      assert On(m', x, y) == On(m, x, y) && On(m', x, oldId) == On(m, x, oldId) && On(m, x, newId) == {};
    }
    assert forall z, y :: z != x ==> On(m'', z, y) == On(m', z, y);
    forall b | b in m''[x] ensures m''[x][b] != {} {
      assert b in m'[x] || (b == newId && oldId in m'[x]);
    }
  }

  method RenameKeys(m: Links, xs: set<Id>, oldId: Id, newId: Id) returns (r: Links)
    requires xs <= m.Keys && NoEmptyEdge(m) && forall x <- xs :: newId !in m[x]
    ensures KeysRenamed(m, r, xs, {}, oldId, newId)
  {
    r := m;
    var rest := xs;
    while rest != {}
      invariant rest <= xs && r.Keys == m.Keys && KeysRenamed(m, r, xs, rest, oldId, newId)
      decreases rest
    {
      var x :| x in rest;
      RenameRow(m, r, xs, rest, oldId, newId, x);
      r := r[x := RenameKey(r[x], oldId, newId)];
      rest := rest - {x};
    }
  }

  function Rekey(m: Links, oldId: Id, newId: Id): Links
    requires oldId in m
  {
    (m - {oldId})[newId := m[oldId]]
  }

  lemma {:induction false} RekeyOn(m: Links, oldId: Id, newId: Id, x: Id, y: Id)
    requires oldId in m && newId !in m
    ensures On(Rekey(m, oldId, newId), x, y) == if x == oldId then {} else On(m, Back(oldId, newId, x), y)
  {
  }

  /** Rekeying the node, then renaming it in the rows `xs` that point to it, renames it everywhere. */
  lemma {:induction false} RenamedByKeys(m: Links, m': Links, xs: set<Id>, oldId: Id, newId: Id)
    requires oldId in m && Fresh(m, newId) && On(m, oldId, oldId) == {} && newId !in xs
    requires KeysRenamed(Rekey(m, oldId, newId), m', xs, {}, oldId, newId)
    requires forall x :: x != oldId && x != newId ==> (x in xs <==> On(m, x, oldId) != {})
    ensures Renamed(m, m', oldId, newId)
  {
    forall x, y ensures On(m', x, y) ==
          if x == oldId || y == oldId then {} else On(m, Back(oldId, newId, x), Back(oldId, newId, y))
    {
      RekeyOn(m, oldId, newId, x, y);
      RekeyOn(m, oldId, newId, x, Back(oldId, newId, y));
      RekeyOn(m, oldId, newId, x, oldId);
    }
  }

  /** The rows of the other map that point to `oldId` are named by its own row. */
  lemma {:induction false} RowNamesPointers(parents: Links, children: Links, row: Edges, oldId: Id, newId: Id)
    requires Exact(parents, children) && oldId in parents && newId !in parents && row.Keys == parents[oldId].Keys
    ensures newId !in row.Keys && On(children, oldId, oldId) == {} && Fresh(children, newId)
    ensures forall x :: x in row.Keys <==> On(children, x, oldId) != {}
    ensures forall x <- row.Keys :: x in children && x != oldId && newId !in children[x]
  {
    FreshInExact(parents, children, newId);
    forall x ensures x in row.Keys <==> On(children, x, oldId) != {} {
      assert On(parents, oldId, x) == On(children, x, oldId);
      assert x in parents[oldId] <==> On(parents, oldId, x) != {};
    }
    assert On(children, newId, oldId) == {};
    assert On(parents, oldId, oldId) == {} == On(children, oldId, oldId);
    forall x | x in row.Keys ensures newId !in children[x] { assert On(children, x, newId) == {}; }
  }

  lemma {:induction false} Flip(parents: Links, children: Links)
    requires Exact(parents, children)
    ensures Exact(children, parents)
  {
    forall c, p | On(children, p, c) != {} ensures c != p && On(children, c, p) == {} && c in children {
      assert On(parents, c, p) != {};
    }
  }

  type Tag = string

  /** Under every tag, `oldId` has become `newId`. */
  ghost predicate TagsRenamed(m: map<Tag, set<Id>>, m': map<Tag, set<Id>>, oldId: Id, newId: Id) {
    m'.Keys == m.Keys
    && forall t, x :: t in m ==> (x in m'[t] <==> x != oldId && Back(oldId, newId, x) in m[t])
  }

  /** The registries of cells that key on the id, in both slicing contexts. */
  class CellIds {
    var dynamicParents: Links
    var dynamicChildren: Links
    var staticParents: Links
    var staticChildren: Links
    var positions: map<Id, int>
    var reactiveByTag: map<Tag, set<Id>>

    /** A placeholder id becomes the front end's: the same graph, positions and tags under the new name. */
    method UpdateId(oldId: Id, newId: Id)
      requires Exact(dynamicParents, dynamicChildren) && Exact(staticParents, staticChildren)
      requires oldId in dynamicParents && oldId in staticParents
      requires newId !in dynamicParents && newId !in staticParents && newId !in positions
      requires forall t <- reactiveByTag :: newId !in reactiveByTag[t]
      modifies this
      ensures Renamed(old(dynamicParents), dynamicParents, oldId, newId)
      ensures Renamed(old(dynamicChildren), dynamicChildren, oldId, newId)
      ensures Renamed(old(staticParents), staticParents, oldId, newId)
      ensures Renamed(old(staticChildren), staticChildren, oldId, newId)
      ensures Exact(dynamicParents, dynamicChildren) && Exact(staticParents, staticChildren)
      ensures forall x :: x in positions <==> x != oldId && Back(oldId, newId, x) in old(positions)
      ensures forall x <- positions :: positions[x] == old(positions)[Back(oldId, newId, x)]
      ensures TagsRenamed(old(reactiveByTag), reactiveByTag, oldId, newId)
    {
      hide Exact, Renamed, TagsRenamed;
      RenamePosition(oldId, newId);
      RenameTags(oldId, newId);
      dynamicParents, dynamicChildren := RenameEdges(dynamicParents, dynamicChildren, oldId, newId);
      staticParents, staticChildren := RenameEdges(staticParents, staticChildren, oldId, newId);
    }

    method RenamePosition(oldId: Id, newId: Id)
      requires newId !in positions && newId != oldId
      modifies this`positions
      ensures forall x :: x in positions <==> x != oldId && Back(oldId, newId, x) in old(positions)
      ensures forall x <- positions :: positions[x] == old(positions)[Back(oldId, newId, x)]
    {
      if oldId in positions {
        positions := (positions - {oldId})[newId := positions[oldId]];
      }
    }

    method RenameTags(oldId: Id, newId: Id)
      requires forall t <- reactiveByTag :: newId !in reactiveByTag[t]
      modifies this`reactiveByTag
      ensures TagsRenamed(old(reactiveByTag), reactiveByTag, oldId, newId)
    {
      var rest := reactiveByTag.Keys;
      while rest != {}
        invariant reactiveByTag.Keys == old(reactiveByTag).Keys && rest <= old(reactiveByTag).Keys
        invariant forall t <- rest :: reactiveByTag[t] == old(reactiveByTag)[t]
        invariant forall t, x :: t in reactiveByTag && t !in rest ==>
                (x in reactiveByTag[t] <==> x != oldId && Back(oldId, newId, x) in old(reactiveByTag)[t])
        decreases rest
      {
        var t :| t in rest;
        rest := rest - {t};
        if oldId in reactiveByTag[t] {
          reactiveByTag := reactiveByTag[t := reactiveByTag[t] - {oldId} + {newId}];
        }
      }
    }

    static method RenameEdges(parents: Links, children: Links, oldId: Id, newId: Id)
      returns (parents': Links, children': Links)
      requires Exact(parents, children) && oldId in parents && newId !in parents
      ensures Renamed(parents, parents', oldId, newId) && Renamed(children, children', oldId, newId)
      ensures Exact(parents', children')
    {
      Flip(parents, children);
      RekeyFacts(parents, oldId, newId);
      RekeyFacts(children, oldId, newId);
      assert children.Keys == parents.Keys;
      hide Exact, Renamed, NoEmptyEdge, Fresh, Rekey, On, KeysRenamed;
      RowNamesPointers(parents, children, parents[oldId], oldId, newId);
      parents', children' := Rekey(parents, oldId, newId), Rekey(children, oldId, newId);
      ghost var pids := parents'[newId].Keys;
      children' := RenameKeys(children', parents'[newId].Keys, oldId, newId);
      RenamedByKeys(children, children', pids, oldId, newId);
      RowKept(children, children', pids, oldId, newId);
      RowNamesPointers(children, parents, children'[newId], oldId, newId);
      ghost var cids := children'[newId].Keys;
      parents' := RenameKeys(parents', children'[newId].Keys, oldId, newId);
      RenamedByKeys(parents, parents', cids, oldId, newId);
      RowKept(parents, parents', cids, oldId, newId);
      RenamingKeepsExact(parents, children, parents', children', oldId, newId);
    }
  }

  lemma {:induction false} RekeyFacts(m: Links, oldId: Id, newId: Id)
    requires oldId in m && newId !in m && NoEmptyEdge(m)
    ensures var q := Rekey(m, oldId, newId);
            && q.Keys == m.Keys - {oldId} + {newId} && q[newId] == m[oldId] && NoEmptyEdge(q)
            && (forall x :: x in m && x != oldId ==> x in q && q[x] == m[x])
  {
  }

  lemma {:induction false} RowKept(m: Links, m': Links, xs: set<Id>, oldId: Id, newId: Id)
    requires oldId in m && newId !in m && newId !in xs && NoEmptyEdge(m)
    requires KeysRenamed(Rekey(m, oldId, newId), m', xs, {}, oldId, newId)
    ensures NoEmptyEdge(m') && newId in m' && m'[newId].Keys == m[oldId].Keys
  {
    forall y ensures y in m'[newId] <==> y in m[oldId] {
      assert On(m', newId, y) == On(Rekey(m, oldId, newId), newId, y) == On(m, oldId, y);
    }
  }

  //////////////////// Overriding a statement ////////////////////

  /** In the rows of `xs` not in `rest`, the edges to `src` now lead to `dst`. */
  ghost predicate RowsMoved(m: Links, m': Links, xs: set<Id>, rest: set<Id>, src: Id, dst: Id) {
    && m'.Keys == m.Keys && NoEmptyEdge(m')
    && (forall a, b :: On(m', a, b) ==
          if a in xs && a !in rest
          then (if b == dst then On(m, a, dst) + On(m, a, src) else if b == src then {} else On(m, a, b))
          else On(m, a, b))
  }

  /** In the columns of `ys` not in `rest`, the edges of `src` are now those of `dst`. */
  ghost predicate ColsMoved(m: Links, m': Links, ys: set<Id>, rest: set<Id>, src: Id, dst: Id) {
    && m'.Keys == m.Keys && NoEmptyEdge(m')
    && (forall a, b :: On(m', a, b) ==
          if b in ys && b !in rest
          then (if a == dst then On(m, dst, b) + On(m, src, b) else if a == src then {} else On(m, a, b))
          else On(m, a, b))
  }

  lemma {:induction false} MoveRow(m: Links, m': Links, m'': Links, xs: set<Id>, rest: set<Id>, src: Id, dst: Id, x: Id)
    requires RowsMoved(m, m', xs, rest, src, dst) && x in rest && x in xs && src != dst
    requires RowsMoved(m', m'', {x}, {}, src, dst)
    ensures RowsMoved(m, m'', xs, rest - {x}, src, dst)
  {
  }

  lemma {:induction false} MoveCol(m: Links, m': Links, m'': Links, ys: set<Id>, rest: set<Id>, src: Id, dst: Id, y: Id)
    requires ColsMoved(m, m', ys, rest, src, dst) && y in rest && y in ys && src != dst
    requires ColsMoved(m', m'', {y}, {}, src, dst)
    ensures ColsMoved(m, m'', ys, rest - {y}, src, dst)
  {
  }

  function MovedRow(m: Links, x: Id, src: Id, dst: Id): Links
    requires x in m && src in m[x]
  {
    m[x := With(m[x] - {src}, dst, m[x][src])]
  }

  function MovedCol(m: Links, y: Id, src: Id, dst: Id): Links
    requires src in m && dst in m && y in m[src]
  {
    m[src := m[src] - {y}][dst := With(m[dst], y, m[src][y])]
  }

  lemma {:induction false} MovesOne(m: Links, x: Id, src: Id, dst: Id)
    requires NoEmptyEdge(m) && src != dst
    ensures x in m && src in m[x] ==> RowsMoved(m, MovedRow(m, x, src, dst), {x}, {}, src, dst)
    ensures src in m && dst in m && x in m[src] ==> ColsMoved(m, MovedCol(m, x, src, dst), {x}, {}, src, dst)
  {
  }

  class StatementEdges {
    var parents: Links
    var children: Links

    /** `ok` is false where the kernel raises a `KeyError`. */
    method ReplaceParentEdges(self: Id, prevParent: Id, newParent: Id) returns (ok: bool)
      requires self in parents && prevParent in children && newParent in children && prevParent != newParent
      requires NoEmptyEdge(parents) && NoEmptyEdge(children)
      modifies this`parents, this`children
      ensures ok <==> On(old(parents), self, prevParent) != {} && On(old(children), prevParent, self) != {}
      ensures ok ==> RowsMoved(old(parents), parents, {self}, {}, prevParent, newParent)
                     && ColsMoved(old(children), children, {self}, {}, prevParent, newParent)
    {
      if prevParent !in parents[self] || self !in children[prevParent] { return false; }
      MovesOne(parents, self, prevParent, newParent);
      MovesOne(children, self, prevParent, newParent);
      hide RowsMoved, ColsMoved, MovedRow, MovedCol;
      parents := MovedRow(parents, self, prevParent, newParent);
      children := MovedCol(children, self, prevParent, newParent);
      ok := true;
    }

    method ReplaceChildEdges(self: Id, prevChild: Id, newChild: Id) returns (ok: bool)
      requires self in children && prevChild in parents && newChild in parents && prevChild != newChild
      requires NoEmptyEdge(parents) && NoEmptyEdge(children)
      modifies this`parents, this`children
      ensures ok <==> On(old(children), self, prevChild) != {} && On(old(parents), prevChild, self) != {}
      ensures ok ==> RowsMoved(old(children), children, {self}, {}, prevChild, newChild)
                     && ColsMoved(old(parents), parents, {self}, {}, prevChild, newChild)
    {
      if prevChild !in children[self] || self !in parents[prevChild] { return false; }
      MovesOne(parents, self, prevChild, newChild);
      MovesOne(children, self, prevChild, newChild);
      hide RowsMoved, ColsMoved, MovedRow, MovedCol;
      children := MovedRow(children, self, prevChild, newChild);
      parents := MovedCol(parents, self, prevChild, newChild);
      ok := true;
    }

    /** A statement overrides another: it takes over all edges of the statement it replaces. */
    method Override(prevId: Id, stmtId: Id) returns (ok: bool)
      requires Exact(parents, children) && prevId in parents && stmtId !in parents
      modifies this`parents, this`children
      ensures ok && Exact(parents, children)
      ensures Renamed(old(parents), parents, prevId, stmtId) && Renamed(old(children), children, prevId, stmtId)
    {
      OverrideStart(parents, children, prevId, stmtId);
      hide Exact, RowsMoved, ColsMoved, Renamed, NoEmptyEdge, On, Redirectable;
      parents, children := parents[stmtId := map[]], children[stmtId := map[]];
      ghost var parents0, children0 := parents, children;
      ok := RedirectChildren(prevId, stmtId);
      ghost var parents1, children1 := parents, children;
      OverrideMiddle(old(parents), old(children), parents1, children1, prevId, stmtId);
      ok := RedirectParents(prevId, stmtId);
      OverrideEnd(old(parents), old(children), parents1, children1, parents, children, prevId, stmtId);
      parents, children := parents - {prevId}, children - {prevId};
      RenamingKeepsExact(old(parents), old(children), parents, children, prevId, stmtId);
    }

    /** Every child of `prevId` gets `stmtId` as its parent instead. */
    method RedirectChildren(prevId: Id, stmtId: Id) returns (ok: bool)
      requires Redirectable(parents, children, prevId, stmtId)
      modifies this`parents, this`children
      ensures ok
      ensures RowsMoved(old(parents), parents, old(children)[prevId].Keys, {}, prevId, stmtId)
      ensures ColsMoved(old(children), children, old(children)[prevId].Keys, {}, prevId, stmtId)
    {
      NothingMoved(parents, children[prevId].Keys, prevId, stmtId);
      NothingMoved(children, children[prevId].Keys, prevId, stmtId);
      hide RowsMoved, ColsMoved, NoEmptyEdge, On;
      var rest := children[prevId].Keys;
      ghost var kids := rest;
      while rest != {}
        invariant rest <= kids && parents.Keys == old(parents).Keys && children.Keys == old(children).Keys
        invariant RowsMoved(old(parents), parents, kids, rest, prevId, stmtId)
        invariant ColsMoved(old(children), children, kids, rest, prevId, stmtId)
        decreases rest
      {
        var cid :| cid in rest;
        ghost var before, beforeKids := parents, children;
        StillThere(old(parents), parents, old(children), children, kids, rest, prevId, stmtId, cid);
        ok := ReplaceParentEdges(cid, prevId, stmtId);
        if !ok { return; }
        MoveRow(old(parents), before, parents, kids, rest, prevId, stmtId, cid);
        MoveCol(old(children), beforeKids, children, kids, rest, prevId, stmtId, cid);
        rest := rest - {cid};
      }
      ok := true;
    }

    /** Every parent of `prevId` gets `stmtId` as its child instead. */
    method RedirectParents(prevId: Id, stmtId: Id) returns (ok: bool)
      requires Redirectable(children, parents, prevId, stmtId)
      modifies this`parents, this`children
      ensures ok
      ensures RowsMoved(old(children), children, old(parents)[prevId].Keys, {}, prevId, stmtId)
      ensures ColsMoved(old(parents), parents, old(parents)[prevId].Keys, {}, prevId, stmtId)
    {
      NothingMoved(parents, parents[prevId].Keys, prevId, stmtId);
      NothingMoved(children, parents[prevId].Keys, prevId, stmtId);
      hide RowsMoved, ColsMoved, NoEmptyEdge, On;
      var rest := parents[prevId].Keys;
      ghost var pids := rest;
      while rest != {}
        invariant rest <= pids && parents.Keys == old(parents).Keys && children.Keys == old(children).Keys
        invariant RowsMoved(old(children), children, pids, rest, prevId, stmtId)
        invariant ColsMoved(old(parents), parents, pids, rest, prevId, stmtId)
        decreases rest
      {
        var pid :| pid in rest;
        ghost var before, beforeKids := parents, children;
        StillThere(old(children), children, old(parents), parents, pids, rest, prevId, stmtId, pid);
        ok := ReplaceChildEdges(pid, prevId, stmtId);
        if !ok { return; }
        MoveRow(old(children), beforeKids, children, pids, rest, prevId, stmtId, pid);
        MoveCol(old(parents), before, parents, pids, rest, prevId, stmtId, pid);
        rest := rest - {pid};
      }
      ok := true;
    }
  }

  /** `src` and `dst` are known, and whoever `src` lists in `kids` lists `src` in `rows`. */
  ghost predicate Redirectable(rows: Links, kids: Links, src: Id, dst: Id) {
    && rows.Keys == kids.Keys && src in kids && dst in kids && src != dst
    && NoEmptyEdge(rows) && NoEmptyEdge(kids)
    && forall x :: x in kids[src] ==> x in rows && On(rows, x, src) != {} && On(kids, src, x) != {}
  }

  lemma {:induction false} OverrideStart(parents: Links, children: Links, prevId: Id, stmtId: Id)
    requires Exact(parents, children) && prevId in parents && stmtId !in parents
    ensures Redirectable(parents[stmtId := map[]], children[stmtId := map[]], prevId, stmtId)
  {
    var ps, cs := parents[stmtId := map[]], children[stmtId := map[]];
    forall x | x in cs[prevId] ensures x in ps && On(ps, x, prevId) != {} && On(cs, prevId, x) != {} {
      assert On(parents, x, prevId) == On(children, prevId, x) != {};
    }
  }

  lemma {:induction false} NothingMoved(m: Links, xs: set<Id>, src: Id, dst: Id)
    requires NoEmptyEdge(m)
    ensures RowsMoved(m, m, xs, xs, src, dst) && ColsMoved(m, m, xs, xs, src, dst)
  {
  }

  lemma {:induction false} StillThere(rows0: Links, rows: Links, kids0: Links, kids: Links, xs: set<Id>,
                                      rest: set<Id>, src: Id, dst: Id, x: Id)
    requires RowsMoved(rows0, rows, xs, rest, src, dst) && ColsMoved(kids0, kids, xs, rest, src, dst)
    requires x in rest && On(rows0, x, src) != {} && On(kids0, src, x) != {}
    ensures On(rows, x, src) != {} && On(kids, src, x) != {} && NoEmptyEdge(rows) && NoEmptyEdge(kids)
  {
  }

  lemma {:induction false} OverrideMiddle(parents: Links, children: Links, parents1: Links, children1: Links,
                                          src: Id, dst: Id)
    requires Exact(parents, children) && src in parents && dst !in parents
    requires RowsMoved(parents[dst := map[]], parents1, children[src].Keys, {}, src, dst)
    requires ColsMoved(children[dst := map[]], children1, children[src].Keys, {}, src, dst)
    ensures Redirectable(children1, parents1, src, dst) && parents1[src].Keys == parents[src].Keys
  {
    var ps, cs := parents[dst := map[]], children[dst := map[]];
    assert On(children, src, src) == {} by { assert On(children, src, src) == On(parents, src, src); }
    assert src !in children[src];
    forall x ensures On(parents1, src, x) == On(parents, src, x) {
      assert On(ps, src, x) == On(parents, src, x);
    }
    forall x ensures x in parents1[src] <==> x in parents[src] {
      assert x in parents1[src] <==> On(parents1, src, x) != {};
      assert x in parents[src] <==> On(parents, src, x) != {};
    }
    forall x | x in parents1[src] ensures x in children1 && On(children1, x, src) != {} && On(parents1, src, x) != {} {
      assert On(children, x, src) == On(parents, src, x) != {};
      assert On(cs, x, src) == On(children, x, src);
    }
  }

  lemma {:induction false} AddedEmpty(m: Links, dst: Id)
    requires dst !in m
    ensures forall a, b :: On(m[dst := map[]], a, b) == On(m, a, b)
  {
  }

  /** First the rows of `xs` and then the columns of `ys` were moved, or the other way round. */
  ghost predicate EitherWay(m: Links, m1: Links, m2: Links, xs: set<Id>, ys: set<Id>, src: Id, dst: Id) {
    || (RowsMoved(m, m1, xs, {}, src, dst) && ColsMoved(m1, m2, ys, {}, src, dst))
    || (ColsMoved(m, m1, ys, {}, src, dst) && RowsMoved(m1, m2, xs, {}, src, dst))
  }

  lemma {:induction false} BothMovedAt(m: Links, m1: Links, m2: Links, xs: set<Id>, ys: set<Id>, src: Id, dst: Id,
                                        a: Id, b: Id)
    requires src in m && dst !in m && Fresh(m, dst) && On(m, src, src) == {}
    requires EitherWay(m[dst := map[]], m1, m2, xs, ys, src, dst)
    requires forall x :: x in xs <==> On(m, x, src) != {}
    requires forall y :: y in ys <==> On(m, src, y) != {}
    ensures On(m2 - {src}, a, b) == if a == src || b == src then {} else On(m, Back(src, dst, a), Back(src, dst, b))
  {
    var m0 := m[dst := map[]];
    AddedEmpty(m, dst);
    hide Fresh, NoEmptyEdge;
    assert On(m, dst, b) == {} && On(m, a, dst) == {};
    assert On(m2 - {src}, a, b) == if a == src then {} else On(m2, a, b);
  }

  lemma {:induction false} BothMoved(m: Links, m1: Links, m2: Links, xs: set<Id>, ys: set<Id>, src: Id, dst: Id)
    requires src in m && dst !in m && Fresh(m, dst) && On(m, src, src) == {}
    requires EitherWay(m[dst := map[]], m1, m2, xs, ys, src, dst)
    requires forall x :: x in xs <==> On(m, x, src) != {}
    requires forall y :: y in ys <==> On(m, src, y) != {}
    ensures Renamed(m, m2 - {src}, src, dst) && NoEmptyEdge(m2 - {src})
  {
    forall a, b ensures On(m2 - {src}, a, b) ==
          if a == src || b == src then {} else On(m, Back(src, dst, a), Back(src, dst, b))
    {
      BothMovedAt(m, m1, m2, xs, ys, src, dst, a, b);
    }
  }

  lemma {:induction false} OverrideEnd(parents: Links, children: Links, parents1: Links, children1: Links,
                                       parents2: Links, children2: Links, src: Id, dst: Id)
    requires Exact(parents, children) && src in parents && dst !in parents && src in parents1
    requires RowsMoved(parents[dst := map[]], parents1, children[src].Keys, {}, src, dst)
    requires ColsMoved(children[dst := map[]], children1, children[src].Keys, {}, src, dst)
    requires parents1[src].Keys == parents[src].Keys
    requires ColsMoved(parents1, parents2, parents1[src].Keys, {}, src, dst)
    requires RowsMoved(children1, children2, parents1[src].Keys, {}, src, dst)
    ensures Renamed(parents, parents2 - {src}, src, dst) && Renamed(children, children2 - {src}, src, dst)
    ensures NoEmptyEdge(parents2 - {src}) && NoEmptyEdge(children2 - {src})
  {
    Flip(parents, children);
    RowNamesPointers(children, parents, children[src], src, dst);
    RowNamesPointers(parents, children, parents[src], src, dst);
    RowKeys(parents, src);
    RowKeys(children, src);
    hide RowsMoved, ColsMoved, Exact, Renamed, NoEmptyEdge, On, Fresh;
    BothMoved(parents, parents1, parents2, children[src].Keys, parents[src].Keys, src, dst);
    BothMoved(children, children1, children2, parents[src].Keys, children[src].Keys, src, dst);
  }

  lemma {:induction false} RowKeys(m: Links, a: Id)
    requires a in m && NoEmptyEdge(m)
    ensures forall b :: b in m[a].Keys <==> On(m, a, b) != {}
  {
  }
}
