/**
 * Backward slices over versioned nodes. A node (a cell or a statement) names its parents by id; an
 * edge leads to the newest version of that id that is not newer than the child.
 */
module Timestamps {
  datatype Timestamp = Timestamp(cellNum: int, stmtNum: int) {
    predicate Less(other: Timestamp) {
      cellNum < other.cellNum || (cellNum == other.cellNum && stmtNum < other.stmtNum)
    }

    predicate AtMost(other: Timestamp) { this == other || Less(other) }

    predicate Initialized() { cellNum > -1 && stmtNum > -1 }
  }

  const UNINITIALIZED := Timestamp(-1, -1)
}

module Slicing {
  import opened Wrappers
  import opened Timestamps

  type Id = nat
  type Node = nat   // one version of a cell or statement

  datatype Version = Version(id: Id, ts: Timestamp, prev: Option<Node>, isOverride: bool,
                             dynamicParents: set<Id>, staticParents: set<Id>)

  /** All versions, and the one each id currently stands for. */
  datatype Graph = Graph(nodes: map<Node, Version>, current: map<Id, Node>, contexts: seq<SlicingContext>)

  function ParentsIn(v: Version, ctx: SlicingContext): set<Id> {
    if ctx == Dynamic then v.dynamicParents else v.staticParents
  }

  function ParentIds(g: Graph, n: Node): set<Id>
    requires n in g.nodes
  {
    set ctx, p | ctx in g.contexts && p in ParentsIn(g.nodes[n], ctx) :: p
  }

  /** Versions only get older along `prev`, and every parent id is registered. */
  ghost predicate WellFormed(g: Graph) {
    && (forall n <- g.nodes :: g.nodes[n].ts.cellNum >= -1 && g.nodes[n].ts.stmtNum >= -1)
    && (forall n <- g.nodes :: g.nodes[n].prev.Some? ==>
          g.nodes[n].prev.value in g.nodes && g.nodes[g.nodes[n].prev.value].ts.Less(g.nodes[n].ts))
    && (forall i <- g.current :: g.current[i] in g.nodes)
    && (forall n <- g.nodes, ctx :: ParentsIn(g.nodes[n], ctx) <= g.current.Keys)
  }

  /** The version walk: back from `m` until not newer than `bound`, or an override; it may run off. */
  function Walk(g: Graph, m: Node, bound: Timestamp): (r: Option<Node>)
    requires WellFormed(g) && m in g.nodes
    ensures r.Some? ==> r.value in g.nodes
    decreases g.nodes[m].ts.cellNum + 1, g.nodes[m].ts.stmtNum + 1
  {
    if !bound.Less(g.nodes[m].ts) || g.nodes[m].isOverride then Some(m)
    else if g.nodes[m].prev.None? then None
    else Walk(g, g.nodes[m].prev.value, bound)
  }

  ghost predicate Edge(g: Graph, a: Node, b: Node)
    requires WellFormed(g)
  {
    a in g.nodes && exists p :: p in ParentIds(g, a) && Walk(g, g.current[p], g.nodes[a].ts) == Some(b)
  }

  /** Some parent of `a` has no version old enough: the kernel raises an `AttributeError` on it. */
  ghost predicate Dangling(g: Graph, a: Node)
    requires WellFormed(g)
  {
    a in g.nodes && exists p :: p in ParentIds(g, a) && Walk(g, g.current[p], g.nodes[a].ts).None?
  }

  ghost predicate Path(g: Graph, p: seq<Node>, a: Node, b: Node)
    requires WellFormed(g)
  {
    && |p| >= 1 && p[0] == a && p[|p| - 1] == b
    && (forall i :: 0 <= i < |p| - 1 ==> Edge(g, p[i], p[i + 1]))
  }

  ghost predicate Reaches(g: Graph, a: Node, b: Node)
    requires WellFormed(g)
  {
    exists p :: Path(g, p, a, b)
  }

  ghost predicate InSlice(g: Graph, seeds: seq<Node>, n: Node)
    requires WellFormed(g)
  {
    exists s <- seeds :: Reaches(g, s, n)
  }

  lemma {:induction false} ReachesSelf(g: Graph, a: Node)
    requires WellFormed(g)
    ensures Reaches(g, a, a)
  {
    assert Path(g, [a], a, a);
  }

  lemma {:induction false} ReachesVia(g: Graph, a: Node, b: Node, c: Node)
    requires WellFormed(g) && Edge(g, a, b) && Reaches(g, b, c)
    ensures Reaches(g, a, c)
  {
    var p :| Path(g, p, b, c);
    assert Path(g, [a] + p, a, c);
  }

  /** Every edge out of `n` stays inside `closure`, and `n` has no dangling parent. */
  ghost predicate Expanded(g: Graph, closure: set<Node>, n: Node)
    requires WellFormed(g)
  {
    !Dangling(g, n) && forall m :: Edge(g, n, m) ==> m in closure
  }

  lemma {:induction false} ExpandedMonotone(g: Graph, closure: set<Node>, larger: set<Node>)
    requires WellFormed(g) && closure <= larger
    ensures forall n :: Expanded(g, closure, n) ==> Expanded(g, larger, n)
  {
  }

  lemma {:induction false} ExpandedCovers(g: Graph, closure: set<Node>, p: seq<Node>, a: Node, b: Node)
    requires WellFormed(g) && Path(g, p, a, b) && a in closure
    requires forall n <- closure :: Expanded(g, closure, n)
    ensures b in closure
    decreases |p|
  {
    if |p| > 1 {
      assert Edge(g, p[0], p[1]);
      ExpandedCovers(g, closure, p[1..], p[1], b);
    }
  }

  class SliceBuilder {
    const g: Graph
    var closure: set<Node>

    constructor (graph: Graph)
      ensures g == graph && closure == {}
    {
      g, closure := graph, {};
    }

    /** Adds to the closure whatever `self` depends on; `ok` is false if the walk ran off a chain. */
    method MakeSliceHelper(self: Node) returns (ok: bool)
      requires WellFormed(g) && self in g.nodes && closure <= g.nodes.Keys
      modifies this`closure
      ensures old(closure) <= closure <= g.nodes.Keys
      ensures forall n <- closure - old(closure) :: Reaches(g, self, n)
      ensures ok ==> self in closure && forall n <- closure - old(closure) :: Expanded(g, closure, n)
      ensures !ok ==> exists n :: Reaches(g, self, n) && Dangling(g, n)
      decreases g.nodes.Keys - closure, 0
    {
      if self in closure { return true; }
      ReachesSelf(g, self);
      closure := closure + {self};
      ghost var start := closure;
      for i := 0 to |g.contexts|
        invariant start <= closure <= g.nodes.Keys
        invariant forall n <- closure - start :: Reaches(g, self, n) && Expanded(g, closure, n)
        invariant forall ctx <- g.contexts[..i], p :: p in ParentsIn(g.nodes[self], ctx) ==>
                    Walk(g, g.current[p], g.nodes[self].ts).Some?
                    && Walk(g, g.current[p], g.nodes[self].ts).value in closure
      {
        assert g.contexts[..i + 1] == g.contexts[..i] + [g.contexts[i]];
        ok := VisitParents(self, g.contexts[i], start);
        if !ok { return; }
      }
      assert g.contexts[..|g.contexts|] == g.contexts;
      ok := true;
    }

    /** The parents of `self` in one context, in any order. */
    method VisitParents(self: Node, ctx: SlicingContext, ghost start: set<Node>) returns (ok: bool)
      requires WellFormed(g) && self in g.nodes && ctx in g.contexts && self in start
      requires start <= closure <= g.nodes.Keys
      requires forall n <- closure - start :: Reaches(g, self, n) && Expanded(g, closure, n)
      modifies this`closure
      ensures old(closure) <= closure <= g.nodes.Keys
      ensures forall n <- closure - start :: Reaches(g, self, n)
      ensures ok ==> forall n <- closure - start :: Expanded(g, closure, n)
      ensures ok ==> forall p <- ParentsIn(g.nodes[self], ctx) ::
                Walk(g, g.current[p], g.nodes[self].ts).Some?
                && Walk(g, g.current[p], g.nodes[self].ts).value in closure
      ensures !ok ==> exists n :: Reaches(g, self, n) && Dangling(g, n)
      decreases g.nodes.Keys - closure, 1
    {
      var rest := ParentsIn(g.nodes[self], ctx);
      while rest != {}
        invariant rest <= ParentsIn(g.nodes[self], ctx)
        invariant old(closure) <= closure <= g.nodes.Keys
        invariant forall n <- closure - start :: Reaches(g, self, n) && Expanded(g, closure, n)
        invariant forall p <- ParentsIn(g.nodes[self], ctx) - rest ::
                    Walk(g, g.current[p], g.nodes[self].ts).Some?
                    && Walk(g, g.current[p], g.nodes[self].ts).value in closure
        decreases rest
      {
        var p :| p in rest;
        rest := rest - {p};
        assert p in ParentIds(g, self);
        var parent := WalkVersions(g.current[p], g.nodes[self].ts);
        if parent.None? {
          ReachesSelf(g, self);
          assert Dangling(g, self);
          return false;
        }
        assert Edge(g, self, parent.value);
        ghost var before := closure;
        ok := MakeSliceHelper(parent.value);
        forall n | n in closure - before ensures Reaches(g, self, n) {
          ReachesVia(g, self, parent.value, n);
        }
        ExpandedMonotone(g, before, closure);
        if !ok {
          ghost var n :| Reaches(g, parent.value, n) && Dangling(g, n);
          ReachesVia(g, self, parent.value, n);
          return;
        }
      }
      ok := true;
    }

    method WalkVersions(m: Node, bound: Timestamp) returns (r: Option<Node>)
      requires WellFormed(g) && m in g.nodes
      ensures r == Walk(g, m, bound)
    {
      var cur := m;
      while bound.Less(g.nodes[cur].ts)
        invariant cur in g.nodes && Walk(g, cur, bound) == Walk(g, m, bound)
        decreases g.nodes[cur].ts.cellNum + 1, g.nodes[cur].ts.stmtNum + 1
      {
        if g.nodes[cur].isOverride { break; }
        if g.nodes[cur].prev.None? { return None; }
        cur := g.nodes[cur].prev.value;
      }
      r := Some(cur);
    }

    /** The slice of several seeds, oldest first. */
    method MakeMultiSlice(seeds: seq<Node>, seedOnly: bool) returns (slice: seq<Node>, ok: bool)
      requires WellFormed(g) && closure == {} && forall s <- seeds :: s in g.nodes
      modifies this`closure
      ensures seedOnly ==> ok && forall n :: n in slice <==> n in seeds
      ensures !seedOnly ==> (ok <==> !exists n :: InSlice(g, seeds, n) && Dangling(g, n))
      ensures !seedOnly && ok ==> forall n :: n in slice <==> InSlice(g, seeds, n)
      ensures ok ==> OldestFirst(g, slice)
    {
      slice, ok := [], true;
      for i := 0 to |seeds|
        invariant ok && closure <= g.nodes.Keys && forall s <- seeds[..i] :: s in closure
        invariant seedOnly ==> forall n <- closure :: n in seeds
        invariant !seedOnly ==> forall n <- closure :: Expanded(g, closure, n) && InSlice(g, seeds, n)
      {
        assert seeds[..i + 1] == seeds[..i] + [seeds[i]];
        if seedOnly {
          closure := closure + {seeds[i]};
        } else {
          ghost var before := closure;
          ok := MakeSliceHelper(seeds[i]);
          if !ok {
            ghost var n :| Reaches(g, seeds[i], n) && Dangling(g, n);
            assert InSlice(g, seeds, n);
            return;
          }
          ExpandedMonotone(g, before, closure);
          forall n | n in closure - before ensures InSlice(g, seeds, n) {
            assert seeds[i] in seeds && Reaches(g, seeds[i], n);
          }
        }
      }
      assert seeds[..|seeds|] == seeds;
      if !seedOnly { SliceIsClosure(g, seeds, closure); }
      slice := SortByTimestamp();
    }

    method SortByTimestamp() returns (slice: seq<Node>)
      requires closure <= g.nodes.Keys
      ensures OldestFirst(g, slice) && forall n :: n in slice <==> n in closure
    {
      slice := [];
      var rest := closure;
      while rest != {}
        invariant rest <= closure && OldestFirst(g, slice)
        invariant forall n :: n in slice <==> n in closure - rest
        invariant forall m <- slice, n <- rest :: g.nodes[m].ts.AtMost(g.nodes[n].ts)
        decreases rest
      {
        var n := Oldest(rest);
        slice := slice + [n];
        rest := rest - {n};
      }
    }

    method Oldest(ns: set<Node>) returns (n: Node)
      requires ns != {} && ns <= g.nodes.Keys
      ensures n in ns && forall m <- ns :: g.nodes[n].ts.AtMost(g.nodes[m].ts)
    {
      n :| n in ns;
      var rest := ns - {n};
      while rest != {}
        invariant n in ns && rest <= ns && forall m <- ns - rest :: g.nodes[n].ts.AtMost(g.nodes[m].ts)
        decreases rest
      {
        var m :| m in rest;
        rest := rest - {m};
        if g.nodes[m].ts.Less(g.nodes[n].ts) { n := m; }
      }
    }
  }

  /** No repetition, and timestamps never decrease. */
  ghost predicate OldestFirst(g: Graph, slice: seq<Node>) {
    && (forall n <- slice :: n in g.nodes)
    && (forall i, j :: 0 <= i < j < |slice| ==>
          slice[i] != slice[j] && g.nodes[slice[i]].ts.AtMost(g.nodes[slice[j]].ts))
  }

  lemma {:induction false} SliceIsClosure(g: Graph, seeds: seq<Node>, closure: set<Node>)
    requires WellFormed(g) && (forall s <- seeds :: s in closure)
    requires forall n <- closure :: Expanded(g, closure, n) && InSlice(g, seeds, n)
    ensures forall n :: n in closure <==> InSlice(g, seeds, n)
    ensures forall n :: InSlice(g, seeds, n) ==> !Dangling(g, n)
  {
    forall n | InSlice(g, seeds, n) ensures n in closure {
      var s :| s in seeds && Reaches(g, s, n);
      var p :| Path(g, p, s, n);
      ExpandedCovers(g, closure, p, s, n);
    }
  }

  //////////////////// What a slice is ////////////////////

  /** `m`, its previous version, the one before that, and so on. */
  function Chain(g: Graph, m: Node): set<Node>
    requires WellFormed(g) && m in g.nodes
    decreases g.nodes[m].ts.cellNum + 1, g.nodes[m].ts.stmtNum + 1
  {
    {m} + if g.nodes[m].prev.Some? then Chain(g, g.nodes[m].prev.value) else {}
  }

  /**
   * Without overrides, the walk finds the newest version not newer than the child, and runs off the
   * chain exactly when every version is newer.
   */
  lemma {:induction false} WalkFindsNewestOldEnough(g: Graph, m: Node, bound: Timestamp)
    requires WellFormed(g) && m in g.nodes && forall n <- Chain(g, m) :: n in g.nodes && !g.nodes[n].isOverride
    ensures Walk(g, m, bound).None? <==> forall n <- Chain(g, m) :: bound.Less(g.nodes[n].ts)
    ensures Walk(g, m, bound).Some? ==>
              var r := Walk(g, m, bound).value;
              r in Chain(g, m) && g.nodes[r].ts.AtMost(bound)
              && forall n <- Chain(g, m) :: g.nodes[n].ts.AtMost(bound) ==> g.nodes[n].ts.AtMost(g.nodes[r].ts)
    decreases g.nodes[m].ts.cellNum + 1, g.nodes[m].ts.stmtNum + 1
  {
    ChainIsOlder(g, m);
    if bound.Less(g.nodes[m].ts) && g.nodes[m].prev.Some? {
      WalkFindsNewestOldEnough(g, g.nodes[m].prev.value, bound);
    }
  }

  lemma {:induction false} ChainIsOlder(g: Graph, m: Node)
    requires WellFormed(g) && m in g.nodes
    ensures forall n <- Chain(g, m) :: n in g.nodes && g.nodes[n].ts.AtMost(g.nodes[m].ts)
    decreases g.nodes[m].ts.cellNum + 1, g.nodes[m].ts.stmtNum + 1
  {
    if g.nodes[m].prev.Some? { ChainIsOlder(g, g.nodes[m].prev.value); }
  }

  lemma {:induction false} WalkIsOldEnough(g: Graph, m: Node, bound: Timestamp)
    requires WellFormed(g) && m in g.nodes && Walk(g, m, bound).Some?
    ensures var r := Walk(g, m, bound).value; g.nodes[r].ts.AtMost(bound) || g.nodes[r].isOverride
    decreases g.nodes[m].ts.cellNum + 1, g.nodes[m].ts.stmtNum + 1
  {
    if bound.Less(g.nodes[m].ts) && !g.nodes[m].isOverride {
      WalkIsOldEnough(g, g.nodes[m].prev.value, bound);
    }
  }

  /** Nothing in a slice is newer than its newest seed, unless the slice holds an override. */
  lemma {:induction false} SliceIsNotNewer(g: Graph, seeds: seq<Node>, newest: Timestamp, n: Node)
    requires WellFormed(g) && forall s <- seeds :: s in g.nodes && g.nodes[s].ts.AtMost(newest)
    requires forall m :: InSlice(g, seeds, m) && m in g.nodes ==> !g.nodes[m].isOverride
    requires InSlice(g, seeds, n)
    ensures n in g.nodes && g.nodes[n].ts.AtMost(newest)
  {
    var s :| s in seeds && Reaches(g, s, n);
    var p :| Path(g, p, s, n);
    PathGetsOlder(g, seeds, s, p, n);
  }

  lemma {:induction false} PathGetsOlder(g: Graph, seeds: seq<Node>, s: Node, p: seq<Node>, n: Node)
    requires WellFormed(g) && s in seeds && s in g.nodes && Path(g, p, s, n)
    requires forall m :: InSlice(g, seeds, m) && m in g.nodes ==> !g.nodes[m].isOverride
    ensures n in g.nodes && g.nodes[n].ts.AtMost(g.nodes[s].ts)
    decreases |p|
  {
    if |p| > 1 {
      var init, m := p[..|p| - 1], p[|p| - 2];
      assert Path(g, init, s, m);
      PathGetsOlder(g, seeds, s, init, m);
      assert Edge(g, m, n);
      var q :| q in ParentIds(g, m) && Walk(g, g.current[q], g.nodes[m].ts) == Some(n);
      WalkIsOldEnough(g, g.current[q], g.nodes[m].ts);
      assert InSlice(g, seeds, n) by { assert Reaches(g, s, n); }
    }
  }

  /** The slice is the least set that holds the seeds and is closed under edges. */
  lemma {:induction false} SliceIsLeast(g: Graph, seeds: seq<Node>, other: set<Node>, n: Node)
    requires WellFormed(g) && (forall s <- seeds :: s in other)
    requires forall a, b :: a in other && Edge(g, a, b) ==> b in other
    requires InSlice(g, seeds, n)
    ensures n in other
  {
    var s :| s in seeds && Reaches(g, s, n);
    var p :| Path(g, p, s, n);
    StaysInside(g, other, p, s, n);
  }

  lemma {:induction false} StaysInside(g: Graph, other: set<Node>, p: seq<Node>, a: Node, b: Node)
    requires WellFormed(g) && Path(g, p, a, b) && a in other
    requires forall x, y :: x in other && Edge(g, x, y) ==> y in other
    ensures b in other
    decreases |p|
  {
    if |p| > 1 {
      assert Edge(g, p[0], p[1]);
      StaysInside(g, other, p[1..], p[1], b);
    }
  }
}
