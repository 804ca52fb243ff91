/**
 * Dynamic slicing reconstructs values: a session records, statement by statement, who read what
 * from whom; replaying only the backward slice of a statement gives what it wrote the same values.
 */
module Replay {
  import opened Wrappers
  import opened Timestamps
  import opened Slicing

  type Sym = string
  type Value = int
  type Store = map<Sym, Value>

  /** A statement as the tracer sees it: it reads some symbols, then assigns some. */
  datatype Step = Step(uses: set<Sym>, writes: set<Sym>, run: Store -> Store)

  ghost predicate WellFormedStep(s: Step) { forall env :: s.run(env).Keys == s.writes }

  function Restrict(m: Store, keys: set<Sym>): Store { m - (m.Keys - keys) }

  function Execute(s: Step, store: Store): Store { store + s.run(Restrict(store, s.uses)) }

  //////////////////// Full sessions and replays ////////////////////

  /** The namespace after the first `k` statements. */
  function Full(h: seq<Step>, init: Store, k: nat): Store
    requires k <= |h|
  {
    if k == 0 then init else Execute(h[k - 1], Full(h, init, k - 1))
  }

  /** The same, running only the statements in `slice`. */
  function ReplayOf(h: seq<Step>, init: Store, slice: set<nat>, k: nat): Store
    requires k <= |h|
  {
    if k == 0 then init
    else if k - 1 in slice then Execute(h[k - 1], ReplayOf(h, init, slice, k - 1))
    else ReplayOf(h, init, slice, k - 1)
  }

  /** The last of the first `k` statements that assigned `x`. */
  function LastWriter(h: seq<Step>, k: nat, x: Sym): (r: Option<nat>)
    requires k <= |h|
    ensures r.Some? ==> r.value < k && x in h[r.value].writes
                        && forall j :: r.value < j < k ==> x !in h[j].writes
    ensures r.None? ==> forall j :: 0 <= j < k ==> x !in h[j].writes
  {
    if k == 0 then None else if x in h[k - 1].writes then Some(k - 1) else LastWriter(h, k - 1, x)
  }

  ghost predicate SliceClosed(h: seq<Step>, slice: set<nat>) {
    forall k <- slice :: k < |h| &&
      forall x <- h[k].uses :: LastWriter(h, k, x).Some? ==> LastWriter(h, k, x).value in slice
  }

  ghost predicate SameAt(a: Store, b: Store, x: Sym) { (x in a <==> x in b) && (x in a ==> a[x] == b[x]) }

  lemma {:induction false} RestrictSame(a: Store, b: Store, keys: set<Sym>)
    requires forall x <- keys :: SameAt(a, b, x)
    ensures Restrict(a, keys) == Restrict(b, keys)
  {
    forall x | x in Restrict(a, keys) || x in Restrict(b, keys)
      ensures x in Restrict(a, keys) && x in Restrict(b, keys) && Restrict(a, keys)[x] == Restrict(b, keys)[x]
    {
      assert x in keys && SameAt(a, b, x);
    }
  }

  /** A symbol whose last writer so far is in the slice, or that has none, replays faithfully. */
  lemma {:induction false} ReplayAgrees(h: seq<Step>, init: Store, slice: set<nat>, k: nat, x: Sym)
    requires (forall s <- h :: WellFormedStep(s)) && SliceClosed(h, slice) && k <= |h|
    requires LastWriter(h, k, x).Some? ==> LastWriter(h, k, x).value in slice
    ensures SameAt(Full(h, init, k), ReplayOf(h, init, slice, k), x)
    decreases k
  {
    if k > 0 {
      var s, full, replay := h[k - 1], Full(h, init, k - 1), ReplayOf(h, init, slice, k - 1);
      assert WellFormedStep(s);
      if x in s.writes {
        forall y | y in s.uses ensures SameAt(full, replay, y) {
          ReplayAgrees(h, init, slice, k - 1, y);
        }
        RestrictSame(full, replay, s.uses);
        assert x in s.run(Restrict(full, s.uses));
      } else {
        ReplayAgrees(h, init, slice, k - 1, x);
        assert x !in s.run(Restrict(full, s.uses)) && x !in s.run(Restrict(replay, s.uses));
      }
    }
  }

  //////////////////// The recorded log ////////////////////

  type Edges = map<nat, set<Sym>>

  function Get(m: Edges, k: nat): set<Sym> { if k in m then m[k] else {} }

  function With(m: Edges, k: nat, sym: Sym): Edges { m[k := Get(m, k) + {sym}] }

  function GetTs(m: map<Sym, set<Timestamp>>, x: Sym): set<Timestamp> { if x in m then m[x] else {} }

  /** Timestamps increase from statement to statement, and `byTs` inverts them. */
  ghost predicate Stamped(stamps: seq<Timestamp>, byTs: map<Timestamp, nat>) {
    && (forall i :: 0 <= i < |stamps| ==> stamps[i].Initialized())
    && (forall i, j :: 0 <= i < j < |stamps| ==> stamps[i].Less(stamps[j]))
    && (forall i :: 0 <= i < |stamps| ==> stamps[i] in byTs && byTs[stamps[i]] == i)
    && (forall t <- byTs :: byTs[t] < |stamps| && stamps[byTs[t]] == t)
  }

  lemma {:induction false} StampedAppend(stamps: seq<Timestamp>, byTs: map<Timestamp, nat>, ts: Timestamp)
    requires Stamped(stamps, byTs) && ts.Initialized() && forall t <- stamps :: t.Less(ts)
    ensures Stamped(stamps + [ts], byTs[ts := |stamps|])
  {
    var stamps', byTs' := stamps + [ts], byTs[ts := |stamps|];
    forall i | 0 <= i < |stamps'| ensures stamps'[i] in byTs' && byTs'[stamps'[i]] == i {
      if i < |stamps| { assert stamps[i] in stamps; }
    }
  }

  /** A symbol's update times are those of the statements of `h` that assigned it, besides the
      uninitialized time of a symbol that was there before. */
  ghost predicate UpdatesRecorded(h: seq<Step>, stamps: seq<Timestamp>, byTs: map<Timestamp, nat>,
                                  updated: map<Sym, set<Timestamp>>)
  {
    && |h| <= |stamps|
    && (forall j, x :: 0 <= j < |h| && x in h[j].writes ==> stamps[j] in GetTs(updated, x))
    && (forall x, t :: t in GetTs(updated, x) && t != UNINITIALIZED ==>
          t in byTs && byTs[t] < |h| && stamps[byTs[t]] == t && x in h[byTs[t]].writes)
  }

  lemma {:induction false} UpdatesGrow(h: seq<Step>, stamps: seq<Timestamp>, byTs: map<Timestamp, nat>,
                    updated: map<Sym, set<Timestamp>>, ts: Timestamp)
    requires UpdatesRecorded(h, stamps, byTs, updated) && ts !in stamps
    ensures UpdatesRecorded(h, stamps + [ts], byTs[ts := |stamps|], updated)
  {
  }

  lemma {:induction false} UpdatesAppend(h: seq<Step>, step: Step, stamps: seq<Timestamp>, byTs: map<Timestamp, nat>,
                      updated: map<Sym, set<Timestamp>>, updated': map<Sym, set<Timestamp>>)
    requires Stamped(stamps, byTs) && UpdatesRecorded(h, stamps, byTs, updated) && |stamps| == |h| + 1
    requires forall x :: GetTs(updated', x)
                           == GetTs(updated, x) + if x in step.writes then {stamps[|h|]} else {}
    ensures UpdatesRecorded(h + [step], stamps, byTs, updated')
  {
  }

  lemma {:induction false} NewestIsLastWriter(h: seq<Step>, stamps: seq<Timestamp>, byTs: map<Timestamp, nat>,
                           updated: map<Sym, set<Timestamp>>, x: Sym, t: Timestamp)
    requires Stamped(stamps, byTs) && UpdatesRecorded(h, stamps, byTs, updated)
    requires t in GetTs(updated, x) && t.Initialized()
    requires forall u <- GetTs(updated, x) :: u == UNINITIALIZED || u.AtMost(t)
    ensures t in byTs && byTs[t] < |h| && LastWriter(h, |h|, x) == Some(byTs[t])
  {
    var i := byTs[t];
    assert x in h[i].writes;
    assert stamps[LastWriter(h, |h|, x).value] in GetTs(updated, x);
  }

  lemma {:induction false} UpdateTimes(h: seq<Step>, stamps: seq<Timestamp>, byTs: map<Timestamp, nat>,
                                       updated: map<Sym, set<Timestamp>>, x: Sym)
    requires Stamped(stamps, byTs) && UpdatesRecorded(h, stamps, byTs, updated)
    ensures forall t <- GetTs(updated, x) :: t.Initialized() || t == UNINITIALIZED
    ensures forall t <- GetTs(updated, x) :: t.Initialized() ==> t in byTs && byTs[t] < |h|
    ensures (forall t <- GetTs(updated, x) :: t == UNINITIALIZED) ==> LastWriter(h, |h|, x).None?
  {
    forall t <- GetTs(updated, x) ensures t.Initialized() || t == UNINITIALIZED {
      assert t != UNINITIALIZED ==> stamps[byTs[t]] == t;
    }
    forall j | 0 <= j < |h| && x in h[j].writes ensures exists t <- GetTs(updated, x) :: t != UNINITIALIZED {
      assert stamps[j] in GetTs(updated, x) && stamps[j].Initialized();
    }
  }

  /** The edges of statement `i` lead, for each symbol of `read`, to its last writer before `i`. */
  ghost predicate EdgesOf(h: seq<Step>, edges: Edges, i: nat, read: set<Sym>) {
    && i <= |h|
    && (forall j: nat, x :: x in Get(edges, j) <==> x in read && LastWriter(h, i, x) == Some(j))
  }

  ghost predicate EdgesRecorded(h: seq<Step>, parents: seq<Edges>) {
    |h| <= |parents| && forall i :: 0 <= i < |h| ==> EdgesOf(h, parents[i], i, h[i].uses)
  }

  lemma {:induction false} EdgesAppend(h: seq<Step>, step: Step, parents: seq<Edges>)
    requires EdgesRecorded(h, parents) && |parents| == |h| + 1 && EdgesOf(h, parents[|h|], |h|, step.uses)
    ensures EdgesRecorded(h + [step], parents)
  {
    var h' := h + [step];
    forall i | 0 <= i < |h'| ensures EdgesOf(h', parents[i], i, h'[i].uses) {
      forall x ensures LastWriter(h', i, x) == LastWriter(h, i, x) { LastWriterPrefix(h, step, i, x); }
      assert EdgesOf(h, parents[i], i, h'[i].uses);
    }
  }

  /** Children are the parents reversed; a parent is always an earlier statement. */
  ghost predicate Mirrored(parents: seq<Edges>, children: seq<Edges>) {
    && |parents| == |children|
    && (forall i, j :: 0 <= i < |parents| && j in parents[i] ==> j < i && parents[i][j] != {})
    && (forall i, j :: 0 <= j < |children| && i in children[j] ==> j < i < |parents|)
    && (forall i, j :: 0 <= i < |parents| && 0 <= j < |children| ==> Get(children[j], i) == Get(parents[i], j))
  }

  lemma {:induction false} MirrorAdd(parents: seq<Edges>, children: seq<Edges>, self: nat, pid: nat, sym: Sym)
    requires Mirrored(parents, children) && pid < self < |parents|
    ensures Mirrored(parents[self := With(parents[self], pid, sym)],
                     children[pid := With(children[pid], self, sym)])
  {
  }

  lemma {:induction false} EdgesWith(h: seq<Step>, edges: Edges, i: nat, pid: nat, sym: Sym, read: set<Sym>)
    requires EdgesOf(h, edges, i, read) && LastWriter(h, i, sym) == Some(pid)
    ensures EdgesOf(h, With(edges, pid, sym), i, read + {sym})
  {
    forall j: nat, x
      ensures x in Get(With(edges, pid, sym), j) <==> x in read + {sym} && LastWriter(h, i, x) == Some(j)
    {
      assert x in Get(edges, j) <==> x in read && LastWriter(h, i, x) == Some(j);
    }
  }

  ghost predicate Recorded(h: seq<Step>, stamps: seq<Timestamp>, byTs: map<Timestamp, nat>,
                           updated: map<Sym, set<Timestamp>>, parents: seq<Edges>, children: seq<Edges>)
  {
    && |stamps| == |parents| && Stamped(stamps, byTs) && UpdatesRecorded(h, stamps, byTs, updated)
    && EdgesRecorded(h, parents) && Mirrored(parents, children)
  }

  /** The last statement has begun and used `read` so far; it has no children. */
  ghost predicate Running(h: seq<Step>, stamps: seq<Timestamp>, byTs: map<Timestamp, nat>,
                          updated: map<Sym, set<Timestamp>>, parents: seq<Edges>, children: seq<Edges>, read: set<Sym>)
  {
    && Recorded(h, stamps, byTs, updated, parents, children) && |h| + 1 == |stamps|
    && EdgesOf(h, parents[|h|], |h|, read) && children[|h|] == map[]
  }

  lemma {:induction false} Registered(h: seq<Step>, stamps: seq<Timestamp>, byTs: map<Timestamp, nat>,
                                      updated: map<Sym, set<Timestamp>>, parents: seq<Edges>, children: seq<Edges>,
                                      ts: Timestamp)
    requires Recorded(h, stamps, byTs, updated, parents, children) && |h| == |stamps|
    requires ts.Initialized() && forall t <- stamps :: t.Less(ts)
    ensures Running(h, stamps + [ts], byTs[ts := |stamps|], updated, parents + [map[]], children + [map[]], {})
  {
    StampedAppend(stamps, byTs, ts);
    UpdatesGrow(h, stamps, byTs, updated, ts);
  }

  lemma {:induction false} EdgeAdded(h: seq<Step>, stamps: seq<Timestamp>, byTs: map<Timestamp, nat>,
                                     updated: map<Sym, set<Timestamp>>, parents: seq<Edges>, children: seq<Edges>,
                                     pid: nat, sym: Sym, read: set<Sym>)
    requires Running(h, stamps, byTs, updated, parents, children, read)
    requires LastWriter(h, |h|, sym) == Some(pid)
    ensures Running(h, stamps, byTs, updated, parents[|h| := With(parents[|h|], pid, sym)],
                    children[pid := With(children[pid], |h|, sym)], read + {sym})
  {
    MirrorAdd(parents, children, |h|, pid, sym);
    EdgesWith(h, parents[|h|], |h|, pid, sym, read);
  }

  lemma {:induction false} Committed(h: seq<Step>, stamps: seq<Timestamp>, byTs: map<Timestamp, nat>,
                                     updated: map<Sym, set<Timestamp>>, updated': map<Sym, set<Timestamp>>,
                                     parents: seq<Edges>, children: seq<Edges>, step: Step)
    requires Running(h, stamps, byTs, updated, parents, children, step.uses)
    requires forall x :: GetTs(updated', x)
                           == GetTs(updated, x) + if x in step.writes then {stamps[|h|]} else {}
    ensures Recorded(h + [step], stamps, byTs, updated', parents, children)
  {
    hide Stamped, UpdatesRecorded, EdgesRecorded, Mirrored;
    UpdatesAppend(h, step, stamps, byTs, updated, updated');
    EdgesAppend(h, step, parents);
  }

  //////////////////// The slice of a recorded session ////////////////////

  /** Statements as slicing nodes: each runs once, so each is the only version of its id. */
  function GraphOf(stamps: seq<Timestamp>, parents: seq<Edges>, k: nat): (g: Graph)
    requires k <= |stamps| == |parents|
    ensures forall n: nat :: n in g.nodes <==> n < k
    ensures forall n: nat :: n < k ==> g.nodes[n] == Version(n, stamps[n], None, false, parents[n].Keys, {})
    ensures g.current.Keys == g.nodes.Keys && (forall n <- g.current :: g.current[n] == n) && g.contexts == [Dynamic]
  {
    if k == 0 then Graph(map[], map[], [Dynamic])
    else
      var (g, n: nat) := (GraphOf(stamps, parents, k - 1), k - 1);
      Graph(g.nodes[n := Version(n, stamps[n], None, false, parents[n].Keys, {})], g.current[n := n], [Dynamic])
  }

  lemma {:induction false} GraphWellFormed(stamps: seq<Timestamp>, parents: seq<Edges>)
    requires |stamps| == |parents| && forall i :: 0 <= i < |stamps| ==> stamps[i].Initialized()
    requires forall i, j :: 0 <= i < |parents| && j in parents[i] ==> j < i
    ensures WellFormed(GraphOf(stamps, parents, |stamps|))
  {
    var g := GraphOf(stamps, parents, |stamps|);
    forall n, ctx | n in g.nodes ensures ParentsIn(g.nodes[n], ctx) <= g.current.Keys {
      assert n < |parents|;
    }
  }

  /** The slicer's edges are the recorded ones, and its version walk never runs off a chain. */
  ghost predicate FaithfulGraph(g: Graph, parents: seq<Edges>) {
    && WellFormed(g) && (forall n: nat :: n in g.nodes <==> n < |parents|)
    && (forall a: nat, b: nat :: Edge(g, a, b) <==> a < |parents| && b in parents[a])
    && (forall a: nat :: !Dangling(g, a))
  }

  lemma {:induction false} GraphIsFaithful(h: seq<Step>, stamps: seq<Timestamp>, byTs: map<Timestamp, nat>,
                                           updated: map<Sym, set<Timestamp>>, parents: seq<Edges>,
                                           children: seq<Edges>)
    requires Recorded(h, stamps, byTs, updated, parents, children)
    ensures FaithfulGraph(GraphOf(stamps, parents, |stamps|), parents)
  {
    hide GraphOf;
    var g := GraphOf(stamps, parents, |stamps|);
    GraphWellFormed(stamps, parents);
    forall a: nat, b: nat ensures Edge(g, a, b) <==> a < |parents| && b in parents[a] {
      EdgeIsRecorded(stamps, byTs, parents, children, a, b);
    }
    forall a: nat ensures !Dangling(g, a) {
      NeverDangling(stamps, byTs, parents, children, a);
    }
  }

  lemma {:induction false} ParentIsOlder(stamps: seq<Timestamp>, byTs: map<Timestamp, nat>, parents: seq<Edges>,
                                         children: seq<Edges>, a: nat, p: nat)
    requires Stamped(stamps, byTs) && Mirrored(parents, children) && |stamps| == |parents|
    requires WellFormed(GraphOf(stamps, parents, |stamps|))
    requires a < |parents| && p in ParentIds(GraphOf(stamps, parents, |stamps|), a)
    ensures var g := GraphOf(stamps, parents, |stamps|);
            p in parents[a] && p in g.current && Walk(g, g.current[p], g.nodes[a].ts) == Some(p)
  {
    assert p in parents[a];
    assert stamps[p].Less(stamps[a]);
  }

  lemma {:induction false} EdgeIsRecorded(stamps: seq<Timestamp>, byTs: map<Timestamp, nat>, parents: seq<Edges>,
                                          children: seq<Edges>, a: nat, b: nat)
    requires Stamped(stamps, byTs) && Mirrored(parents, children) && |stamps| == |parents|
    requires WellFormed(GraphOf(stamps, parents, |stamps|))
    ensures Edge(GraphOf(stamps, parents, |stamps|), a, b) <==> a < |parents| && b in parents[a]
  {
    hide GraphOf, Stamped, Mirrored, Walk;
    var g := GraphOf(stamps, parents, |stamps|);
    if a < |parents| {
      forall p | p in ParentIds(g, a) ensures p in parents[a] && Walk(g, g.current[p], g.nodes[a].ts) == Some(p) {
        ParentIsOlder(stamps, byTs, parents, children, a, p);
      }
      if b in parents[a] {
        assert Dynamic in g.contexts && b in ParentsIn(g.nodes[a], Dynamic);
        assert b in ParentIds(g, a);
      }
    }
  }

  lemma {:induction false} NeverDangling(stamps: seq<Timestamp>, byTs: map<Timestamp, nat>, parents: seq<Edges>,
                                         children: seq<Edges>, a: nat)
    requires Stamped(stamps, byTs) && Mirrored(parents, children) && |stamps| == |parents|
    requires WellFormed(GraphOf(stamps, parents, |stamps|))
    ensures !Dangling(GraphOf(stamps, parents, |stamps|), a)
  {
    hide GraphOf, Stamped, Mirrored, Walk;
    var g := GraphOf(stamps, parents, |stamps|);
    if a < |parents| {
      forall p | p in ParentIds(g, a) ensures Walk(g, g.current[p], g.nodes[a].ts).Some? {
        ParentIsOlder(stamps, byTs, parents, children, a, p);
      }
    }
  }

  lemma {:induction false} ReachesThen(g: Graph, a: Node, b: Node, c: Node)
    requires WellFormed(g) && Reaches(g, a, b) && Edge(g, b, c)
    ensures Reaches(g, a, c)
  {
    var p :| Path(g, p, a, b);
    assert Path(g, p + [c], a, c);
  }

  lemma {:induction false} SliceIsSliceClosed(h: seq<Step>, g: Graph, parents: seq<Edges>, t: nat, slice: set<nat>)
    requires EdgesRecorded(h, parents) && |h| == |parents| && t < |h| && FaithfulGraph(g, parents)
    requires forall n :: n in slice <==> InSlice(g, [t], n)
    ensures SliceClosed(h, slice)
  {
    forall k | k in slice
      ensures k < |h| && forall x <- h[k].uses :: LastWriter(h, k, x).Some? ==> LastWriter(h, k, x).value in slice
    {
      SliceIsLeast(g, [t], g.nodes.Keys, k);
      forall x | x in h[k].uses && LastWriter(h, k, x).Some? ensures LastWriter(h, k, x).value in slice {
        var j := LastWriter(h, k, x).value;
        assert EdgesOf(h, parents[k], k, h[k].uses) && x in Get(parents[k], j);
        ReachesThen(g, t, k, j);
      }
    }
  }

  ghost predicate Below(slice: seq<nat>, k: nat) { forall i :: 0 <= i < |slice| ==> slice[i] < k }

  ghost predicate Increasing(slice: seq<nat>) { forall i, j :: 0 <= i < j < |slice| ==> slice[i] < slice[j] }

  /** Running the statements listed in `slice`, one after another. */
  ghost function RunSteps(h: seq<Step>, init: Store, slice: seq<nat>): Store
    requires Below(slice, |h|)
  {
    if slice == [] then init
    else Execute(h[slice[|slice| - 1]], RunSteps(h, init, slice[..|slice| - 1]))
  }

  lemma {:induction false} DropLast(slice: seq<nat>, k: nat)
    requires Increasing(slice) && Below(slice, k) && k > 0 && k - 1 in slice
    ensures var rest := slice[..|slice| - 1];
            Below(rest, k - 1) && Increasing(rest) && slice[|slice| - 1] == k - 1
            && forall n :: n in slice <==> n in rest || n == k - 1
  {
    var i :| 0 <= i < |slice| && slice[i] == k - 1;
    var last := |slice| - 1;
    assert slice[i] <= slice[last] < k;
    var rest := slice[..last];
    forall j | 0 <= j < |rest| ensures rest[j] < k - 1 { assert slice[j] < slice[last]; }
    assert slice == rest + [k - 1];
  }

  lemma {:induction false} RunStepsIsReplay(h: seq<Step>, init: Store, slice: seq<nat>, members: set<nat>, k: nat)
    requires k <= |h| && Below(slice, k) && Increasing(slice)
    requires forall n: nat :: n < k ==> (n in members <==> n in slice)
    ensures RunSteps(h, init, slice) == ReplayOf(h, init, members, k)
    decreases k
  {
    if k == 0 {
    } else if k - 1 in members {
      hide Execute;
      var rest := slice[..|slice| - 1];
      DropLast(slice, k);
      RunStepsIsReplay(h, init, rest, members, k - 1);
    } else {
      RunStepsIsReplay(h, init, slice, members, k - 1);
    }
  }

  /** What a session with the slicer's `g` guarantees about the slice of `t`. */
  ghost predicate IsSliceOf(g: Graph, t: nat, slice: seq<nat>)
    requires WellFormed(g)
  {
    OldestFirst(g, slice) && forall n :: n in slice <==> InSlice(g, [t], n)
  }

  /**
   * Slice replay: running only the statements of the backward slice of `t`, oldest first, gives
   * every symbol that `t` wrote the value it had in the full session.
   */
  lemma {:induction false} SliceReplays(h: seq<Step>, init: Store, stamps: seq<Timestamp>, byTs: map<Timestamp, nat>,
                                        updated: map<Sym, set<Timestamp>>, parents: seq<Edges>,
                                        children: seq<Edges>, t: nat, slice: seq<nat>, x: Sym)
    requires Recorded(h, stamps, byTs, updated, parents, children) && |h| == |stamps| == |parents|
    requires (forall s <- h :: WellFormedStep(s)) && t < |h| && x in h[t].writes
    requires WellFormed(GraphOf(stamps, parents, |stamps|))
    requires IsSliceOf(GraphOf(stamps, parents, |stamps|), t, slice)
    ensures Below(slice, t + 1)
    ensures x in Full(h, init, t + 1) && SameAt(Full(h, init, t + 1), RunSteps(h, init, slice), x)
  {
    GraphIsFaithful(h, stamps, byTs, updated, parents, children);
    SliceIsUpTo(stamps, byTs, parents, t, slice);
    SliceValue(h, init, GraphOf(stamps, parents, |stamps|), parents, t, slice, x);
  }

  lemma {:induction false} SliceValue(h: seq<Step>, init: Store, g: Graph, parents: seq<Edges>, t: nat,
                                      slice: seq<nat>, x: Sym)
    requires EdgesRecorded(h, parents) && |h| == |parents| && WellFormed(g) && FaithfulGraph(g, parents)
    requires (forall s <- h :: WellFormedStep(s)) && t < |h| && x in h[t].writes
    requires IsSliceOf(g, t, slice) && Below(slice, t + 1) && Increasing(slice)
    ensures x in Full(h, init, t + 1) && SameAt(Full(h, init, t + 1), RunSteps(h, init, slice), x)
  {
    hide WellFormed, FaithfulGraph, EdgesRecorded, OldestFirst, InSlice, SliceClosed, Full, ReplayOf, RunSteps, SameAt;
    var members := set n | n in slice;
    SeedInSlice(g, t);
    SliceIsSliceClosed(h, g, parents, t, members);
    LastWriterNow(h, init, t, x);
    ReplayAgrees(h, init, members, t + 1, x);
    RunStepsIsReplay(h, init, slice, members, t + 1);
  }

  lemma {:induction false} SeedInSlice(g: Graph, t: nat)
    requires WellFormed(g)
    ensures InSlice(g, [t], t)
  {
    ReachesSelf(g, t);
    assert [t][0] == t;
  }

  lemma {:induction false} LastWriterNow(h: seq<Step>, init: Store, t: nat, x: Sym)
    requires t < |h| && WellFormedStep(h[t]) && x in h[t].writes
    ensures LastWriter(h, t + 1, x) == Some(t) && x in Full(h, init, t + 1)
  {
    assert x in h[t].run(Restrict(Full(h, init, t), h[t].uses));
  }

  lemma {:induction false} SliceIsUpTo(stamps: seq<Timestamp>, byTs: map<Timestamp, nat>, parents: seq<Edges>,
                                       t: nat, slice: seq<nat>)
    requires Stamped(stamps, byTs) && t < |stamps| == |parents|
    requires WellFormed(GraphOf(stamps, parents, |stamps|)) && IsSliceOf(GraphOf(stamps, parents, |stamps|), t, slice)
    ensures Below(slice, t + 1) && Increasing(slice)
  {
    hide GraphOf, InSlice;
    var g := GraphOf(stamps, parents, |stamps|);
    forall i | 0 <= i < |slice| ensures slice[i] < t + 1 {
      SliceIsNotNewer(g, [t], stamps[t], slice[i]);
    }
  }

  //////////////////// The recording session ////////////////////

  class Session {
    const init: Store
    ghost var h: seq<Step>                       // the statements run so far
    var stamps: seq<Timestamp>                   // their timestamps
    var byTs: map<Timestamp, nat>
    var updated: map<Sym, set<Timestamp>>        // updated_timestamps by symbol
    var parents: seq<Edges>                      // raw_dynamic_parents by statement
    var children: seq<Edges>                     // raw_dynamic_children by statement
    var store: Store

    ghost predicate Valid()
      reads this
    {
      && |h| == |stamps| && (forall s <- h :: WellFormedStep(s))
      && Recorded(h, stamps, byTs, updated, parents, children)
      && store == Full(h, init, |h|)
    }

    constructor (namespace: Store)
      ensures Valid() && h == [] && init == namespace
    {
      init, h, stamps, byTs, updated, parents, children, store :=
        namespace, [], [], map[], map[], [], [], namespace;
    }

    /** The statement form of `add_parent_edge`; each statement runs once, so it has no version to inherit from. */
    method AddParentEdge(self: nat, pid: nat, sym: Sym)
      requires self < |parents| == |children| && pid < |children|
      modifies this`parents, this`children
      ensures pid in old(children[self]) || pid == self ==> parents == old(parents) && children == old(children)
      ensures pid !in old(children[self]) && pid != self ==>
                && parents == old(parents)[self := With(old(parents)[self], pid, sym)]
                && children == old(children)[pid := With(old(children)[pid], self, sym)]
    {
      if pid in children[self] { return; }
      if pid == self { return; }
      parents := parents[self := With(parents[self], pid, sym)];
      children := children[pid := With(children[pid], self, sym)];
    }

    /** A use of `x` by the running statement: an edge to the newest initialized update of `x`. */
    method UpdateUsageInfo(x: Sym, ghost read: set<Sym>)
      requires Running(h, stamps, byTs, updated, parents, children, read)
      modifies this`parents, this`children
      ensures Running(h, stamps, byTs, updated, parents, children, read + {x})
    {
      var self := |stamps| - 1;
      var usedTime := stamps[self];
      UpdateTimes(h, stamps, byTs, updated, x);
      var rest := GetTs(updated, x);
      while rest != {}
        invariant rest <= GetTs(updated, x) && unchanged(`parents) && unchanged(`children)
        invariant forall t <- GetTs(updated, x) :: t in rest || t == UNINITIALIZED
        decreases rest
      {
        var t := Newest(rest);
        rest := rest - {t};
        if !t.Initialized() { continue; }
        Dependency(x, t, read);
        if t.Less(usedTime) { AddParentEdge(self, byTs[t], x); }
        return;
      }
      NothingRead(x, read);
    }

    lemma {:induction false} Dependency(x: Sym, t: Timestamp, read: set<Sym>)
      requires Running(h, stamps, byTs, updated, parents, children, read)
      requires t in GetTs(updated, x) && t.Initialized()
      requires forall u <- GetTs(updated, x) :: u == UNINITIALIZED || u.AtMost(t)
      ensures t in byTs && t.Less(stamps[|h|]) && byTs[t] < |h| && byTs[t] !in children[|h|]
      ensures Running(h, stamps, byTs, updated, parents[|h| := With(parents[|h|], byTs[t], x)],
                      children[byTs[t] := With(children[byTs[t]], |h|, x)], read + {x})
    {
      NewestIsLastWriter(h, stamps, byTs, updated, x, t);
      EdgeAdded(h, stamps, byTs, updated, parents, children, byTs[t], x, read);
    }

    lemma {:induction false} NothingRead(x: Sym, read: set<Sym>)
      requires Running(h, stamps, byTs, updated, parents, children, read)
      requires forall t <- GetTs(updated, x) :: t == UNINITIALIZED
      ensures Running(h, stamps, byTs, updated, parents, children, read + {x})
    {
      UpdateTimes(h, stamps, byTs, updated, x);
    }

    method Newest(ts: set<Timestamp>) returns (t: Timestamp)
      requires ts != {}
      ensures t in ts && forall u <- ts :: u.AtMost(t)
    {
      t :| t in ts;
      var rest := ts - {t};
      while rest != {}
        invariant t in ts && rest <= ts && forall u <- ts :: u in rest || u.AtMost(t)
        decreases rest
      {
        var u :| u in rest;
        rest := rest - {u};
        if t.Less(u) { t := u; }
      }
    }

    /** One module statement: register it, use what it reads, run it, refresh what it wrote. */
    method ExecuteStatement(ts: Timestamp, step: Step)
      requires Valid() && WellFormedStep(step) && ts.Initialized() && forall t <- stamps :: t.Less(ts)
      modifies this
      ensures Valid() && h == old(h) + [step] && stamps == old(stamps) + [ts]
    {
      hide Recorded, Running;
      Register(ts);
      var rest := step.uses;
      assert step.uses - rest == {};
      while rest != {}
        invariant rest <= step.uses && stamps == old(stamps) + [ts] && |stamps| == |old(h)| + 1
        invariant unchanged(`h) && unchanged(`store) && unchanged(`updated)
        invariant Running(h, stamps, byTs, updated, parents, children, step.uses - rest)
        decreases rest
      {
        var x :| x in rest;
        assert step.uses - (rest - {x}) == (step.uses - rest) + {x};
        UpdateUsageInfo(x, step.uses - rest);
        rest := rest - {x};
      }
      assert step.uses - rest == step.uses;
      Finish(ts, step);
    }

    method Register(ts: Timestamp)
      requires Valid() && ts.Initialized() && forall t <- stamps :: t.Less(ts)
      modifies this`byTs, this`stamps, this`parents, this`children
      ensures Running(h, stamps, byTs, updated, parents, children, {}) && stamps == old(stamps) + [ts]
    {
      Registered(h, stamps, byTs, updated, parents, children, ts);
      hide Recorded, Running;
      byTs := byTs[ts := |stamps|];
      stamps := stamps + [ts];
      parents := parents + [map[]];
      children := children + [map[]];
    }

    method Finish(ts: Timestamp, step: Step)
      requires Running(h, stamps, byTs, updated, parents, children, step.uses)
      requires |stamps| == |h| + 1 && ts == stamps[|h|] && store == Full(h, init, |h|)
      requires WellFormedStep(step) && forall s <- h :: WellFormedStep(s)
      modifies this`h, this`store, this`updated
      ensures Valid() && h == old(h) + [step]
    {
      hide Recorded, Running;
      var out := step.run(Restrict(store, step.uses));
      store := store + out;
      ghost var before := updated;
      RefreshAll(out.Keys, ts);
      Committed(h, stamps, byTs, before, updated, parents, children, step);
      FullPrefix(h, step, init, |h|);
      h := h + [step];
    }

    /** The slice of the module statement `t`: run alone, oldest first, it gives what `t` wrote. */
    method MakeSlice(t: nat) returns (slice: seq<nat>)
      requires Valid() && t < |stamps|
      ensures Below(slice, t + 1) && Increasing(slice)
      ensures forall x <- h[t].writes ::
                x in Full(h, init, t + 1) && SameAt(Full(h, init, t + 1), RunSteps(h, init, slice), x)
    {
      GraphIsFaithful(h, stamps, byTs, updated, parents, children);
      slice := SliceOf(t);
      assert Stamped(stamps, byTs) && |stamps| == |parents|;
      hide Recorded, IsSliceOf, Full, RunSteps, SameAt, WellFormedStep, FaithfulGraph, Stamped, GraphOf;
      SliceIsUpTo(stamps, byTs, parents, t, slice);
      forall x | x in h[t].writes
        ensures x in Full(h, init, t + 1) && SameAt(Full(h, init, t + 1), RunSteps(h, init, slice), x)
      {
        SliceReplays(h, init, stamps, byTs, updated, parents, children, t, slice, x);
      }
    }

    method SliceOf(t: nat) returns (slice: seq<nat>)
      requires t < |stamps| == |parents| && FaithfulGraph(GraphOf(stamps, parents, |stamps|), parents)
      ensures IsSliceOf(GraphOf(stamps, parents, |stamps|), t, slice)
    {
      hide GraphOf;
      var builder := new SliceBuilder(GraphOf(stamps, parents, |stamps|));
      var ok;
      slice, ok := builder.MakeMultiSlice([t], false);
    }

    method RefreshAll(written: set<Sym>, ts: Timestamp)
      modifies this`updated
      ensures forall x :: GetTs(updated, x) == GetTs(old(updated), x) + if x in written then {ts} else {}
    {
      var rest := written;
      while rest != {}
        invariant rest <= written
        invariant forall x :: GetTs(updated, x)
                                == GetTs(old(updated), x) + if x in written - rest then {ts} else {}
        decreases rest
      {
        var x :| x in rest;
        rest := rest - {x};
        updated := updated[x := GetTs(updated, x) + {ts}];
      }
    }
  }

  lemma {:induction false} LastWriterPrefix(h: seq<Step>, step: Step, k: nat, x: Sym)
    requires k <= |h|
    ensures LastWriter(h + [step], k, x) == LastWriter(h, k, x)
    decreases k
  {
    if k > 0 { LastWriterPrefix(h, step, k - 1, x); }
  }

  lemma {:induction false} FullPrefix(h: seq<Step>, step: Step, init: Store, k: nat)
    requires k <= |h|
    ensures Full(h + [step], init, k) == Full(h, init, k)
    decreases k
  {
    if k > 0 { FullPrefix(h, step, init, k - 1); }
  }
}
