/**
 * Staleness at a position, told by the data: a symbol is stale there if chains of dependencies, made at
 * or above the position, lead from it to a symbol written since one of them was made.
 */
module StaleChains {
  import opened PositionCache
  import opened BlindPaths

  /** Some dependency of `k`'s symbol, made at or above `k`'s position, on a parent that was since written
      at or above the place where the dependency was made. */
  ghost predicate WrittenSince(g: Graph, k: Key) {
    k.sym in g && exists i, j, u :: NewerWrite(g, k, i, j, u)
  }

  /** The `u`-th update of parent `i` counts for the `j`-th dependency on it. */
  ghost predicate Counts(g: Graph, k: Key, i: nat, j: nat, u: nat) {
    && k.sym in g && i < |g[k.sym].parents|
    && (var par := g[k.sym].parents[i];
        && par.sym in g && j < |par.times| && u < |g[par.sym].updates|
        && par.times[j].position <= k.pos && g[par.sym].updates[u].position <= par.times[j].position)
  }

  ghost predicate NewerWrite(g: Graph, k: Key, i: nat, j: nat, u: nat) {
    Counts(g, k, i, j, u) && g[g[k.sym].parents[i].sym].updates[u].cell > g[k.sym].parents[i].times[j].cell
  }

  /** `k'` asks whether a parent is stale where the dependency on it was made. */
  ghost predicate AsksParent(g: Graph, k: Key, k': Key, i: nat, j: nat, u: nat) {
    && Counts(g, k, i, j, u) && !NewerWrite(g, k, i, j, u)
    && k' == Key(g[k.sym].parents[i].sym, g[k.sym].parents[i].times[j].position, true)
  }

  /** A deep question also asks about the waiting symbols of the namespace, at the same position. */
  ghost predicate AsksMember(g: Graph, k: Key, k': Key) {
    k.sym in g && k.deep && exists i :: 0 <= i < |g[k.sym].nsWaiting| && k' == Key(g[k.sym].nsWaiting[i], k.pos, true)
  }

  ghost predicate Links(g: Graph, k: Key, k': Key) {
    AsksMember(g, k, k') || exists i, j, u :: AsksParent(g, k, k', i, j, u)
  }

  /** Whether staleness is in question at all. */
  ghost predicate Flagged(g: Graph, k: Key) {
    k.sym in g && (k.deep ==> g[k.sym].isWaiting) && (!k.deep ==> g[k.sym].isShallowStale)
  }

  //////////////////// The tests are these ////////////////////

  ghost predicate OneTest(t: Test, par: Sym, update: Time, dep: Time) {
    && update.position <= dep.position
    && t == if update.cell > dep.cell then Evidence else Ask(Key(par, dep.position, true))
  }

  lemma {:induction false} UpdateTestsExactly(par: Sym, updates: seq<Time>, dep: Time, i: nat, t: Test)
    requires i <= |updates|
    ensures t in UpdateTests(par, updates, dep, i) <==>
            exists u :: i <= u < |updates| && OneTest(t, par, updates[u], dep)
    decreases |updates| - i
  {
    if i < |updates| { UpdateTestsExactly(par, updates, dep, i + 1, t); }
  }

  ghost predicate TimeTest(g: Graph, par: Parent, pos: int, t: Test, j: nat, u: nat)
    requires par.sym in g
  {
    && j < |par.times| && par.times[j].position <= pos && u < |g[par.sym].updates|
    && OneTest(t, par.sym, g[par.sym].updates[u], par.times[j])
  }

  lemma {:induction false} TimeTestsExactly(g: Graph, par: Parent, pos: int, i: nat, t: Test)
    requires par.sym in g && i <= |par.times|
    ensures t in TimeTests(g, par, pos, i) <==> exists j, u :: i <= j && TimeTest(g, par, pos, t, j, u)
    decreases |par.times| - i
  {
    if i < |par.times| {
      TimeTestsExactly(g, par, pos, i + 1, t);
      UpdateTestsExactly(par.sym, g[par.sym].updates, par.times[i], 0, t);
      hide OneTest, UpdateTests;
      if t in TimeTests(g, par, pos, i) && t !in TimeTests(g, par, pos, i + 1) {
        var u :| 0 <= u < |g[par.sym].updates| && OneTest(t, par.sym, g[par.sym].updates[u], par.times[i]);
        assert TimeTest(g, par, pos, t, i, u);
      }
      if j, u :| i <= j && TimeTest(g, par, pos, t, j, u) {
        if j == i { assert t in UpdateTests(par.sym, g[par.sym].updates, par.times[i], 0); }
      }
    }
  }

  lemma {:induction false} ParentTestsExactly(g: Graph, k: Key, i: nat, t: Test)
    requires WellFormed(g) && k.sym in g && i <= |g[k.sym].parents|
    ensures t in ParentTests(g, k, i) <==>
            exists n, j, u :: i <= n < |g[k.sym].parents| && TimeTest(g, g[k.sym].parents[n], k.pos, t, j, u)
    decreases |g[k.sym].parents| - i
  {
    if i < |g[k.sym].parents| {
      ParentTestsExactly(g, k, i + 1, t);
      TimeTestsExactly(g, g[k.sym].parents[i], k.pos, 0, t);
      hide TimeTest, TimeTests;
      if t in ParentTests(g, k, i) && t !in ParentTests(g, k, i + 1) {
        var j, u :| 0 <= j && TimeTest(g, g[k.sym].parents[i], k.pos, t, j, u);
      }
    }
  }

  lemma {:induction false} NamespaceTestsExactly(g: Graph, k: Key, i: nat, t: Test)
    requires WellFormed(g) && k.sym in g && i <= |g[k.sym].nsWaiting|
    ensures t in NamespaceTests(g, k, i) <==>
            k.deep && exists n :: i <= n < |g[k.sym].nsWaiting| && t == Ask(Key(g[k.sym].nsWaiting[n], k.pos, true))
    decreases |g[k.sym].nsWaiting| - i
  {
    if i < |g[k.sym].nsWaiting| { NamespaceTestsExactly(g, k, i + 1, t); }
  }

  /** There is evidence at once exactly if a parent was written since the dependency on it was made. */
  lemma {:induction false} EvidenceInData(g: Graph, k: Key)
    requires WellFormed(g) && k.sym in g
    ensures Evidence in Tests(g, k) <==> WrittenSince(g, k)
  {
    ParentTestsExactly(g, k, 0, Evidence);
    NamespaceTestsExactly(g, k, 0, Evidence);
    hide ParentTests, NamespaceTests, WellFormed;
    forall n, j, u ensures (0 <= n < |g[k.sym].parents| && 0 <= j && 0 <= u
                            && g[k.sym].parents[n].sym in g && TimeTest(g, g[k.sym].parents[n], k.pos, Evidence, j, u))
                           <==> (0 <= n && 0 <= j && 0 <= u && NewerWrite(g, k, n, j, u))
    {
    }
  }

  /** One question leads to another exactly along a dependency that was made at or above the position,
      or into the namespace. */
  lemma {:induction false} AsksInData(g: Graph, k: Key, k': Key)
    requires WellFormed(g)
    ensures Asks(g, k, k') <==> Links(g, k, k')
  {
    if k.sym in g {
      ParentTestsExactly(g, k, 0, Ask(k'));
      NamespaceTestsExactly(g, k, 0, Ask(k'));
      hide ParentTests, NamespaceTests, WellFormed;
      forall n, j, u ensures (0 <= n < |g[k.sym].parents| && 0 <= j && 0 <= u
                              && g[k.sym].parents[n].sym in g
                              && TimeTest(g, g[k.sym].parents[n], k.pos, Ask(k'), j, u))
                             <==> (0 <= n && 0 <= j && 0 <= u && AsksParent(g, k, k', n, j, u))
      {
      }
    }
  }

  //////////////////// ... in this order ////////////////////

  /** `t` stands somewhere before `t'`. */
  ghost predicate Before(tests: seq<Test>, t: Test, t': Test) {
    exists a, b :: 0 <= a < b < |tests| && tests[a] == t && tests[b] == t'
  }

  lemma {:induction false} BeforeBoth(first: seq<Test>, rest: seq<Test>, t: Test, t': Test)
    ensures t in first && t' in rest ==> Before(first + rest, t, t')
    ensures Before(first, t, t') || Before(rest, t, t') ==> Before(first + rest, t, t')
  {
    var all := first + rest;
    if t in first && t' in rest {
      var a, b :| 0 <= a < |first| && first[a] == t && 0 <= b < |rest| && rest[b] == t';
      assert all[a] == t && all[|first| + b] == t';
    }
    if Before(first, t, t') {
      var a, b :| 0 <= a < b < |first| && first[a] == t && first[b] == t';
      assert all[a] == t && all[b] == t';
    }
    if Before(rest, t, t') {
      var a, b :| 0 <= a < b < |rest| && rest[a] == t && rest[b] == t';
      assert all[|first| + a] == t && all[|first| + b] == t';
    }
  }

  lemma {:induction false} UpdatesInOrder(par: Sym, updates: seq<Time>, dep: Time, i: nat, u: nat, u': nat, t: Test,
                                          t': Test)
    requires i <= u < u' < |updates| && OneTest(t, par, updates[u], dep) && OneTest(t', par, updates[u'], dep)
    ensures Before(UpdateTests(par, updates, dep, i), t, t')
    decreases |updates| - i
  {
    hide Before, OneTest;
    if i == u {
      UpdateTestsExactly(par, updates, dep, i + 1, t');
      assert UpdateTests(par, updates, dep, i) == [t] + UpdateTests(par, updates, dep, i + 1) by { FirstTest(par,
             updates, dep, i, t); }
      BeforeBoth([t], UpdateTests(par, updates, dep, i + 1), t, t');
    } else {
      UpdatesInOrder(par, updates, dep, i + 1, u, u', t, t');
      if updates[i].position <= dep.position {
        var first := if updates[i].cell > dep.cell then Evidence else Ask(Key(par, dep.position, true));
        BeforeBoth([first], UpdateTests(par, updates, dep, i + 1), t, t');
      }
    }
  }

  lemma {:induction false} FirstTest(par: Sym, updates: seq<Time>, dep: Time, i: nat, t: Test)
    requires i < |updates| && OneTest(t, par, updates[i], dep)
    ensures UpdateTests(par, updates, dep, i) == [t] + UpdateTests(par, updates, dep, i + 1)
  {
  }

  lemma {:induction false} TimesInOrder(g: Graph, par: Parent, pos: int, i: nat, j: nat, u: nat, j': nat, u': nat,
                                        t: Test, t': Test)
    requires par.sym in g && i <= j && TimeTest(g, par, pos, t, j, u) && TimeTest(g, par, pos, t', j', u')
    requires j < j' || (j == j' && u < u')
    ensures Before(TimeTests(g, par, pos, i), t, t')
    decreases |par.times| - i
  {
    hide Before, OneTest, UpdateTests;
    var updates, dep := g[par.sym].updates, par.times[i];
    var first := if dep.position > pos then [] else UpdateTests(par.sym, updates, dep, 0);
    if i < j {
      TimesInOrder(g, par, pos, i + 1, j, u, j', u', t, t');
    } else if j == j' {
      UpdatesInOrder(par.sym, updates, dep, 0, u, u', t, t');
    } else {
      UpdateTestsExactly(par.sym, updates, dep, 0, t);
      TimeTestsExactly(g, par, pos, i + 1, t');
    }
    BeforeBoth(first, TimeTests(g, par, pos, i + 1), t, t');
  }

  /** Dependencies come in order of parents, times and updates. */
  lemma {:induction false} ParentsInOrder(g: Graph, k: Key, i: nat, n: nat, j: nat, u: nat, n': nat, j': nat, u': nat,
                                          t: Test, t': Test)
    requires WellFormed(g) && k.sym in g && i <= n <= n' < |g[k.sym].parents|
    requires TimeTest(g, g[k.sym].parents[n], k.pos, t, j, u) && TimeTest(g, g[k.sym].parents[n'], k.pos, t', j', u')
    requires n < n' || j < j' || (j == j' && u < u')
    ensures Before(ParentTests(g, k, i), t, t')
    decreases |g[k.sym].parents| - i
  {
    hide Before, TimeTest, TimeTests;
    var par := g[k.sym].parents[i];
    if i < n {
      ParentsInOrder(g, k, i + 1, n, j, u, n', j', u', t, t');
    } else if n == n' {
      TimesInOrder(g, par, k.pos, 0, j, u, j', u', t, t');
    } else {
      TimeTestsExactly(g, par, k.pos, 0, t);
      ParentTestsExactly(g, k, i + 1, t');
    }
    BeforeBoth(TimeTests(g, par, k.pos, 0), ParentTests(g, k, i + 1), t, t');
  }

  lemma {:induction false} NamespaceInOrder(g: Graph, k: Key, i: nat, n: nat, n': nat)
    requires WellFormed(g) && k.sym in g && k.deep && i <= n < n' < |g[k.sym].nsWaiting|
    ensures Before(NamespaceTests(g, k, i), Ask(Key(g[k.sym].nsWaiting[n], k.pos, true)),
                   Ask(Key(g[k.sym].nsWaiting[n'], k.pos, true)))
    decreases |g[k.sym].nsWaiting| - i
  {
    hide Before;
    var members := g[k.sym].nsWaiting;
    var t, t' := Ask(Key(members[n], k.pos, true)), Ask(Key(members[n'], k.pos, true));
    if i < n { NamespaceInOrder(g, k, i + 1, n, n'); } else { NamespaceTestsExactly(g, k, i + 1, t'); }
    BeforeBoth([Ask(Key(members[i], k.pos, true))], NamespaceTests(g, k, i + 1), t, t');
  }

  /** The tests are made in this order, by parents, times of dependencies and updates, and after all of
      them those of namespace members. */
  lemma {:induction false} TestsInOrder(g: Graph, k: Key, n: nat, j: nat, u: nat, n': nat, j': nat, u': nat, m: nat,
                                        t: Test, t': Test)
    requires WellFormed(g) && k.sym in g && n <= n' < |g[k.sym].parents|
    requires TimeTest(g, g[k.sym].parents[n], k.pos, t, j, u) && TimeTest(g, g[k.sym].parents[n'], k.pos, t', j', u')
    ensures n < n' || j < j' || (j == j' && u < u') ==> Before(Tests(g, k), t, t')
    ensures k.deep && m < |g[k.sym].nsWaiting| ==> Before(Tests(g, k), t, Ask(Key(g[k.sym].nsWaiting[m], k.pos, true)))
    ensures forall m' :: k.deep && m < m' < |g[k.sym].nsWaiting| ==>
              Before(Tests(g, k), Ask(Key(g[k.sym].nsWaiting[m], k.pos, true)),
                     Ask(Key(g[k.sym].nsWaiting[m'], k.pos, true)))
  {
    hide Before, TimeTest, ParentTests, NamespaceTests;
    var first, rest := ParentTests(g, k, 0), NamespaceTests(g, k, 0);
    if n < n' || j < j' || (j == j' && u < u') {
      ParentsInOrder(g, k, 0, n, j, u, n', j', u', t, t');
      BeforeBoth(first, rest, t, t');
    }
    if k.deep && m < |g[k.sym].nsWaiting| {
      var member := Ask(Key(g[k.sym].nsWaiting[m], k.pos, true));
      ParentTestsExactly(g, k, 0, t);
      NamespaceTestsExactly(g, k, 0, member);
      BeforeBoth(first, rest, t, member);
      forall m' | m < m' < |g[k.sym].nsWaiting|
        ensures Before(Tests(g, k), member, Ask(Key(g[k.sym].nsWaiting[m'], k.pos, true)))
      {
        NamespaceInOrder(g, k, 0, m, m');
        BeforeBoth(first, rest, member, Ask(Key(g[k.sym].nsWaiting[m'], k.pos, true)));
      }
    }
  }

  //////////////////// Staleness over chains ////////////////////

  /** Flagged questions, each leading to the next along a dependency, the last one with a newer write. */
  ghost predicate StaleChain(g: Graph, p: seq<Key>) {
    && |p| >= 1 && (forall i :: 0 <= i < |p| ==> Flagged(g, p[i]))
    && (forall i :: 0 < i < |p| ==> Links(g, p[i - 1], p[i]))
    && WrittenSince(g, p[|p| - 1])
  }

  ghost predicate StaleAt(g: Graph, k: Key) { exists p :: StaleChain(g, p) && p[0] == k }

  lemma {:induction false} ChainsAreTheSame(g: Graph, p: seq<Key>)
    requires WellFormed(g)
    ensures EvidenceChain(g, p) <==> StaleChain(g, p)
  {
    hide Tests, Links, WrittenSince;
    forall i | 0 <= i < |p| && p[i].sym in g ensures Evidence in Tests(g, p[i]) <==> WrittenSince(g, p[i]) {
      EvidenceInData(g, p[i]);
    }
    forall i | 0 < i < |p| ensures Asks(g, p[i - 1], p[i]) <==> Links(g, p[i - 1], p[i]) {
      AsksInData(g, p[i - 1], p[i]);
    }
    if EvidenceChain(g, p) {
      forall i | 0 < i < |p| ensures Links(g, p[i - 1], p[i]) { assert Asks(g, p[i - 1], p[i - 1 + 1]); }
    }
    if StaleChain(g, p) {
      forall i | 0 <= i < |p| - 1 ensures Asks(g, p[i], p[i + 1]) {
        assert Links(g, p[i + 1 - 1], p[i + 1]);
        AsksInData(g, p[i], p[i + 1]);
      }
    }
  }

  lemma {:induction false} EvidentIsStale(g: Graph, k: Key)
    requires WellFormed(g)
    ensures Evident(g, k) <==> StaleAt(g, k)
  {
    hide Tests, Links, WrittenSince, Asks;
    if p :| EvidenceChain(g, p) && p[0] == k { ChainsAreTheSame(g, p); }
    if p :| StaleChain(g, p) && p[0] == k { ChainsAreTheSame(g, p); }
  }

  /** From an empty cache, on any graph, the answer is whether the symbol is stale at the position. */
  lemma {:induction false} FirstAnswerIsStaleness(g: Graph, all: set<Key>, k: Key)
    requires WellFormed(g) && Universe(g, all) && k in all
    ensures Query(g, all, map[], k).answer <==> StaleAt(g, k)
  {
    hide Evident, StaleAt, Query, WellFormed, Universe;
    FirstAnswerIsExact(g, all, k);
    EvidentIsStale(g, k);
  }

  /** Every series of questions is answered by staleness exactly where there is no blind path. */
  lemma {:induction false} AnswersAreStaleness(g: Graph, all: set<Key>)
    requires WellFormed(g) && Universe(g, all)
    ensures (forall ks, i :: (forall k <- ks :: k in all) && 0 <= i < |ks| ==> RightAt(g, all, ks, i))
            <==> NoBlindPath(g, all)
  {
    hide Evident, StaleAt, NoBlindPath, Universe, WellFormed, Answers;
    TransparentExactly(g, all);
    hide AnsweredRight, RightAt;
    forall ks: seq<Key> | forall k <- ks :: k in all
      ensures AnsweredRight(g, all, ks) <==> forall i :: 0 <= i < |ks| ==> RightAt(g, all, ks, i)
    {
      RightIsRightAt(g, all, ks);
    }
  }

  lemma {:induction false} RightIsRightAt(g: Graph, all: set<Key>, ks: seq<Key>)
    requires WellFormed(g) && Universe(g, all) && forall k <- ks :: k in all
    ensures AnsweredRight(g, all, ks) <==> forall i :: 0 <= i < |ks| ==> RightAt(g, all, ks, i)
  {
    hide Evident, StaleAt, Universe, WellFormed, Answers;
    AnswersLength(g, all, map[], ks);
    forall i | 0 <= i < |ks| ensures RightAt(g, all, ks, i) <==> (Answers(g, all, map[], ks)[i]
      <==> Evident(g, ks[i])) {
      EvidentIsStale(g, ks[i]);
    }
  }

  /** The `i`-th answer is whether the symbol is stale at the position. */
  ghost predicate RightAt(g: Graph, all: set<Key>, ks: seq<Key>, i: nat)
    requires WellFormed(g) && Universe(g, all) && (forall k <- ks :: k in all) && i < |ks|
  {
    var answers := Answers(g, all, map[], ks);
    |answers| == |ks| && (answers[i] <==> StaleAt(g, ks[i]))
  }
}
