/**
 * Is a symbol stale for a cell at some position? It is if, at or above that position, it depends on
 * something updated since, directly or through a parent that is itself stale there. The answers are
 * memoized per symbol, and an entry is set to False before it is computed, so that cycles end.
 */
module PositionCache {
  type Sym = nat
  datatype Time = Time(cell: int, position: int)   // a timestamp, and the position of its cell

  datatype Parent = Parent(sym: Sym, times: seq<Time>)

  datatype Info = Info(isWaiting: bool, isShallowStale: bool, parents: seq<Parent>, updates: seq<Time>,
                       nsWaiting: seq<Sym>)

  type Graph = map<Sym, Info>

  /** One memo entry: the symbol, the position asked about, and whether its namespace counts. */
  datatype Key = Key(sym: Sym, pos: int, deep: bool)

  type Cache = map<Key, bool>

  ghost predicate WellFormed(g: Graph) {
    forall s <- g ::
      && (forall i :: 0 <= i < |g[s].parents| ==> g[s].parents[i].sym in g)
      && (forall i :: 0 <= i < |g[s].nsWaiting| ==> g[s].nsWaiting[i] in g)
  }

  predicate Waits(g: Graph, k: Key)
    requires k.sym in g
  {
    if k.deep then g[k.sym].isWaiting else g[k.sym].isShallowStale
  }

  //////////////////// What is looked at, in order ////////////////////

  /** Either evidence at once, or another question whose answer decides. */
  datatype Test = Evidence | Ask(key: Key)

  function UpdateTests(par: Sym, updates: seq<Time>, dep: Time, i: nat): seq<Test>
    requires i <= |updates|
    decreases |updates| - i
  {
    if i == |updates| then []
    else if updates[i].position > dep.position then UpdateTests(par, updates, dep, i + 1)
    else [if updates[i].cell > dep.cell then Evidence else Ask(Key(par, dep.position, true))]
         + UpdateTests(par, updates, dep, i + 1)
  }

  function TimeTests(g: Graph, par: Parent, pos: int, i: nat): seq<Test>
    requires par.sym in g && i <= |par.times|
    decreases |par.times| - i
  {
    if i == |par.times| then []
    else (if par.times[i].position > pos then []
          else UpdateTests(par.sym, g[par.sym].updates, par.times[i], 0)) + TimeTests(g, par, pos, i + 1)
  }

  function ParentTests(g: Graph, k: Key, i: nat): seq<Test>
    requires WellFormed(g) && k.sym in g && i <= |g[k.sym].parents|
    decreases |g[k.sym].parents| - i
  {
    if i == |g[k.sym].parents| then []
    else TimeTests(g, g[k.sym].parents[i], k.pos, 0) + ParentTests(g, k, i + 1)
  }

  function NamespaceTests(g: Graph, k: Key, i: nat): seq<Test>
    requires k.sym in g && i <= |g[k.sym].nsWaiting|
    decreases |g[k.sym].nsWaiting| - i
  {
    if !k.deep || i == |g[k.sym].nsWaiting| then []
    else [Ask(Key(g[k.sym].nsWaiting[i], k.pos, true))] + NamespaceTests(g, k, i + 1)
  }

  function Tests(g: Graph, k: Key): seq<Test>
    requires WellFormed(g) && k.sym in g
  {
    ParentTests(g, k, 0) + NamespaceTests(g, k, 0)
  }

  ghost predicate Asks(g: Graph, k: Key, k': Key)
    requires WellFormed(g)
  {
    k.sym in g && Ask(k') in Tests(g, k)
  }

  /** A finite set of questions that includes every question they lead to. */
  ghost predicate Universe(g: Graph, all: set<Key>)
    requires WellFormed(g)
  {
    && (forall k <- all :: k.sym in g)
    && (forall k, k' :: k in all && Asks(g, k, k') ==> k' in all)
  }

  /** The positions at which dependencies were made. */
  function Positions(g: Graph): set<int> {
    set s, i, j | s in g && 0 <= i < |g[s].parents| && 0 <= j < |g[s].parents[i].times|
      :: g[s].parents[i].times[j].position
  }

  /** All questions about symbols of `g` at those positions and at `pos`. */
  function Questions(g: Graph, pos: int): set<Key> {
    set s, p, d | s in g && p in Positions(g) + {pos} && d in {false, true} :: Key(s, p, d)
  }

  ghost predicate Known(g: Graph, pos: int, tests: seq<Test>) {
    forall i :: 0 <= i < |tests| && tests[i].Ask? ==> tests[i].key in Questions(g, pos)
  }

  lemma {:induction false} UpdateTestsKnown(g: Graph, par: Sym, updates: seq<Time>, dep: Time, i: nat, pos: int)
    requires i <= |updates| && par in g && dep.position in Positions(g) + {pos}
    ensures Known(g, pos, UpdateTests(par, updates, dep, i))
    decreases |updates| - i
  {
    if i < |updates| {
      UpdateTestsKnown(g, par, updates, dep, i + 1, pos);
      assert Key(par, dep.position, true) in Questions(g, pos);
    }
  }

  lemma {:induction false} TimeTestsKnown(g: Graph, s: Sym, n: nat, pos: int, at: int, i: nat)
    requires WellFormed(g) && s in g && n < |g[s].parents| && i <= |g[s].parents[n].times|
    ensures Known(g, pos, TimeTests(g, g[s].parents[n], at, i))
    decreases |g[s].parents[n].times| - i
  {
    var par := g[s].parents[n];
    if i < |par.times| {
      TimeTestsKnown(g, s, n, pos, at, i + 1);
      assert par.times[i].position in Positions(g);
      UpdateTestsKnown(g, par.sym, g[par.sym].updates, par.times[i], 0, pos);
    }
  }

  lemma {:induction false} ParentTestsKnown(g: Graph, k: Key, pos: int, i: nat)
    requires WellFormed(g) && k.sym in g && i <= |g[k.sym].parents|
    ensures Known(g, pos, ParentTests(g, k, i))
    decreases |g[k.sym].parents| - i
  {
    if i < |g[k.sym].parents| {
      ParentTestsKnown(g, k, pos, i + 1);
      TimeTestsKnown(g, k.sym, i, pos, k.pos, 0);
    }
  }

  lemma {:induction false} NamespaceTestsKnown(g: Graph, k: Key, pos: int, i: nat)
    requires WellFormed(g) && k.sym in g && i <= |g[k.sym].nsWaiting| && k.pos in Positions(g) + {pos}
    ensures Known(g, pos, NamespaceTests(g, k, i))
    decreases |g[k.sym].nsWaiting| - i
  {
    if i < |g[k.sym].nsWaiting| {
      NamespaceTestsKnown(g, k, pos, i + 1);
      assert Key(g[k.sym].nsWaiting[i], k.pos, true) in Questions(g, pos);
    }
  }

  /** Whatever is asked at `pos`, finitely many questions can follow, however symbols depend on each other. */
  lemma {:induction false} FinitelyManyQuestions(g: Graph, pos: int)
    requires WellFormed(g)
    ensures Universe(g, Questions(g, pos))
    ensures forall s, d :: s in g ==> Key(s, pos, d) in Questions(g, pos)
  {
    forall k, k' | k in Questions(g, pos) && Asks(g, k, k') ensures k' in Questions(g, pos) {
      ParentTestsKnown(g, k, pos, 0);
      NamespaceTestsKnown(g, k, pos, 0);
    }
  }

  //////////////////// The memoized evaluation ////////////////////

  datatype Outcome = Outcome(cache: Cache, answer: bool)

  lemma {:induction false} KnowsTests(g: Graph, all: set<Key>, k: Key)
    requires WellFormed(g) && Universe(g, all) && k in all
    ensures TestsKnown(all, Tests(g, k))
  {
    hide Tests;
    forall t | t in Tests(g, k) && t.Ask? ensures t.key in all { assert Asks(g, k, t.key); }
  }

  ghost function Query(g: Graph, all: set<Key>, c: Cache, k: Key): (o: Outcome)
    requires WellFormed(g) && Universe(g, all) && k in all
    ensures c.Keys <= o.cache.Keys
    decreases all - c.Keys, 1, 0
  {
    if !Waits(g, k) then Outcome(c, false)
    else if k in c then Outcome(c, c[k])
    else
      assert k in all - c.Keys && TestsKnown(all, Tests(g, k)) by { KnowsTests(g, all, k); }
      var o := Scan(g, all, c[k := false], Tests(g, k));
      Outcome(o.cache[k := o.answer], o.answer)
  }

  ghost predicate TestsKnown(all: set<Key>, tests: seq<Test>) { forall t <- tests :: t.Ask? ==> t.key in all }

  ghost function Scan(g: Graph, all: set<Key>, c: Cache, tests: seq<Test>): (o: Outcome)
    requires WellFormed(g) && Universe(g, all) && TestsKnown(all, tests)
    ensures c.Keys <= o.cache.Keys
    decreases all - c.Keys, 2, |tests|
  {
    if tests == [] then Outcome(c, false)
    else if tests[0].Evidence? then Outcome(c, true)
    else
      var o := Query(g, all, c, tests[0].key);
      if o.answer then o else Scan(g, all, o.cache, tests[1..])
  }

  //////////////////// Evidence ////////////////////

  /** A chain of stale symbols, each asking about the next, that ends at evidence. */
  ghost predicate EvidenceChain(g: Graph, p: seq<Key>)
    requires WellFormed(g)
  {
    && |p| >= 1 && (forall i :: 0 <= i < |p| ==> p[i].sym in g && Waits(g, p[i]))
    && (forall i :: 0 <= i < |p| - 1 ==> Asks(g, p[i], p[i + 1]))
    && Evidence in Tests(g, p[|p| - 1])
  }

  ghost predicate Evident(g: Graph, k: Key)
    requires WellFormed(g)
  {
    exists p :: EvidenceChain(g, p) && p[0] == k
  }

  lemma {:induction false} EvidentUnfolds(g: Graph, k: Key)
    requires WellFormed(g) && k.sym in g
    ensures Evident(g, k) <==> Waits(g, k) && (Evidence in Tests(g, k) || exists k' :: Asks(g, k, k') && Evident(g, k'))
  {
    hide Tests, Asks;
    if Evident(g, k) {
      var p :| EvidenceChain(g, p) && p[0] == k;
      if |p| > 1 {
        assert EvidenceChain(g, p[1..]) && Asks(g, k, p[1]);
      }
    }
    if Waits(g, k) && Evidence in Tests(g, k) { assert EvidenceChain(g, [k]); }
    if k' :| Waits(g, k) && Asks(g, k, k') && Evident(g, k') {
      var p :| EvidenceChain(g, p) && p[0] == k';
      assert EvidenceChain(g, [k] + p);
    }
  }

  /** A test that, honestly answered, makes the symbol stale. */
  ghost predicate Positive(g: Graph, t: Test)
    requires WellFormed(g)
  {
    t.Evidence? || Evident(g, t.key)
  }

  lemma {:induction false} TestsDecide(g: Graph, k: Key)
    requires WellFormed(g) && k.sym in g
    ensures Evident(g, k) <==> Waits(g, k) && exists t <- Tests(g, k) :: Positive(g, t)
  {
    EvidentUnfolds(g, k);
    hide Tests, Evident;
    forall k' | Asks(g, k, k') && Evident(g, k') ensures exists t <- Tests(g, k) :: Positive(g, t) {
      assert Positive(g, Ask(k'));
    }
    if Evidence in Tests(g, k) { assert Positive(g, Evidence); }
    forall t | t in Tests(g, k) && Positive(g, t) && t.Ask? ensures Asks(g, k, t.key) && Evident(g, t.key) {
    }
  }

  //////////////////// On every graph a True is right ////////////////////

  ghost predicate Sound(g: Graph, c: Cache)
    requires WellFormed(g)
  {
    forall k <- c :: c[k] ==> Evident(g, k)
  }

  /** Whatever was asked before, and whether or not parents form cycles, no answer is True without evidence. */
  lemma {:induction false} TrueIsEvident(g: Graph, all: set<Key>, c: Cache, k: Key)
    requires WellFormed(g) && Universe(g, all) && k in all && Sound(g, c)
    ensures Sound(g, Query(g, all, c, k).cache) && (Query(g, all, c, k).answer ==> Evident(g, k))
    decreases all - c.Keys, 1, 0
  {
    hide Tests;
    if Waits(g, k) && k !in c {
      KnowsTests(g, all, k);
      assert k in all - c.Keys;
      ScanIsSound(g, all, c[k := false], k, Tests(g, k));
    }
  }

  lemma {:induction false} ScanIsSound(g: Graph, all: set<Key>, c: Cache, k: Key, tests: seq<Test>)
    requires WellFormed(g) && Universe(g, all) && k in all && Waits(g, k) && Sound(g, c)
    requires TestsKnown(all, tests)
    requires forall t <- tests :: t in Tests(g, k)
    ensures Sound(g, Scan(g, all, c, tests).cache) && (Scan(g, all, c, tests).answer ==> Evident(g, k))
    decreases all - c.Keys, 2, |tests|
  {
    hide Tests;
    EvidentUnfolds(g, k);
    if tests != [] {
      assert tests[0] in Tests(g, k);
      if tests[0].Ask? {
        assert Asks(g, k, tests[0].key);
        TrueIsEvident(g, all, c, tests[0].key);
        var o := Query(g, all, c, tests[0].key);
        if !o.answer { ScanIsSound(g, all, o.cache, k, tests[1..]); }
      }
    }
  }

  //////////////////// The first answer is exact, cycles or not ////////////////////

  /** Every question `k` leads to and that may be stale has an entry, and `k` has no evidence itself. */
  ghost predicate Exhausted(g: Graph, entries: set<Key>, k: Key)
    requires WellFormed(g) && k.sym in g
  {
    Evidence !in Tests(g, k) && forall k' :: Asks(g, k, k') && k'.sym in g && Waits(g, k') ==> k' in entries
  }

  /** After a False answer everything asked about is exhausted. */
  lemma {:induction false} FalseExhausts(g: Graph, all: set<Key>, c: Cache, k: Key)
    requires WellFormed(g) && Universe(g, all) && k in all && !Query(g, all, c, k).answer
    ensures var entries := Query(g, all, c, k).cache.Keys;
            && (Waits(g, k) ==> k in entries)
            && (forall x :: x in entries && x !in c ==> x.sym in g && Exhausted(g, entries, x))
    decreases all - c.Keys, 1, 0
  {
    hide Tests;
    if Waits(g, k) && k !in c {
      KnowsTests(g, all, k);
      assert k in all - c.Keys;
      ScanExhausts(g, all, c[k := false], k, Tests(g, k));
    }
  }

  lemma {:induction false} ScanExhausts(g: Graph, all: set<Key>, c: Cache, k: Key, tests: seq<Test>)
    requires WellFormed(g) && Universe(g, all) && k in all && forall t <- tests :: t in Tests(g, k)
    requires TestsKnown(all, tests) && !Scan(g, all, c, tests).answer
    ensures var entries := Scan(g, all, c, tests).cache.Keys;
            && (forall t <- tests :: t.Ask? && (Waits(g, t.key) ==> t.key in entries))
            && (forall x :: x in entries && x !in c ==> x.sym in g && Exhausted(g, entries, x))
    decreases all - c.Keys, 2, |tests|
  {
    hide Tests;
    if tests != [] {
      assert tests[0] in Tests(g, k);
      var o := Query(g, all, c, tests[0].key);
      FalseExhausts(g, all, c, tests[0].key);
      ScanExhausts(g, all, o.cache, k, tests[1..]);
      forall x | x in o.cache && x !in c ensures x.sym in g && Exhausted(g, Scan(g, all, c, tests).cache.Keys, x) {
        assert Exhausted(g, o.cache.Keys, x);
      }
      forall t | t in tests ensures t.Ask? && (Waits(g, t.key) ==> t.key in Scan(g, all, c, tests).cache.Keys) {
        assert t == tests[0] || t in tests[1..];
      }
    }
  }

  /** From an empty cache the answer is True exactly when there is evidence, on every graph. */
  lemma {:induction false} FirstAnswerIsExact(g: Graph, all: set<Key>, k: Key)
    requires WellFormed(g) && Universe(g, all) && k in all
    ensures Query(g, all, map[], k).answer <==> Evident(g, k)
  {
    TrueIsEvident(g, all, map[], k);
    if !Query(g, all, map[], k).answer && Evident(g, k) {
      FalseExhausts(g, all, map[], k);
      EvidentUnfolds(g, k);
      var p :| EvidenceChain(g, p) && p[0] == k;
      NoChainOut(g, Query(g, all, map[], k).cache.Keys, p);
    }
  }

  lemma {:induction false} NoChainOut(g: Graph, entries: set<Key>, p: seq<Key>)
    requires WellFormed(g) && EvidenceChain(g, p) && p[0] in entries
    requires forall x <- entries :: x.sym in g && Exhausted(g, entries, x)
    ensures false
    decreases |p|
  {
    hide Tests;
    if |p| > 1 {
      assert Asks(g, p[0], p[1]);
      NoChainOut(g, entries, p[1..]);
    }
  }

  //////////////////// Without stale cycles every answer is exact ////////////////////

  /** `k` asks about `k'`, and both may be stale. */
  ghost predicate Leads(g: Graph, k: Key, k': Key)
    requires WellFormed(g)
  {
    Asks(g, k, k') && Waits(g, k) && k'.sym in g && Waits(g, k')
  }

  /** No cycles among the questions that may be stale; others are answered without asking on. */
  ghost predicate Ranked(g: Graph, rank: Key -> nat)
    requires WellFormed(g)
  {
    forall k, k' :: Leads(g, k, k') ==> rank(k') < rank(k)
  }

  /** Entries of rank at most `r` are right; those above may still be in progress. */
  ghost predicate Settled(g: Graph, rank: Key -> nat, c: Cache, r: nat)
    requires WellFormed(g)
  {
    forall k <- c :: rank(k) <= r ==> (c[k] <==> Evident(g, k))
  }

  /** From `c` to `c'` only right entries were added, all of rank at most `r`. */
  ghost predicate AddsSettled(g: Graph, rank: Key -> nat, c: Cache, c': Cache, r: nat)
    requires WellFormed(g)
  {
    && (forall k <- c :: k in c' && c'[k] == c[k])
    && (forall k <- c' :: k in c || (rank(k) <= r && (c'[k] <==> Evident(g, k))))
  }

  lemma {:induction false} AnswerIsExact(g: Graph, all: set<Key>, rank: Key -> nat, c: Cache, k: Key)
    requires WellFormed(g) && Universe(g, all) && k in all && Ranked(g, rank) && Settled(g, rank, c, rank(k))
    ensures var o := Query(g, all, c, k);
            (o.answer <==> Evident(g, k)) && AddsSettled(g, rank, c, o.cache, rank(k))
    decreases all - c.Keys, 1, 0
  {
    hide Tests;
    TestsDecide(g, k);
    hide Evident, Positive;
    if Waits(g, k) && k !in c {
      KnowsTests(g, all, k);
      assert k in all - c.Keys;
      ScanIsExact(g, all, rank, c[k := false], k, Tests(g, k));
    }
  }

  lemma {:induction false} ScanIsExact(g: Graph, all: set<Key>, rank: Key -> nat, c: Cache, k: Key, tests: seq<Test>)
    requires WellFormed(g) && Universe(g, all) && k in all && Waits(g, k) && Ranked(g, rank)
    requires forall x <- c :: rank(x) < rank(k) ==> (c[x] <==> Evident(g, x))
    requires TestsKnown(all, tests)
    requires forall t <- tests :: t in Tests(g, k)
    ensures var o := Scan(g, all, c, tests);
            && (o.answer <==> exists t <- tests :: Positive(g, t))
            && (forall x <- c :: x in o.cache && o.cache[x] == c[x])
            && (forall x <- o.cache :: x in c || (rank(x) < rank(k) && (o.cache[x] <==> Evident(g, x))))
    decreases all - c.Keys, 2, |tests|
  {
    hide Tests;
    if tests != [] {
      assert tests[0] in Tests(g, k);
      if tests[0].Ask? {
        var k' := tests[0].key;
        assert Asks(g, k, k');
        if Waits(g, k') {
          assert Leads(g, k, k');
          AnswerIsExact(g, all, rank, c, k');
        } else {
          EvidentUnfolds(g, k');
        }
        var o := Query(g, all, c, k');
        assert o.answer <==> Positive(g, tests[0]);
        if !o.answer {
          ScanIsExact(g, all, rank, o.cache, k, tests[1..]);
          assert forall t :: t in tests <==> t == tests[0] || t in tests[1..];
        }
      } else {
        assert Positive(g, tests[0]);
      }
    }
  }

  /** A session of questions against one cache. */
  ghost function Answers(g: Graph, all: set<Key>, c: Cache, ks: seq<Key>): seq<bool>
    requires WellFormed(g) && Universe(g, all) && forall k <- ks :: k in all
    decreases |ks|
  {
    if ks == [] then []
    else
      var o := Query(g, all, c, ks[0]);
      [o.answer] + Answers(g, all, o.cache, ks[1..])
  }

  /** The same question without any cache; it ends because the ranks go down. */
  ghost function Uncached(g: Graph, rank: Key -> nat, k: Key): bool
    requires WellFormed(g) && k.sym in g && Ranked(g, rank)
    decreases rank(k)
  {
    Waits(g, k) && (Evidence in Tests(g, k)
                    || exists k' :: Leads(g, k, k') && rank(k') < rank(k) && Uncached(g, rank, k'))
  }

  lemma {:induction false} UncachedIsEvident(g: Graph, rank: Key -> nat, k: Key)
    requires WellFormed(g) && k.sym in g && Ranked(g, rank)
    ensures Uncached(g, rank, k) <==> Evident(g, k)
    decreases rank(k)
  {
    hide Tests;
    EvidentUnfolds(g, k);
    forall k' | Leads(g, k, k') ensures Uncached(g, rank, k') <==> Evident(g, k') {
      UncachedIsEvident(g, rank, k');
    }
    forall k' | Waits(g, k) && Asks(g, k, k') && Evident(g, k') ensures Leads(g, k, k') {
      var p :| EvidenceChain(g, p) && p[0] == k';
    }
  }

  /** Without such cycles the cache changes no answer, whatever the order of the questions. */
  lemma {:induction false} CacheIsTransparent(g: Graph, all: set<Key>, rank: Key -> nat, c: Cache, ks: seq<Key>, i: nat)
    requires WellFormed(g) && Universe(g, all) && Ranked(g, rank) && (forall k <- ks :: k in all) && i < |ks|
    requires forall k <- c :: c[k] <==> Evident(g, k)
    ensures |Answers(g, all, c, ks)| == |ks| && Answers(g, all, c, ks)[i] == Uncached(g, rank, ks[i])
    decreases |ks|
  {
    hide Tests;
    AnswerIsExact(g, all, rank, c, ks[0]);
    var o := Query(g, all, c, ks[0]);
    if i == 0 {
      UncachedIsEvident(g, rank, ks[0]);
      AnswersLength(g, all, c, ks);
    } else {
      CacheIsTransparent(g, all, rank, o.cache, ks[1..], i - 1);
    }
  }

  lemma {:induction false} AnswersLength(g: Graph, all: set<Key>, c: Cache, ks: seq<Key>)
    requires WellFormed(g) && Universe(g, all) && forall k <- ks :: k in all
    ensures |Answers(g, all, c, ks)| == |ks|
    decreases |ks|
  {
    hide Tests;
    if ks != [] { AnswersLength(g, all, Query(g, all, c, ks[0]).cache, ks[1..]); }
  }

  //////////////////// With a cycle the order of the questions matters ////////////////////

  const T1 := Time(1, 0)
  const T2 := Time(2, 0)
  const K0 := Key(0, 0, true)
  const K1 := Key(1, 0, true)

  function Stale(parents: seq<Parent>, updates: seq<Time>): Info { Info(true, true, parents, updates, []) }

  /** Two symbols that are parents of each other; the first also depends on something newer. */
  function Cycle(): Graph {
    var g: Graph := map[];
    g[0 := Stale([Parent(1, [T1]), Parent(2, [T1])], [T1])][1 := Stale([Parent(0, [T1])], [T1])][2 := Stale([], [T2])]
  }

  lemma {:induction false} OneDependency(g: Graph, par: Sym, times: seq<Time>)
    requires par in g && g[par].updates == times && |times| == 1 && times[0].position == T1.position
    ensures TimeTests(g, Parent(par, [T1]), 0, 0)
            == [if times[0].cell > T1.cell then Evidence else Ask(Key(par, 0, true))]
  {
    var p := Parent(par, [T1]);
    assert UpdateTests(par, times, T1, 1) == [] && TimeTests(g, p, 0, 1) == [];
    assert TimeTests(g, p, 0, 0) == UpdateTests(par, times, T1, 0) + TimeTests(g, p, 0, 1);
  }

  lemma {:induction false} CycleTests()
    ensures WellFormed(Cycle()) && Tests(Cycle(), K0) == [Ask(K1), Evidence] && Tests(Cycle(), K1) == [Ask(K0)]
  {
    var g := Cycle();
    OneDependency(g, 0, [T1]);
    OneDependency(g, 1, [T1]);
    OneDependency(g, 2, [T2]);
    hide TimeTests;
    assert ParentTests(g, K0, 2) == [] && ParentTests(g, K1, 1) == [];
    assert ParentTests(g, K0, 1) == [Evidence] + ParentTests(g, K0, 2);
  }

  /** Two questions that lead to each other, the first of which also has evidence of its own. */
  ghost predicate Looped(g: Graph, k0: Key, k1: Key)
    requires WellFormed(g)
  {
    && k0 != k1 && k0.sym in g && k1.sym in g && Waits(g, k0) && Waits(g, k1)
    && Tests(g, k0) == [Ask(k1), Evidence] && Tests(g, k1) == [Ask(k0)]
  }

  lemma {:induction false} LoopedUniverse(g: Graph, k0: Key, k1: Key)
    requires WellFormed(g) && Looped(g, k0, k1)
    ensures Universe(g, {k0, k1}) && Evident(g, k1)
  {
    hide Tests;
    assert EvidenceChain(g, [k1, k0]) by { assert Asks(g, k1, k0); }
  }

  /** Asked while the first is in progress, the second finds nothing, and remembers that. */
  lemma {:induction false} SecondRemembersFalse(g: Graph, k0: Key, k1: Key, c: Cache)
    requires WellFormed(g) && Looped(g, k0, k1) && Universe(g, {k0, k1})
    requires k0 in c && !c[k0] && k1 !in c
    ensures Query(g, {k0, k1}, c, k1) == Outcome(c[k1 := false], false)
  {
    hide Tests;
    KnowsTests(g, {k0, k1}, k1);
    var c' := c[k1 := false];
    var tests := Tests(g, k1);
    assert tests[1..] == [];
    assert Query(g, {k0, k1}, c', tests[0].key) == Outcome(c', false);
    assert Scan(g, {k0, k1}, c', tests) == Outcome(c', false);
    assert c'[k1 := false] == c';
  }

  lemma {:induction false} FirstFindsEvidence(g: Graph, k0: Key, k1: Key)
    requires WellFormed(g) && Looped(g, k0, k1) && Universe(g, {k0, k1})
    ensures var o := Query(g, {k0, k1}, map[], k0); o.answer && k1 in o.cache && !o.cache[k1]
  {
    hide Tests;
    KnowsTests(g, {k0, k1}, k0);
    var none: Cache := map[];
    var c := none[k0 := false];
    SecondRemembersFalse(g, k0, k1, c);
    var tests := Tests(g, k0);
    assert tests[1..] == [Evidence];
    assert Scan(g, {k0, k1}, c[k1 := false], tests[1..]) == Outcome(c[k1 := false], true);
    assert Scan(g, {k0, k1}, c, tests) == Outcome(c[k1 := false], true);
  }

  /** The second symbol is stale, and is reported so if asked first, but not after the first symbol. */
  lemma {:induction false} CyclesLoseEvidence(g: Graph, k0: Key, k1: Key)
    requires WellFormed(g) && Looped(g, k0, k1)
    ensures Universe(g, {k0, k1}) && Evident(g, k1)
    ensures Answers(g, {k0, k1}, map[], [k1]) == [true]
    ensures Answers(g, {k0, k1}, map[], [k0, k1]) == [true, false]
  {
    LoopedUniverse(g, k0, k1);
    FirstAnswerIsExact(g, {k0, k1}, k1);
    FirstFindsEvidence(g, k0, k1);
    hide Tests, Looped;
    var none: Cache := map[];
    var after := Query(g, {k0, k1}, none, k0).cache;
    assert [k0, k1][1..] == [k1] && [k1][1..] == [];
    assert Answers(g, {k0, k1}, after, [k1]) == [false];
  }

  lemma {:induction false} CycleIsLooped()
    ensures WellFormed(Cycle()) && Looped(Cycle(), K0, K1)
  {
    CycleTests();
  }

  //////////////////// The memo tables themselves ////////////////////

  function Last(stamps: map<Sym, int>, s: Sym): int { if s in stamps then stamps[s] else -1 }

  /** The entries not left over from an earlier execution; a symbol's table is emptied when next used. */
  ghost function Current(cache: Cache, stamps: map<Sym, int>, counter: int): Cache {
    cache - set k | k in cache && Last(stamps, k.sym) < counter
  }

  lemma {:induction false} ClearingKeepsCurrent(cache: Cache, stamps: map<Sym, int>, counter: int, s: Sym)
    requires Last(stamps, s) < counter
    ensures Current(cache - (set k | k in cache && k.sym == s), stamps[s := counter], counter)
            == Current(cache, stamps, counter)
  {
    var before, after := Current(cache, stamps, counter),
                         Current(cache - (set k | k in cache && k.sym == s), stamps[s := counter], counter);
    forall k ensures (k in before <==> k in after) && (k in before ==> before[k] == after[k]) {
    }
  }

  lemma {:induction false} CurrentEntry(cache: Cache, stamps: map<Sym, int>, counter: int, k: Key, b: bool)
    requires Last(stamps, k.sym) >= counter
    ensures Current(cache[k := b], stamps, counter) == Current(cache, stamps, counter)[k := b]
    ensures k in cache <==> k in Current(cache, stamps, counter)
    ensures k in cache ==> Current(cache, stamps, counter)[k] == cache[k]
  {
  }

  lemma {:induction false} ScanAsk(g: Graph, all: set<Key>, c: Cache, k: Key, tests: seq<Test>)
    requires WellFormed(g) && Universe(g, all) && k in all && TestsKnown(all, tests)
    ensures TestsKnown(all, [Ask(k)] + tests)
    ensures Scan(g, all, c, [Ask(k)] + tests)
            == if Query(g, all, c, k).answer then Query(g, all, c, k) else Scan(g, all, Query(g, all, c, k).cache,
              tests)
  {
    assert ([Ask(k)] + tests)[1..] == tests;
  }

  class Tables {
    const g: Graph
    const execCounter: int
    var cache: Cache              // _is_ready_or_waiting_at_position_cache of every symbol
    var stamps: map<Sym, int>     // _last_computed_ready_or_waiting_cache_ts of every symbol

    ghost function Now(): Cache
      reads this
    {
      Current(cache, stamps, execCounter)
    }

    constructor (graph: Graph, counter: int, entries: Cache, times: map<Sym, int>)
      ensures g == graph && execCounter == counter && cache == entries && stamps == times
    {
      g, execCounter, cache, stamps := graph, counter, entries, times;
    }

    method IsWaitingAtPosition(k: Key, ghost all: set<Key>) returns (isWaiting: bool)
      requires WellFormed(g) && Universe(g, all) && k in all
      modifies this`cache, this`stamps
      ensures Outcome(Now(), isWaiting) == Query(g, all, old(Now()), k)
      ensures forall s :: Last(stamps, s) >= Last(old(stamps), s)
      decreases all - Now().Keys, 0
    {
      if !Waits(g, k) { return false; }
      if execCounter > Last(stamps, k.sym) {
        ClearingKeepsCurrent(cache, stamps, execCounter, k.sym);
        cache := cache - set x | x in cache && x.sym == k.sym;
        stamps := stamps[k.sym := execCounter];
      }
      CurrentEntry(cache, stamps, execCounter, k, false);
      hide Current, Tests, Scan;
      if k in cache { return cache[k]; }
      assert k in all - Now().Keys;
      cache := cache[k := false];
      KnowsTests(g, all, k);
      isWaiting := Compute(k, all);
      CurrentEntry(cache, stamps, execCounter, k, isWaiting);
      cache := cache[k := isWaiting];
    }

    /** Looks at every dependency and then, if asked to, into the namespace. */
    method Compute(k: Key, ghost all: set<Key>) returns (isWaiting: bool)
      requires WellFormed(g) && Universe(g, all) && k in all && TestsKnown(all, Tests(g, k))
      modifies this`cache, this`stamps
      ensures Outcome(Now(), isWaiting) == Scan(g, all, old(Now()), Tests(g, k))
      ensures forall s :: Last(stamps, s) >= Last(old(stamps), s)
      decreases all - Now().Keys, 3
    {
      hide Current, Scan, Query, TimeTests, NamespaceTests;
      ghost var whole := Scan(g, all, Now(), Tests(g, k));
      ghost var inside := NamespaceTests(g, k, 0);
      var i := 0;
      while i < |g[k.sym].parents|
        invariant i <= |g[k.sym].parents| && old(Now()).Keys <= Now().Keys
        invariant forall s :: Last(stamps, s) >= Last(old(stamps), s)
        invariant TestsKnown(all, ParentTests(g, k, i) + inside)
        invariant whole == Scan(g, all, Now(), ParentTests(g, k, i) + inside)
      {
        ghost var rest := ParentTests(g, k, i + 1) + inside;
        assert ParentTests(g, k, i) + inside == TimeTests(g, g[k.sym].parents[i], k.pos, 0) + rest;
        isWaiting := CheckParent(g[k.sym].parents[i], k.pos, all, rest);
        if isWaiting { return; }
        i := i + 1;
      }
      assert ParentTests(g, k, i) + inside == inside;
      isWaiting := CheckNamespace(k, all);
    }

    method CheckNamespace(k: Key, ghost all: set<Key>) returns (isWaiting: bool)
      requires WellFormed(g) && Universe(g, all) && k.sym in g && TestsKnown(all, NamespaceTests(g, k, 0))
      modifies this`cache, this`stamps
      ensures Outcome(Now(), isWaiting) == Scan(g, all, old(Now()), NamespaceTests(g, k, 0))
      ensures forall s :: Last(stamps, s) >= Last(old(stamps), s)
      decreases all - Now().Keys, 1
    {
      hide Current;
      if !k.deep { return false; }
      ghost var whole := Scan(g, all, Now(), NamespaceTests(g, k, 0));
      var i := 0;
      while i < |g[k.sym].nsWaiting|
        invariant i <= |g[k.sym].nsWaiting| && old(Now()).Keys <= Now().Keys
        invariant forall s :: Last(stamps, s) >= Last(old(stamps), s)
        invariant TestsKnown(all, NamespaceTests(g, k, i))
        invariant whole == Scan(g, all, Now(), NamespaceTests(g, k, i))
      {
        var asked := Key(g[k.sym].nsWaiting[i], k.pos, true);
        ghost var rest := NamespaceTests(g, k, i + 1);
        SplitKnown(all, asked, rest);
        ScanAsk(g, all, Now(), asked, rest);
        isWaiting := IsWaitingAtPosition(asked, all);
        if isWaiting { return; }
        i := i + 1;
      }
      isWaiting := false;
    }

    /** All dependencies on one parent; `rest` is what is still to be looked at after it. */
    method CheckParent(par: Parent, pos: int, ghost all: set<Key>, ghost rest: seq<Test>) returns (found: bool)
      requires WellFormed(g) && Universe(g, all) && par.sym in g && TestsKnown(all, TimeTests(g, par, pos, 0) + rest)
      modifies this`cache, this`stamps
      ensures TestsKnown(all, rest)
      ensures Scan(g, all, old(Now()), TimeTests(g, par, pos, 0) + rest)
              == if found then Outcome(Now(), true) else Scan(g, all, Now(), rest)
      ensures old(Now()).Keys <= Now().Keys && forall s :: Last(stamps, s) >= Last(old(stamps), s)
      decreases all - Now().Keys, 2
    {
      hide Current, Scan, Query, UpdateTests;
      ghost var whole := Scan(g, all, Now(), TimeTests(g, par, pos, 0) + rest);
      var i := 0;
      while i < |par.times|
        invariant i <= |par.times| && old(Now()).Keys <= Now().Keys
        invariant forall s :: Last(stamps, s) >= Last(old(stamps), s)
        invariant TestsKnown(all, TimeTests(g, par, pos, i) + rest)
        invariant whole == Scan(g, all, Now(), TimeTests(g, par, pos, i) + rest)
      {
        ghost var after := TimeTests(g, par, pos, i + 1) + rest;
        var dep := par.times[i];
        i := i + 1;
        if dep.position > pos {
          assert TimeTests(g, par, pos, i - 1) == [] + TimeTests(g, par, pos, i) == TimeTests(g, par, pos, i);
          continue;
        }
        assert TimeTests(g, par, pos, i - 1) + rest == UpdateTests(par.sym, g[par.sym].updates, dep, 0) + after;
        found := CheckDependency(par.sym, dep, all, after);
        if found { return; }
      }
      assert TimeTests(g, par, pos, i) + rest == rest;
      found := false;
    }

    /** One dependency: has the parent been updated since, or is it stale where the dependency was made? */
    method CheckDependency(par: Sym, dep: Time, ghost all: set<Key>, ghost rest: seq<Test>) returns (found: bool)
      requires WellFormed(g) && Universe(g, all) && par in g
      requires TestsKnown(all, UpdateTests(par, g[par].updates, dep, 0) + rest)
      modifies this`cache, this`stamps
      ensures TestsKnown(all, rest)
      ensures Scan(g, all, old(Now()), UpdateTests(par, g[par].updates, dep, 0) + rest)
              == if found then Outcome(Now(), true) else Scan(g, all, Now(), rest)
      ensures old(Now()).Keys <= Now().Keys && forall s :: Last(stamps, s) >= Last(old(stamps), s)
      decreases all - Now().Keys, 1
    {
      hide Current;
      var updates := g[par].updates;
      ghost var whole := Scan(g, all, Now(), UpdateTests(par, updates, dep, 0) + rest);
      var i := 0;
      while i < |updates|
        invariant i <= |updates| && old(Now()).Keys <= Now().Keys
        invariant forall s :: Last(stamps, s) >= Last(old(stamps), s)
        invariant TestsKnown(all, UpdateTests(par, updates, dep, i) + rest)
        invariant whole == Scan(g, all, Now(), UpdateTests(par, updates, dep, i) + rest)
      {
        var updated := updates[i];
        ghost var after := UpdateTests(par, updates, dep, i + 1) + rest;
        i := i + 1;
        if updated.position > dep.position { continue; }
        if updated.cell > dep.cell { return true; }
        assert UpdateTests(par, updates, dep, i - 1) + rest == [Ask(Key(par, dep.position, true))] + after;
        SplitKnown(all, Key(par, dep.position, true), after);
        ScanAsk(g, all, Now(), Key(par, dep.position, true), after);
        found := IsWaitingAtPosition(Key(par, dep.position, true), all);
        if found { return; }
      }
      assert UpdateTests(par, updates, dep, i) + rest == rest;
      found := false;
    }
  }

  lemma {:induction false} SplitKnown(all: set<Key>, k: Key, rest: seq<Test>)
    requires TestsKnown(all, [Ask(k)] + rest)
    ensures k in all && TestsKnown(all, rest)
  {
    var tests := [Ask(k)] + rest;
    assert tests[0] in tests;
    forall t | t in rest && t.Ask? ensures t.key in all { assert t in tests; }
  }
}
