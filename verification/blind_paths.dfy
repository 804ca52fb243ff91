/**
 * Exactly when memoizing staleness answers misleads. While a question is open its entry reads False.
 * A second question asked meanwhile is remembered as False, wrongly, if all the evidence it could
 * find lies behind questions still open.
 */
module BlindPaths {
  import opened PositionCache

  /** While the questions in `open` are open, `t` finds nothing: it asks one of them, or one without evidence. */
  ghost predicate Blocked(g: Graph, open: seq<Key>, t: Test)
    requires WellFormed(g)
  {
    t.Ask? && (t.key in open || !Evident(g, t.key))
  }

  ghost predicate AllBlocked(g: Graph, open: seq<Key>, tests: seq<Test>)
    requires WellFormed(g)
  {
    forall t <- tests :: Blocked(g, open, t)
  }

  /** Answering `k` gets as far as asking `k'`: all that `k` looks at before finds nothing. */
  ghost predicate ComesUp(g: Graph, open: seq<Key>, k: Key, k': Key)
    requires WellFormed(g) && k.sym in g
  {
    exists pre, rest :: Tests(g, k) == pre + [Ask(k')] + rest && AllBlocked(g, open, pre)
  }

  /** Distinct stale questions, each of which comes up while those before it are open. */
  ghost predicate OpenPath(g: Graph, p: seq<Key>)
    requires WellFormed(g)
  {
    && (forall i :: 0 <= i < |p| ==> p[i].sym in g && Waits(g, p[i]))
    && (forall i, j :: 0 <= i < j < |p| ==> p[i] != p[j])
    && (forall i :: 0 < i < |p| ==> ComesUp(g, p[..i], p[i - 1], p[i]))
  }

  /** A path to a question that has evidence, but only behind the questions of the path. */
  ghost predicate BlindPath(g: Graph, p: seq<Key>)
    requires WellFormed(g)
  {
    && |p| >= 2 && OpenPath(g, p)
    && Evident(g, p[|p| - 1]) && AllBlocked(g, p, Tests(g, p[|p| - 1]))
  }

  ghost predicate NoBlindPath(g: Graph, all: set<Key>)
    requires WellFormed(g)
  {
    forall p :: BlindPath(g, p) ==> p[0] !in all
  }

  lemma {:induction false} EvidentWaits(g: Graph, k: Key)
    requires WellFormed(g) && Evident(g, k)
    ensures k.sym in g && Waits(g, k)
  {
    var p :| EvidenceChain(g, p) && p[0] == k;
  }

  lemma {:induction false} OpenPathGrows(g: Graph, open: seq<Key>, k: Key)
    requires WellFormed(g) && OpenPath(g, open) && k.sym in g && Waits(g, k) && k !in open
    requires open != [] ==> ComesUp(g, open, open[|open| - 1], k)
    ensures OpenPath(g, open + [k])
  {
    hide ComesUp, Waits;
    var p := open + [k];
    forall i | 0 < i < |p| ensures ComesUp(g, p[..i], p[i - 1], p[i]) {
      assert p[..i] == open[..i];
      if i == |open| { assert open[..i] == open; }
    }
  }

  //////////////////// Without blind paths every answer is exact ////////////////////

  /** Open questions read False; all other entries are right. */
  ghost predicate Honest(g: Graph, c: Cache, open: seq<Key>)
    requires WellFormed(g)
  {
    && (forall x <- open :: x in c)
    && (forall x <- c :: if x in open then !c[x] else c[x] <==> Evident(g, x))
  }

  /** The questions that are open are all asked from one in `all`. */
  ghost predicate OpenIn(g: Graph, all: set<Key>, open: seq<Key>)
    requires WellFormed(g)
  {
    OpenPath(g, open) && (open != [] ==> open[0] in all)
  }

  lemma {:induction false} ChainIsNotBlocked(g: Graph, k: Key, p: seq<Key>)
    requires WellFormed(g) && EvidenceChain(g, p) && p[0] == k
    ensures !AllBlocked(g, [k], Tests(g, k))
    decreases |p|
  {
    hide Tests;
    if |p| == 1 {
      assert !Blocked(g, [k], Evidence);
    } else {
      assert Asks(g, k, p[1]);
      assert EvidenceChain(g, p[1..]) && Evident(g, p[1]);
      if p[1] == k {
        ChainIsNotBlocked(g, k, p[1..]);
      } else {
        assert !Blocked(g, [k], Ask(p[1]));
      }
    }
  }

  /** Once nothing was found for `k`, there is nothing, if no blind path ends here. */
  lemma {:induction false} BlockedIsBarren(g: Graph, all: set<Key>, open: seq<Key>, k: Key)
    requires WellFormed(g) && NoBlindPath(g, all) && k in all && OpenIn(g, all, open + [k])
    requires AllBlocked(g, open + [k], Tests(g, k))
    ensures !Evident(g, k)
  {
    hide Tests, OpenPath, AllBlocked;
    if open == [] {
      assert open + [k] == [k];
      if p :| EvidenceChain(g, p) && p[0] == k { ChainIsNotBlocked(g, k, p); }
    } else {
      assert BlindPath(g, open + [k]) <==> Evident(g, k);
    }
  }

  lemma {:induction false} HonestWhileOpen(g: Graph, c: Cache, open: seq<Key>, k: Key)
    requires WellFormed(g) && Honest(g, c, open) && k !in c
    ensures Honest(g, c[k := false], open + [k])
  {
    hide Evident;
  }

  lemma {:induction false} HonestOnceAnswered(g: Graph, c: Cache, open: seq<Key>, k: Key, answer: bool)
    requires WellFormed(g) && Honest(g, c, open + [k]) && k !in open && (answer <==> Evident(g, k))
    ensures Honest(g, c[k := answer], open)
  {
    hide Evident;
    assert forall x :: x in open + [k] <==> x in open || x == k;
  }

  lemma {:induction false} BlockedIffNotPositive(g: Graph, k: Key, open: seq<Key>)
    requires WellFormed(g) && k.sym in g && Waits(g, k) && !AllBlocked(g, open, Tests(g, k))
    ensures Evident(g, k)
  {
    TestsDecide(g, k);
    hide Tests, Evident;
    var t :| t in Tests(g, k) && !Blocked(g, open, t);
    assert Positive(g, t);
  }

  lemma {:induction false} QueryIsExact(g: Graph, all: set<Key>, c: Cache, open: seq<Key>, k: Key)
    requires WellFormed(g) && Universe(g, all) && k in all && NoBlindPath(g, all)
    requires Honest(g, c, open) && OpenIn(g, all, open)
    requires k !in open && Waits(g, k) ==> OpenIn(g, all, open + [k])
    ensures var o := Query(g, all, c, k);
            (o.answer <==> k !in open && Evident(g, k)) && Honest(g, o.cache, open)
    decreases all - c.Keys, 1, 0
  {
    hide Tests, OpenPath, NoBlindPath, AllBlocked, OpenIn, Evident;
    if !Waits(g, k) {
      if Evident(g, k) { EvidentWaits(g, k); }
    } else if k !in c {
      KnowsTests(g, all, k);
      assert k in all - c.Keys;
      HonestWhileOpen(g, c, open, k);
      var c', tests := c[k := false], Tests(g, k);
      assert [] + tests == tests;
      NoneBlocked(g, open + [k]);
      ScanIsExactWhileOpen(g, all, c', open, k, [], tests);
      var o := Scan(g, all, c', tests);
      if o.answer { BlockedIffNotPositive(g, k, open + [k]); } else { BlockedIsBarren(g, all, open, k); }
      HonestOnceAnswered(g, o.cache, open, k, o.answer);
    }
  }

  lemma {:induction false} NoneBlocked(g: Graph, open: seq<Key>)
    requires WellFormed(g)
    ensures AllBlocked(g, open, [])
  {
  }

  lemma {:induction false} OneMoreBlocked(g: Graph, open: seq<Key>, t: Test, tests: seq<Test>)
    requires WellFormed(g)
    ensures AllBlocked(g, open, [t] + tests) <==> Blocked(g, open, t) && AllBlocked(g, open, tests)
    ensures AllBlocked(g, open, tests + [t]) <==> Blocked(g, open, t) && AllBlocked(g, open, tests)
  {
    hide Blocked;
    assert t in [t] + tests && t in tests + [t];
    assert forall u <- tests :: u in [t] + tests && u in tests + [t];
  }

  lemma {:induction false} NextIsOpenPath(g: Graph, all: set<Key>, open: seq<Key>, k: Key, done: seq<Test>, k': Key,
                                          rest: seq<Test>)
    requires WellFormed(g) && k.sym in g && k'.sym in g && OpenIn(g, all, open + [k])
    requires Tests(g, k) == done + [Ask(k')] + rest && AllBlocked(g, open + [k], done)
    requires k' !in open + [k] && Waits(g, k')
    ensures OpenIn(g, all, (open + [k]) + [k'])
  {
    hide OpenPath, Tests, AllBlocked, Waits;
    assert ComesUp(g, open + [k], k, k');
    OpenPathGrows(g, open + [k], k');
  }

  lemma {:induction false} ScanIsExactWhileOpen(g: Graph, all: set<Key>, c: Cache, open: seq<Key>, k: Key,
                                                done: seq<Test>, tests: seq<Test>)
    requires WellFormed(g) && Universe(g, all) && k in all && NoBlindPath(g, all)
    requires Honest(g, c, open + [k]) && OpenIn(g, all, open + [k])
    requires done + tests == Tests(g, k) && TestsKnown(all, tests) && AllBlocked(g, open + [k], done)
    ensures var o := Scan(g, all, c, tests);
            (o.answer <==> !AllBlocked(g, open + [k], tests)) && Honest(g, o.cache, open + [k])
    decreases all - c.Keys, 2, |tests|
  {
    hide Tests, OpenPath, NoBlindPath, AllBlocked, OpenIn, Evident, Honest, Waits;
    if tests == [] {
      NoneBlocked(g, open + [k]);
    } else {
      var t, rest := tests[0], tests[1..];
      assert tests == [t] + rest && (done + [t]) + rest == Tests(g, k);
      OneMoreBlocked(g, open + [k], t, rest);
      OneMoreBlocked(g, open + [k], t, done);
      if t.Ask? {
        var k' := t.key;
        assert Tests(g, k) == done + [Ask(k')] + rest;
        if k' !in open + [k] && Waits(g, k') { NextIsOpenPath(g, all, open, k, done, k', rest); }
        QueryIsExact(g, all, c, open + [k], k');
        var o := Query(g, all, c, k');
        assert o.answer <==> !Blocked(g, open + [k], t);
        if !o.answer { ScanIsExactWhileOpen(g, all, o.cache, open, k, done + [t], rest); }
      }
    }
  }

  lemma {:induction false} AnswersAreExact(g: Graph, all: set<Key>, c: Cache, ks: seq<Key>, i: nat)
    requires WellFormed(g) && Universe(g, all) && NoBlindPath(g, all) && (forall k <- ks :: k in all) && i < |ks|
    requires Honest(g, c, [])
    ensures |Answers(g, all, c, ks)| == |ks| && (Answers(g, all, c, ks)[i] <==> Evident(g, ks[i]))
    decreases |ks|
  {
    hide Tests, Evident, NoBlindPath, Honest;
    AnswersLength(g, all, c, ks);
    var k := ks[0];
    assert OpenPath(g, []);
    if Waits(g, k) {
      OpenPathGrows(g, [], k);
      assert [] + [k] == [k];
    }
    QueryIsExact(g, all, c, [], k);
    if i > 0 { AnswersAreExact(g, all, Query(g, all, c, k).cache, ks[1..], i - 1); }
  }

  //////////////////// A blind path misleads ////////////////////

  /** All entries read False, and are about open questions or ones without evidence. */
  ghost predicate Dim(g: Graph, c: Cache, open: seq<Key>)
    requires WellFormed(g)
  {
    && (forall x <- open :: x in c)
    && (forall x <- c :: !c[x] && (x in open || !Evident(g, x)))
  }

  /** Entries are never changed. */
  lemma {:induction false} EntriesStay(g: Graph, all: set<Key>, c: Cache, k: Key)
    requires WellFormed(g) && Universe(g, all) && k in all
    ensures forall x <- c :: Query(g, all, c, k).cache[x] == c[x]
    decreases all - c.Keys, 1, 0
  {
    hide Tests;
    if Waits(g, k) && k !in c {
      KnowsTests(g, all, k);
      assert k in all - c.Keys;
      EntriesStayInScan(g, all, c[k := false], Tests(g, k));
    }
  }

  lemma {:induction false} EntriesStayInScan(g: Graph, all: set<Key>, c: Cache, tests: seq<Test>)
    requires WellFormed(g) && Universe(g, all) && TestsKnown(all, tests)
    ensures forall x <- c :: Scan(g, all, c, tests).cache[x] == c[x]
    decreases all - c.Keys, 2, |tests|
  {
    hide Waits;
    if tests != [] && tests[0].Ask? {
      EntriesStay(g, all, c, tests[0].key);
      var o := Query(g, all, c, tests[0].key);
      if !o.answer { EntriesStayInScan(g, all, o.cache, tests[1..]); }
    }
  }

  lemma {:induction false} BarrenTests(g: Graph, k: Key)
    requires WellFormed(g) && k.sym in g && Waits(g, k) && !Evident(g, k)
    ensures AllBlocked(g, [], Tests(g, k))
  {
    TestsDecide(g, k);
    hide Tests, Evident;
    forall t | t in Tests(g, k) ensures Blocked(g, [], t) { assert !Positive(g, t); }
  }

  /** A question without evidence is answered False and leaves the cache dim. */
  lemma {:induction false} BarrenStaysDim(g: Graph, all: set<Key>, c: Cache, open: seq<Key>, k: Key)
    requires WellFormed(g) && Universe(g, all) && k in all && Dim(g, c, open)
    requires k in open || !Evident(g, k)
    ensures var o := Query(g, all, c, k); !o.answer && Dim(g, o.cache, open)
    decreases all - c.Keys, 1, 0
  {
    hide Tests, Evident, AllBlocked;
    if Waits(g, k) && k !in c {
      KnowsTests(g, all, k);
      assert k in all - c.Keys;
      BarrenTests(g, k);
      assert Tests(g, k) + [] == Tests(g, k);
      var c' := BlockedScanStaysDim(g, all, c[k := false], open, [], Tests(g, k), []);
    }
  }

  /** Blocked tests find nothing: the scan goes on after them, with a dim cache. */
  lemma {:induction false} BlockedScanStaysDim(g: Graph, all: set<Key>, c: Cache, open: seq<Key>, active: seq<Key>,
                                               tests: seq<Test>, rest: seq<Test>)
    returns (c': Cache)
    requires WellFormed(g) && Universe(g, all) && Dim(g, c, open) && (forall x <- active :: x in open)
    requires AllBlocked(g, active, tests) && TestsKnown(all, tests + rest)
    ensures Dim(g, c', open) && c.Keys <= c'.Keys && TestsKnown(all, rest)
    ensures Scan(g, all, c, tests + rest) == Scan(g, all, c', rest)
    decreases all - c.Keys, 2, |tests|
  {
    hide Evident, Dim;
    if tests == [] {
      assert tests + rest == rest;
      c' := c;
    } else {
      assert Blocked(g, active, tests[0]);
      var k := tests[0].key;
      assert (tests + rest)[0] == tests[0] && (tests + rest)[1..] == tests[1..] + rest;
      BarrenStaysDim(g, all, c, open, k);
      c' := BlockedScanStaysDim(g, all, Query(g, all, c, k).cache, open, active, tests[1..], rest);
    }
  }

  lemma {:induction false} PathIsEvident(g: Graph, p: seq<Key>, i: nat)
    requires WellFormed(g) && OpenPath(g, p) && i < |p| && Evident(g, p[|p| - 1])
    ensures Evident(g, p[i])
    decreases |p| - i
  {
    if i < |p| - 1 {
      PathIsEvident(g, p, i + 1);
      EvidentUnfolds(g, p[i]);
      hide Tests, Evident;
      assert ComesUp(g, p[..i + 1], p[i], p[i + 1]);
      assert Asks(g, p[i], p[i + 1]);
    }
  }

  lemma {:induction false} DimWhileOpen(g: Graph, c: Cache, p: seq<Key>, i: nat)
    requires WellFormed(g) && i < |p| && Dim(g, c, p[..i])
    ensures Dim(g, c[p[i] := false], p[..i + 1])
  {
    hide Evident;
    assert forall x :: x in p[..i + 1] <==> x in p[..i] || x == p[i];
  }

  lemma {:induction false} NotYetAsked(g: Graph, c: Cache, p: seq<Key>, i: nat)
    requires WellFormed(g) && OpenPath(g, p) && i < |p| && Evident(g, p[i]) && Dim(g, c, p[..i])
    ensures p[i] !in c
  {
    hide Evident, ComesUp, Waits;
  }

  /** Asking the questions of a blind path one inside the other leaves the last one marked False. */
  lemma {:induction false} FollowPath(g: Graph, all: set<Key>, c: Cache, p: seq<Key>, i: nat)
    requires WellFormed(g) && Universe(g, all) && BlindPath(g, p) && i < |p| && p[i] in all
    requires Dim(g, c, p[..i])
    ensures var last, o := p[|p| - 1], Query(g, all, c, p[i]); last in o.cache && !o.cache[last]
    decreases |p| - i, 1
  {
    hide Tests, Evident, Dim, AllBlocked, ComesUp;
    var k := p[i];
    PathIsEvident(g, p, i);
    NotYetAsked(g, c, p, i);
    DimWhileOpen(g, c, p, i);
    KnowsTests(g, all, k);
    var c' := c[k := false];
    if i == |p| - 1 {
      assert p[..i + 1] == p && Tests(g, k) + [] == Tests(g, k);
      var c'' := BlockedScanStaysDim(g, all, c', p, p, Tests(g, k), []);
    } else {
      FollowNext(g, all, c', p, i);
    }
  }

  lemma {:induction false} FollowNext(g: Graph, all: set<Key>, c: Cache, p: seq<Key>, i: nat)
    requires WellFormed(g) && Universe(g, all) && BlindPath(g, p) && i < |p| - 1 && p[i] in all
    requires Dim(g, c, p[..i + 1]) && TestsKnown(all, Tests(g, p[i]))
    ensures var last, o := p[|p| - 1], Scan(g, all, c, Tests(g, p[i])); last in o.cache && !o.cache[last]
    decreases |p| - i, 0
  {
    hide Tests, Evident, Dim, AllBlocked;
    var k, k', last := p[i], p[i + 1], p[|p| - 1];
    assert ComesUp(g, p[..i + 1], p[i + 1 - 1], k');
    var pre, rest :| Tests(g, k) == pre + [Ask(k')] + rest && AllBlocked(g, p[..i + 1], pre);
    var tests := [Ask(k')] + rest;
    assert Tests(g, k) == pre + tests && tests[1..] == rest;
    var c' := BlockedScanStaysDim(g, all, c, p[..i + 1], p[..i + 1], pre, tests);
    assert tests[0] in tests && k' in all;
    FollowPath(g, all, c', p, i + 1);
    var o := Query(g, all, c', k');
    if !o.answer {
      assert TestsKnown(all, rest);
      EntriesStayInScan(g, all, o.cache, rest);
    }
  }

  /** Asked after the first question of a blind path, the last one is reported fresh though it is stale. */
  lemma {:induction false} BlindPathMisleads(g: Graph, all: set<Key>, p: seq<Key>)
    requires WellFormed(g) && Universe(g, all) && BlindPath(g, p) && p[0] in all
    ensures p[|p| - 1] in all && Evident(g, p[|p| - 1])
    ensures var answers := Answers(g, all, map[], [p[0], p[|p| - 1]]); |answers| == 2 && !answers[1]
  {
    hide Tests, Evident, AllBlocked, ComesUp;
    var last := p[|p| - 1];
    PathIsKnown(g, all, p, |p| - 1);
    assert p[..0] == [];
    FollowPath(g, all, map[], p, 0);
    var ks := [p[0], last];
    assert ks[1..] == [last] && [last][1..] == [];
    AnswersLength(g, all, map[], ks);
  }

  lemma {:induction false} PathIsKnown(g: Graph, all: set<Key>, p: seq<Key>, i: nat)
    requires WellFormed(g) && Universe(g, all) && OpenPath(g, p) && i < |p| && p[0] in all
    ensures p[i] in all
  {
    hide Tests, AllBlocked;
    if i > 0 {
      PathIsKnown(g, all, p, i - 1);
      assert ComesUp(g, p[..i], p[i - 1], p[i]);
      assert Asks(g, p[i - 1], p[i]);
    }
  }

  /** The answer to each question, in the order they are asked, is whether there is evidence. */
  ghost predicate AnsweredRight(g: Graph, all: set<Key>, ks: seq<Key>)
    requires WellFormed(g) && Universe(g, all) && forall k <- ks :: k in all
  {
    |Answers(g, all, map[], ks)| == |ks|
    && forall i :: 0 <= i < |ks| ==> (Answers(g, all, map[], ks)[i] <==> Evident(g, ks[i]))
  }

  /** The cache is transparent, for every series of questions, exactly where there is no blind path. */
  lemma {:induction false} TransparentExactly(g: Graph, all: set<Key>)
    requires WellFormed(g) && Universe(g, all)
    ensures (forall ks :: (forall k <- ks :: k in all) ==> AnsweredRight(g, all, ks)) <==> NoBlindPath(g, all)
  {
    hide Tests, Evident, OpenPath, AllBlocked;
    if NoBlindPath(g, all) {
      forall ks | forall k <- ks :: k in all ensures AnsweredRight(g, all, ks) {
        AnswersLength(g, all, map[], ks);
        forall i | 0 <= i < |ks| ensures Answers(g, all, map[], ks)[i] <==> Evident(g, ks[i]) {
          AnswersAreExact(g, all, map[], ks, i);
        }
      }
    }
    if forall ks :: (forall k <- ks :: k in all) ==> AnsweredRight(g, all, ks) {
      forall p | BlindPath(g, p) ensures p[0] !in all { NotMisled(g, all, p); }
    }
  }

  lemma {:induction false} NotMisled(g: Graph, all: set<Key>, p: seq<Key>)
    requires WellFormed(g) && Universe(g, all) && BlindPath(g, p)
    requires forall ks :: (forall k <- ks :: k in all) ==> AnsweredRight(g, all, ks)
    ensures p[0] !in all
  {
    hide Tests, Evident;
    var ks := [p[0], p[|p| - 1]];
    if p[0] in all { PathIsKnown(g, all, p, |p| - 1); }
    assert p[0] in all ==> AnsweredRight(g, all, ks);
    if p[0] in all { BlindPathMisleads(g, all, p); }
  }

  //////////////////// Stale cycles are needed ////////////////////

  lemma {:induction false} RankFalls(g: Graph, rank: Key -> nat, p: seq<Key>, i: nat)
    requires WellFormed(g) && OpenPath(g, p) && Ranked(g, rank) && i < |p|
    ensures rank(p[|p| - 1]) <= rank(p[i])
    decreases |p| - i
  {
    hide Tests, Waits, AllBlocked;
    if i < |p| - 1 {
      RankFalls(g, rank, p, i + 1);
      assert ComesUp(g, p[..i + 1], p[i], p[i + 1]);
      assert Leads(g, p[i], p[i + 1]);
    }
  }

  /** Without cycles among stale questions there are no blind paths. */
  lemma {:induction false} RankedIsNotBlind(g: Graph, rank: Key -> nat, p: seq<Key>)
    requires WellFormed(g) && Ranked(g, rank)
    ensures !BlindPath(g, p)
  {
    hide Tests, ComesUp;
    if BlindPath(g, p) {
      var last := p[|p| - 1];
      TestsDecide(g, last);
      hide Evident;
      var t :| t in Tests(g, last) && Positive(g, t);
      assert Blocked(g, p, t);
      var i :| 0 <= i < |p| && p[i] == t.key;
      assert Leads(g, last, t.key);
      RankFalls(g, rank, p, i);
    }
  }
}
