/**
 * Liveness is exact: a reference is live if and only if some path through the cell reads it before
 * killing it, and dead if and only if every path kills it.
 */
module LivenessExact {
  import opened Wrappers
  import opened Liveness
  import opened LivePaths

  //////////////////// Dead: killed on every path ////////////////////

  ghost predicate StmtSpares(p: Stmt, level: nat, k: nat, r: Ref) {
    exists t :: PathOf(p, level, k, t) && !KillsOn(t, r)
  }

  ghost predicate BlockSpares(b: seq<Stmt>, level: nat, k: nat, r: Ref) {
    exists t :: BlockPath(b, level, k, t) && !KillsOn(t, r)
  }

  ghost predicate RoundSpares(p: Stmt, level: nat, k: nat, r: Ref)
    requires p.While? || p.For?
  {
    exists t :: Round(p, level, k, t) && !KillsOn(t, r)
  }

  lemma {:induction false} NoKillsOnOne(ev: Event, r: Ref)
    ensures KillsOn([ev], r) <==> Kills(ev, r)
  {
    if Kills(ev, r) { assert Kills([ev][0], r); }
  }

  lemma {:induction false} AssignDead(p: Stmt, targets: seq<Target>, value: Option<Expr>, level: nat, k: nat,
                                      dead: set<Ref>, keep: bool, r: Ref)
    requires (p == Assign(targets, if value.Some? then value.value else Literal(0)) && value.Some?)
             || (exists x :: p == Annotate(x, value) && targets == [NameTarget(x)])
    requires r.path == [] || ApartValue(targets, value, r.name)
    ensures r in AssignEffect(targets, value, dead, k, keep).dead <==> r in dead || !StmtSpares(p, level, k, r)
  {
    var ev := SomeAssignEvent(targets, value, level, k);
    AssignedExactly(targets, value, r);
    if value.Some? { ExprRefsExactly(value.value, dead, k, keep, r); }
    NoKillsOnOne(ev, r);
    hide ExprLive, ReadRefs, TargetsRefs, ElementRefs, InTargets;
    assert PathOf(p, level, k, [ev]);
    forall t | PathOf(p, level, k, t) ensures KillsOn(t, r) <==> Kills(ev, r) {
      assert t == [t[0]];
      NoKillsOnOne(t[0], r);
    }
    ReadElementNotAssigned(targets, value, r);
  }

  lemma {:induction false} ReadElementNotAssigned(targets: seq<Target>, value: Option<Expr>, r: Ref)
    requires r.path == [] || ApartValue(targets, value, r.name)
    ensures r.path != [] && AssignsRef(targets, value, r) ==> value.Some? && r !in ReadRefs(value.value)
  {
  }

  lemma {:induction false} TailSpares(t: Path, ev: Event, r: Ref)
    requires t != [] && t[0] == ev && !Kills(ev, r)
    ensures KillsOn(t, r) <==> KillsOn(t[1..], r)
  {
    hide Kills;
    assert t == [ev] + t[1..];
    KillsOnBoth([ev], t[1..], r);
    NoKillsOnOne(ev, r);
  }

  lemma {:induction false} IfSpares(p: Stmt, level: nat, k: nat, r: Ref)
    requires p.If?
    ensures StmtSpares(p, level, k, r)
            <==> BlockSpares(p.body, level + 1, k, r) || BlockSpares(p.orelse, level + 1, k, r)
  {
    hide KillsOn, BlockPath;
    if t :| PathOf(p, level, k, t) && !KillsOn(t, r) { TailSpares(t, HeadEvent(p, level, k), r); }
    if u :| (BlockPath(p.body, level + 1, k, u) || BlockPath(p.orelse, level + 1, k, u)) && !KillsOn(u, r) {
      var t := [HeadEvent(p, level, k)] + u;
      assert t[1..] == u;
      TailSpares(t, HeadEvent(p, level, k), r);
      assert PathOf(p, level, k, t);
    }
  }

  lemma {:induction false} LoopIsPath(p: Stmt, level: nat, k: nat, t: Path)
    requires p.While? || p.For?
    ensures PathOf(p, level, k, t) <==> LoopPath(p, level, k, t)
  {
  }

  lemma {:induction false} RoundsSpare(p: Stmt, level: nat, k: nat, n: nat, t: Path, r: Ref)
    requires (p.While? || p.For?) && Rounds(p, level, k, n, t) && !KillsOn(t, r)
    ensures RoundSpares(p, level, k, r)
  {
    hide Round;
    if n > 0 {
      var m :| 0 <= m < |t| && Round(p, level, k, t[..m]) && t[m] == NextRound(p, level, k)
               && Rounds(p, level, k, n - 1, t[m + 1..]);
      assert t == t[..m] + t[m..];
      KillsOnBoth(t[..m], t[m..], r);
    }
  }

  lemma {:induction false} LoopSpares(p: Stmt, level: nat, k: nat, r: Ref)
    requires p.While? || p.For?
    ensures StmtSpares(p, level, k, r) <==> RoundSpares(p, level, k, r) || BlockSpares(p.orelse, level + 1, k, r)
  {
    hide KillsOn, BlockPath, Round, PathOf;
    if t :| PathOf(p, level, k, t) && !KillsOn(t, r) {
      LoopIsPath(p, level, k, t);
      TailSpares(t, HeadEvent(p, level, k), r);
      if !BlockPath(p.orelse, level + 1, k, t[1..]) {
        assert SomeRounds(p, level, k, t[1..]);
        var n: nat :| Rounds(p, level, k, n, t[1..]);
        RoundsSpare(p, level, k, n, t[1..], r);
      }
    }
    if u :| (BlockPath(p.orelse, level + 1, k, u) || Round(p, level, k, u)) && !KillsOn(u, r) {
      var t := [HeadEvent(p, level, k)] + u;
      assert t[1..] == u;
      TailSpares(t, HeadEvent(p, level, k), r);
      AfterHead(p, level, k, u);
    }
  }

  /** A loop's head followed by one round, or by the else part. */
  lemma {:induction false} AfterHead(p: Stmt, level: nat, k: nat, u: Path)
    requires p.While? || p.For?
    requires BlockPath(p.orelse, level + 1, k, u) || Round(p, level, k, u)
    ensures PathOf(p, level, k, [HeadEvent(p, level, k)] + u)
  {
    hide BlockPath, Round, PathOf;
    var t := [HeadEvent(p, level, k)] + u;
    assert t[1..] == u;
    if Round(p, level, k, u) { assert Rounds(p, level, k, 0, u) && SomeRounds(p, level, k, u); }
    LoopIsPath(p, level, k, t);
  }

  lemma {:induction false} SomeBoundEvent(p: Stmt, level: nat, k: nat) returns (ev: Event)
    requires p.For?
    ensures BoundEvent(p, level, k, ev) && ev.stored == Bound(p)
  {
    ev := Event({}, TargetRefs(p.target), level + 1, k);
    forall r ensures r in ev.stored <==> r.path == [] && InTarget(r.name, p.target) { TargetRefsExactly(p.target, r); }
  }

  /** A round spares what its block spares, save what it binds. */
  lemma {:induction false} RoundSparesBody(p: Stmt, level: nat, k: nat, r: Ref)
    requires p.While? || p.For?
    ensures RoundSpares(p, level, k, r) <==> r !in Bound(p) && BlockSpares(p.body, level + 1, k, r)
  {
    hide KillsOn, BlockPath, TargetRefs;
    if p.For? {
      var ev := SomeBoundEvent(p, level, k);
      if t :| Round(p, level, k, t) && !KillsOn(t, r) {
        BoundOnly(p, level, k, t, r);
        TailSpares(t, t[0], r);
      }
      if u :| r !in Bound(p) && BlockPath(p.body, level + 1, k, u) && !KillsOn(u, r) {
        var t := [ev] + u;
        assert t[1..] == u;
        TailSpares(t, ev, r);
        assert Round(p, level, k, t);
      }
    }
  }

  lemma {:induction false} BoundOnly(p: Stmt, level: nat, k: nat, t: Path, r: Ref)
    requires p.For? && Round(p, level, k, t) && !KillsOn(t, r)
    ensures r !in Bound(p) && !Kills(t[0], r)
  {
    TargetRefsExactly(p.target, r);
    assert !Kills(t[0], r);
  }

  lemma {:induction false} StmtDead(p: Stmt, level: nat, k: nat, dead: set<Ref>, keep: bool, r: Ref)
    requires Plain(p, r)
    ensures r in StmtEffect(p, dead, k, keep).dead <==> r in dead || !StmtSpares(p, level, k, r)
    decreases p, 1
  {
    hide BlockEffect, BlockSpares, ExprLive, TargetRefs, RoundSpares;
    match p {
      case Evaluate(e) => ReadsOnlySpares(p, Event(ReadRefs(e), {}, level, k), level, k, r);
      case Assign(targets, e) => AssignDead(p, targets, Some(e), level, k, dead, keep, r);
      case Annotate(x, init) => AssignDead(p, [NameTarget(x)], init, level, k, dead, keep, r);
      case Augment(x, _, e) => ReadsOnlySpares(p, Event({Ref(x, [])} + ReadRefs(e), {}, level, k), level, k, r);
      case If(_, body, orelse) =>
        BlockDead(body, level + 1, k, {}, keep, r);
        BlockDead(orelse, level + 1, k, {}, keep, r);
        IfSpares(p, level, k, r);
      case While(_, _, _) => LoopDead(p, level, k, dead, keep, r);
      case For(_, _, _, _) => LoopDead(p, level, k, dead, keep, r);
    }
  }

  lemma {:induction false} LoopDead(p: Stmt, level: nat, k: nat, dead: set<Ref>, keep: bool, r: Ref)
    requires (p.While? || p.For?) && Plain(p, r)
    ensures r in StmtEffect(p, dead, k, keep).dead <==> r in dead || !StmtSpares(p, level, k, r)
    decreases p, 0
  {
    hide BlockEffect, BlockSpares, ExprLive, TargetRefs, RoundSpares, StmtSpares;
    BlockDead(p.body, level + 1, k, Bound(p), keep, r);
    BlockDead(p.orelse, level + 1, k, {}, keep, r);
    LoopSpares(p, level, k, r);
    RoundSparesBody(p, level, k, r);
  }

  lemma {:induction false} ReadsOnlySpares(p: Stmt, ev: Event, level: nat, k: nat, r: Ref)
    requires (forall t :: PathOf(p, level, k, t) <==> t == [ev]) && ev.stored == {}
    ensures StmtSpares(p, level, k, r)
  {
    hide PathOf;
    NoKillsOnOne(ev, r);
    assert PathOf(p, level, k, [ev]);
  }

  lemma {:induction false} BlockSparesBoth(b: seq<Stmt>, level: nat, k: nat, r: Ref)
    requires b != []
    ensures BlockSpares(b, level, k, r) <==> StmtSpares(b[0], level, k, r) && BlockSpares(b[1..], level, k, r)
  {
    hide KillsOn, PathOf;
    if t :| BlockPath(b, level, k, t) && !KillsOn(t, r) {
      var m :| 0 <= m <= |t| && PathOf(b[0], level, k, t[..m]) && BlockPath(b[1..], level, k, t[m..]);
      assert t == t[..m] + t[m..];
      KillsOnBoth(t[..m], t[m..], r);
    }
    if StmtSpares(b[0], level, k, r) && BlockSpares(b[1..], level, k, r) {
      var t1 :| PathOf(b[0], level, k, t1) && !KillsOn(t1, r);
      var t2 :| BlockPath(b[1..], level, k, t2) && !KillsOn(t2, r);
      JoinPaths(b, level, k, t1, t2);
      KillsOnBoth(t1, t2, r);
    }
  }

  /** A reference is dead after a block if and only if it was, or every path through the block kills it. */
  lemma {:induction false} BlockDead(b: seq<Stmt>, level: nat, k: nat, dead: set<Ref>, keep: bool, r: Ref)
    requires PlainIn(b, r)
    ensures r in BlockEffect(b, dead, k, keep).dead <==> r in dead || !BlockSpares(b, level, k, r)
    decreases b, 0
  {
    hide StmtEffect, StmtSpares;
    if b == [] {
      assert BlockPath(b, level, k, []) && !KillsOn([], r);
    } else {
      StmtDead(b[0], level, k, dead, keep, r);
      BlockDead(b[1..], level, k, StmtEffect(b[0], dead, k, keep).dead, keep, r);
      BlockSparesBoth(b, level, k, r);
    }
  }

  //////////////////// Live: read on some path before being killed ////////////////////

  /** Step `n` of `t` reads `r` live; if it does so in the block itself, the name must not be in `dead`. */
  predicate ReadAt(t: Path, n: nat, level: nat, dead: set<Ref>, r: Ref) {
    LiveOn(t, n, r) && (t[n].level == level ==> NameOf(r) !in dead)
  }

  ghost predicate StmtReads(p: Stmt, level: nat, k: nat, dead: set<Ref>, r: Ref) {
    exists t, n: nat :: PathOf(p, level, k, t) && ReadAt(t, n, level, dead, r)
  }

  ghost predicate BlockReads(b: seq<Stmt>, level: nat, k: nat, dead: set<Ref>, r: Ref) {
    exists t, n: nat :: BlockPath(b, level, k, t) && ReadAt(t, n, level, dead, r)
  }

  ghost predicate RoundReads(p: Stmt, level: nat, k: nat, r: Ref)
    requires p.While? || p.For?
  {
    exists t, n: nat :: Round(p, level, k, t) && LiveOn(t, n, r)
  }

  lemma {:induction false} FirstStep(t: Path, r: Ref)
    requires t != []
    ensures LiveOn(t, 0, r) <==> r in t[0].used
  {
  }

  /** Statements of one step read what that step uses. */
  lemma {:induction false} OneStepReads(p: Stmt, ev: Event, level: nat, k: nat, dead: set<Ref>, r: Ref)
    requires PathOf(p, level, k, [ev])
    requires forall t: Path :: PathOf(p, level, k, t) ==> |t| == 1 && t[0].used == ev.used && t[0].level == level
    ensures StmtReads(p, level, k, dead, r) <==> r in ev.used && NameOf(r) !in dead
  {
    hide PathOf, LiveOn;
    FirstStep([ev], r);
    assert ReadAt([ev], 0, level, dead, r) <==> r in ev.used && NameOf(r) !in dead;
    if t, n: nat :| PathOf(p, level, k, t) && ReadAt(t, n, level, dead, r) {
      LiveOnIsStep(t, n, r);
      FirstStep(t, r);
    }
  }

  lemma {:induction false} LiveOnIsStep(t: Path, n: nat, r: Ref)
    requires LiveOn(t, n, r)
    ensures n < |t| && r in t[n].used
  {
  }

  lemma {:induction false} ExprLiveRefs(e: Expr, dead: set<Ref>, k: nat, keep: bool, r: Ref)
    ensures LiveRef(r, k, false) in ExprLive(e, false, dead, k, keep) <==>
            r in ReadRefs(e) && r !in dead && NameOf(r) !in dead
  {
    ExprLiveExactly(e, false, dead, k, keep, LiveRef(r, k, false));
    hide ExprLive, ReadRefs;
  }

  lemma {:induction false} AssignLive(p: Stmt, targets: seq<Target>, value: Option<Expr>, level: nat, k: nat,
                                      dead: set<Ref>, keep: bool, r: Ref)
    requires (p == Assign(targets, if value.Some? then value.value else Literal(0)) && value.Some?)
             || (exists x :: p == Annotate(x, value) && targets == [NameTarget(x)])
    ensures LiveRef(r, k, false) in AssignEffect(targets, value, dead, k, keep).live
            <==> r !in dead && StmtReads(p, level, k, dead, r)
  {
    var ev := SomeAssignEvent(targets, value, level, k);
    if value.Some? { ExprLiveRefs(value.value, dead, k, keep, r); }
    hide ExprLive, ReadRefs, TargetsRefs, ElementRefs, InTargets;
    OneStepReads(p, ev, level, k, dead, r);
  }

  lemma {:induction false} StmtLive(p: Stmt, level: nat, k: nat, dead: set<Ref>, keep: bool, r: Ref)
    requires Plain(p, r)
    ensures LiveRef(r, k, false) in StmtEffect(p, dead, k, keep).live <==> r !in dead && StmtReads(p, level, k, dead, r)
    decreases p, 1
  {
    hide BlockEffect, ExprLive, StmtReads, ReadRefs;
    match p {
      case Evaluate(e) =>
        ExprLiveRefs(e, dead, k, keep, r);
        OneStepReads(p, Event(ReadRefs(e), {}, level, k), level, k, dead, r);
      case Assign(targets, e) => AssignLive(p, targets, Some(e), level, k, dead, keep, r);
      case Annotate(x, init) => AssignLive(p, [NameTarget(x)], init, level, k, dead, keep, r);
      case Augment(x, _, e) =>
        ExprLiveRefs(Var(x), dead, k, keep, r);
        ExprLiveRefs(e, dead, k, keep, r);
        assert ReadRefs(Var(x)) == {Ref(x, [])} by { ReadsVar(x); }
        OneStepReads(p, Event({Ref(x, [])} + ReadRefs(e), {}, level, k), level, k, dead, r);
      case If(_, _, _) => BranchLive(p, level, k, dead, keep, r);
      case While(_, _, _) => BranchLive(p, level, k, dead, keep, r);
      case For(_, _, _, _) => BranchLive(p, level, k, dead, keep, r);
    }
  }

  lemma {:induction false} ReadsVar(x: Name)
    ensures ReadRefs(Var(x)) == {Ref(x, [])}
  {
  }

  /** What the body of a branch or loop adds. */
  ghost predicate BodyReads(p: Stmt, level: nat, k: nat, r: Ref)
    requires p.If? || p.While? || p.For?
  {
    if p.If? then BlockReads(p.body, level + 1, k, {}, r) else RoundReads(p, level, k, r)
  }

  lemma {:induction false} BranchLive(p: Stmt, level: nat, k: nat, dead: set<Ref>, keep: bool, r: Ref)
    requires (p.If? || p.While? || p.For?) && Plain(p, r)
    ensures LiveRef(r, k, false) in StmtEffect(p, dead, k, keep).live <==> r !in dead && StmtReads(p, level, k, dead, r)
    decreases p, 0
  {
    hide BlockEffect, ExprLive, StmtReads, BlockReads, RoundReads, ReadRefs, TargetRefs;
    ExprLiveRefs(Head(p), dead, k, keep, r);
    BlockLive(p.body, level + 1, k, Bound(p), keep, r);
    BlockLive(p.orelse, level + 1, k, {}, keep, r);
    if !p.If? { RoundReadsBody(p, level, k, r); }
    BranchReads(p, level, k, dead, r);
  }

  /** A step after the head of a branch is live exactly if it is live without the head. */
  lemma {:induction false} AfterHeadLive(t: Path, n: nat, r: Ref)
    requires t != [] && t[0].stored == {} && 1 <= n < |t|
    ensures LiveOn(t, n, r) <==> LiveOn(t[1..], n - 1, r)
  {
    assert t == [t[0]] + t[1..];
    LiveOnSecond([t[0]], t[1..], n - 1, r);
    hide LiveOn;
    assert !KillsOn([t[0]], r) && !KilledSince([t[0]], t[1..][n - 1].level, NameOf(r));
  }

  lemma {:induction false} BranchReads(p: Stmt, level: nat, k: nat, dead: set<Ref>, r: Ref)
    requires p.If? || p.While? || p.For?
    ensures StmtReads(p, level, k, dead, r) <==>
            || (r in ReadRefs(Head(p)) && NameOf(r) !in dead)
            || BodyReads(p, level, k, r) || BlockReads(p.orelse, level + 1, k, {}, r)
  {
    hide PathOf, LiveOn, BodyReads, BlockReads, ReadRefs;
    if t, n: nat :| PathOf(p, level, k, t) && ReadAt(t, n, level, dead, r) {
      BranchReadsOnly(p, level, k, dead, t, n, r);
    }
    if r in ReadRefs(Head(p)) && NameOf(r) !in dead {
      var t := ThroughElse(p, level, k);
      FirstStep(t, r);
      assert ReadAt(t, 0, level, dead, r);
    }
    if BlockReads(p.orelse, level + 1, k, {}, r) { ElseReads(p, level, k, dead, r); }
    if BodyReads(p, level, k, r) { BodyReadsToo(p, level, k, dead, r); }
  }

  lemma {:induction false} ElseReads(p: Stmt, level: nat, k: nat, dead: set<Ref>, r: Ref)
    requires (p.If? || p.While? || p.For?) && BlockReads(p.orelse, level + 1, k, {}, r)
    ensures StmtReads(p, level, k, dead, r)
  {
    hide LiveOn, BlockPath;
    var u, n: nat :| BlockPath(p.orelse, level + 1, k, u) && ReadAt(u, n, level + 1, {}, r);
    var t := [HeadEvent(p, level, k)] + u;
    assert t[1..] == u;
    LiveOnIsStep(u, n, r);
    AfterHeadLive(t, n + 1, r);
    BlockLevels(p.orelse, level + 1, k, u);
    if p.If? { assert PathOf(p, level, k, t); } else { AfterHead(p, level, k, u); }
    assert ReadAt(t, n + 1, level, dead, r);
  }

  lemma {:induction false} BodyReadsToo(p: Stmt, level: nat, k: nat, dead: set<Ref>, r: Ref)
    requires (p.If? || p.While? || p.For?) && BodyReads(p, level, k, r)
    ensures StmtReads(p, level, k, dead, r)
  {
    hide LiveOn, BlockPath, Round;
    var u: Path, n: nat;
    if p.If? {
      u, n :| BlockPath(p.body, level + 1, k, u) && ReadAt(u, n, level + 1, {}, r);
      BlockLevels(p.body, level + 1, k, u);
    } else {
      u, n :| Round(p, level, k, u) && LiveOn(u, n, r);
      RoundLevels(p, level, k, u);
    }
    var t := [HeadEvent(p, level, k)] + u;
    assert t[1..] == u;
    LiveOnIsStep(u, n, r);
    AfterHeadLive(t, n + 1, r);
    if p.If? { assert PathOf(p, level, k, t); } else { AfterHead(p, level, k, u); }
    assert ReadAt(t, n + 1, level, dead, r);
  }

  lemma {:induction false} BranchReadsOnly(p: Stmt, level: nat, k: nat, dead: set<Ref>, t: Path, n: nat, r: Ref)
    requires p.If? || p.While? || p.For?
    requires PathOf(p, level, k, t) && ReadAt(t, n, level, dead, r)
    ensures || (r in ReadRefs(Head(p)) && NameOf(r) !in dead)
            || BodyReads(p, level, k, r) || BlockReads(p.orelse, level + 1, k, {}, r)
  {
    hide LiveOn, BlockPath, Rounds, ReadRefs;
    LiveOnIsStep(t, n, r);
    if n == 0 {
      FirstStep(t, r);
    } else {
      AfterHeadLive(t, n, r);
      var u := t[1..];
      if p.If? {
        assert ReadAt(u, n - 1, level + 1, {}, r);
      } else {
        LoopIsPath(p, level, k, t);
        if BlockPath(p.orelse, level + 1, k, u) {
          assert ReadAt(u, n - 1, level + 1, {}, r);
        } else {
          assert SomeRounds(p, level, k, u);
          var m: nat :| Rounds(p, level, k, m, u);
          RoundsRead(p, level, k, m, u, n - 1, dead, r);
        }
      }
    }
  }

  lemma {:induction false} NextRoundReads(p: Stmt, level: nat, k: nat, r: Ref)
    requires p.While? || p.For?
    ensures var ev := NextRound(p, level, k);
            ev.level == level && (r in ev.used ==> r in ReadRefs(Head(p)))
  {
  }

  /** What is live somewhere in several rounds is live in one, or in the head. */
  lemma {:induction false} RoundsRead(p: Stmt, level: nat, k: nat, m: nat, t: Path, n: nat, dead: set<Ref>, r: Ref)
    requires (p.While? || p.For?) && Rounds(p, level, k, m, t) && ReadAt(t, n, level, dead, r)
    ensures (r in ReadRefs(Head(p)) && NameOf(r) !in dead) || RoundReads(p, level, k, r)
    decreases m
  {
    hide LiveOn, Round, Rounds, ReadRefs, NextRound;
    LiveOnIsStep(t, n, r);
    if m == 0 {
      assert Round(p, level, k, t) by { LastRound(p, level, k, t); }
    } else {
      var j := FirstRound(p, level, k, m, t);
      if n < j {
        assert t == t[..j] + t[j..];
        LiveOnFirst(t[..j], t[j..], n, r);
      } else if n > j {
        assert t == t[..j + 1] + t[j + 1..];
        LiveOnSecond(t[..j + 1], t[j + 1..], n - j - 1, r);
        RoundsRead(p, level, k, m - 1, t[j + 1..], n - j - 1, dead, r);
      } else {
        NextRoundReads(p, level, k, r);
      }
    }
  }

  lemma {:induction false} RoundReadsBody(p: Stmt, level: nat, k: nat, r: Ref)
    requires p.While? || p.For?
    ensures RoundReads(p, level, k, r) <==> r !in Bound(p) && BlockReads(p.body, level + 1, k, Bound(p), r)
  {
    if p.While? { WhileRoundReads(p, level, k, r); } else { ForRoundReads(p, level, k, r); }
  }

  lemma {:induction false} WhileRoundReads(p: Stmt, level: nat, k: nat, r: Ref)
    requires p.While?
    ensures RoundReads(p, level, k, r) <==> BlockReads(p.body, level + 1, k, {}, r)
  {
    hide LiveOn, BlockPath;
    if t, n: nat :| Round(p, level, k, t) && LiveOn(t, n, r) {
      LiveOnIsStep(t, n, r);
      assert ReadAt(t, n, level + 1, {}, r);
    }
    if BlockReads(p.body, level + 1, k, {}, r) {
      var t: Path, n: nat :| BlockPath(p.body, level + 1, k, t) && ReadAt(t, n, level + 1, {}, r);
      assert Round(p, level, k, t);
    }
  }

  /** After the step that binds the targets, a read is live if it is live without it, and what it reads,
      or in the same block its name, is not bound. */
  lemma {:induction false} AfterBoundLive(p: Stmt, level: nat, k: nat, ev: Event, u: Path, n: nat, r: Ref)
    requires p.For? && BoundEvent(p, level, k, ev) && BlockPath(p.body, level + 1, k, u) && n < |u|
    ensures LiveOn([ev] + u, n + 1, r) <==> r !in Bound(p) && ReadAt(u, n, level + 1, Bound(p), r)
  {
    hide BlockPath, LiveOn, TargetRefs;
    LiveOnSecond([ev], u, n, r);
    BlockLevels(p.body, level + 1, k, u);
    NoKillsOnOne(ev, r);
    TargetRefsExactly(p.target, r);
    TargetRefsExactly(p.target, NameOf(r));
    BoundSince(ev, u, n, level + 1, NameOf(r));
  }

  lemma {:induction false} BoundSince(ev: Event, u: Path, n: nat, level: nat, x: Ref)
    requires n < |u| && ev.used == {} && ev.level == level && u[0].level == level
    requires forall i :: 0 <= i < |u| ==> u[i].level >= level
    ensures NotLeft(u[..n], 0, u[n].level) && KilledSince([ev], u[n].level, x)
            <==> u[n].level == level && x in ev.stored
  {
    if u[n].level == level && x in ev.stored {
      assert Kills([ev][0], x) && NotLeft([ev], 0, level);
    }
    if n > 0 { assert u[..n][0].level == u[0].level; }
  }

  lemma {:induction false} ForRoundReads(p: Stmt, level: nat, k: nat, r: Ref)
    requires p.For?
    ensures RoundReads(p, level, k, r) <==> r !in Bound(p) && BlockReads(p.body, level + 1, k, Bound(p), r)
  {
    hide LiveOn, BlockPath, TargetRefs;
    var ev := SomeBoundEvent(p, level, k);
    if t, n: nat :| Round(p, level, k, t) && LiveOn(t, n, r) {
      LiveOnIsStep(t, n, r);
      assert t == [t[0]] + t[1..] && n > 0;
      AfterBoundLive(p, level, k, t[0], t[1..], n - 1, r);
    }
    if r !in Bound(p) && BlockReads(p.body, level + 1, k, Bound(p), r) {
      var u: Path, n: nat :| BlockPath(p.body, level + 1, k, u) && ReadAt(u, n, level + 1, Bound(p), r);
      LiveOnIsStep(u, n, r);
      AfterBoundLive(p, level, k, ev, u, n, r);
      assert ([ev] + u)[1..] == u && Round(p, level, k, [ev] + u);
    }
  }

  /** A reference is live in a block if and only if it was not dead and some path reads it live. */
  lemma {:induction false} BlockLive(b: seq<Stmt>, level: nat, k: nat, dead: set<Ref>, keep: bool, r: Ref)
    requires PlainIn(b, r)
    ensures LiveRef(r, k, false) in BlockEffect(b, dead, k, keep).live
            <==> r !in dead && BlockReads(b, level, k, dead, r)
    decreases b, 0
  {
    hide StmtEffect, StmtReads, BlockReads, StmtSpares;
    if b == [] {
      EmptyReadsNothing(level, k, dead, r);
    } else {
      var first := StmtEffect(b[0], dead, k, keep);
      StmtLive(b[0], level, k, dead, keep, r);
      StmtDead(b[0], level, k, dead, keep, r);
      StmtDead(b[0], level, k, dead, keep, NameOf(r));
      BlockLive(b[1..], level, k, first.dead, keep, r);
      if r !in dead { ConsReads(b, level, k, dead, first.dead, r); }
    }
  }

  lemma {:induction false} EmptyReadsNothing(level: nat, k: nat, dead: set<Ref>, r: Ref)
    ensures !BlockReads([], level, k, dead, r)
  {
  }

  lemma {:induction false} ConsReads(b: seq<Stmt>, level: nat, k: nat, dead: set<Ref>, dead': set<Ref>, r: Ref)
    requires b != [] && PlainIn(b, r) && r !in dead
    requires r in dead' <==> !StmtSpares(b[0], level, k, r)
    requires NameOf(r) in dead' <==> NameOf(r) in dead || !StmtSpares(b[0], level, k, NameOf(r))
    ensures BlockReads(b, level, k, dead, r) <==>
            StmtReads(b[0], level, k, dead, r) || (r !in dead' && BlockReads(b[1..], level, k, dead', r))
  {
    hide StmtReads, BlockReads, StmtSpares, PathOf, LiveOn, KillsOn;
    if BlockReads(b, level, k, dead, r) { ConsReadsOnly(b, level, k, dead, dead', r); }
    if StmtReads(b[0], level, k, dead, r) { FirstReads(b, level, k, dead, r); }
    if r !in dead' && BlockReads(b[1..], level, k, dead', r) { RestReads(b, level, k, dead, dead', r); }
  }

  lemma {:induction false} FirstReads(b: seq<Stmt>, level: nat, k: nat, dead: set<Ref>, r: Ref)
    requires b != [] && StmtReads(b[0], level, k, dead, r)
    ensures BlockReads(b, level, k, dead, r)
  {
    hide PathOf, LiveOn, BlockPath;
    var t1, n: nat :| PathOf(b[0], level, k, t1) && ReadAt(t1, n, level, dead, r);
    var t2 := BlockHasPath(b[1..], level, k);
    JoinPaths(b, level, k, t1, t2);
    LiveOnIsStep(t1, n, r);
    LiveOnFirst(t1, t2, n, r);
    assert ReadAt(t1 + t2, n, level, dead, r);
  }

  /** The first part kills a name in the block exactly if it kills it at all, as long as the block is not left. */
  lemma {:induction false} SinceStart(t1: Path, t2: Path, n: nat, level: nat, x: Ref)
    requires n < |t2| && t2[0].level == level
    requires (forall i :: 0 <= i < |t1| ==> t1[i].level >= level) && forall i :: 0 <= i < |t2| ==> t2[i].level >= level
    ensures NotLeft(t2[..n], 0, t2[n].level) && KilledSince(t1, t2[n].level, x)
            <==> t2[n].level == level && KillsOn(t1, x)
  {
    if t2[n].level == level && KillsOn(t1, x) {
      var m :| 0 <= m < |t1| && Kills(t1[m], x);
      assert NotLeft(t1, m, level);
    }
    if n > 0 { assert t2[..n][0].level == t2[0].level; }
  }

  lemma {:induction false} RestReads(b: seq<Stmt>, level: nat, k: nat, dead: set<Ref>, dead': set<Ref>, r: Ref)
    requires b != [] && PlainIn(b, r) && r !in dead && r !in dead' && BlockReads(b[1..], level, k, dead', r)
    requires r in dead' <==> !StmtSpares(b[0], level, k, r)
    requires NameOf(r) in dead' <==> NameOf(r) in dead || !StmtSpares(b[0], level, k, NameOf(r))
    ensures BlockReads(b, level, k, dead, r)
  {
    hide PathOf, LiveOn, BlockPath, KillsOn;
    var t2: Path, n: nat :| BlockPath(b[1..], level, k, t2) && ReadAt(t2, n, level, dead', r);
    LiveOnIsStep(t2, n, r);
    BlockLevels(b[1..], level, k, t2);
    var t1: Path;
    if t2[n].level == level {
      t1 :| PathOf(b[0], level, k, t1) && !KillsOn(t1, NameOf(r));
      SparesElement(b[0], level, k, t1, r);
    } else {
      t1 :| PathOf(b[0], level, k, t1) && !KillsOn(t1, r);
    }
    StmtLevels(b[0], level, k, t1);
    JoinPaths(b, level, k, t1, t2);
    LiveOnSecond(t1, t2, n, r);
    SinceStart(t1, t2, n, level, NameOf(r));
    assert ReadAt(t1 + t2, |t1| + n, level, dead, r);
  }

  lemma {:induction false} ConsReadsOnly(b: seq<Stmt>, level: nat, k: nat, dead: set<Ref>, dead': set<Ref>, r: Ref)
    requires b != [] && BlockReads(b, level, k, dead, r)
    requires r in dead' <==> !StmtSpares(b[0], level, k, r)
    requires NameOf(r) in dead' <==> NameOf(r) in dead || !StmtSpares(b[0], level, k, NameOf(r))
    ensures StmtReads(b[0], level, k, dead, r) || (r !in dead' && BlockReads(b[1..], level, k, dead', r))
  {
    hide PathOf, LiveOn, KillsOn;
    var t, n: nat :| BlockPath(b, level, k, t) && ReadAt(t, n, level, dead, r);
    LiveOnIsStep(t, n, r);
    var m :| 0 <= m <= |t| && PathOf(b[0], level, k, t[..m]) && BlockPath(b[1..], level, k, t[m..]);
    hide BlockPath;
    var t1, t2 := t[..m], t[m..];
    assert t == t1 + t2;
    if n < m {
      LiveOnFirst(t1, t2, n, r);
      assert ReadAt(t1, n, level, dead, r);
    } else {
      StmtLevels(b[0], level, k, t1);
      BlockLevels(b[1..], level, k, t2);
      LiveOnSecond(t1, t2, n - m, r);
      SinceStart(t1, t2, n - m, level, NameOf(r));
      assert StmtSpares(b[0], level, k, r);
      assert t2[n - m].level == level && NameOf(r) !in dead ==> StmtSpares(b[0], level, k, NameOf(r));
      assert ReadAt(t2, n - m, level, dead', r);
    }
  }

  //////////////////// Whole cells ////////////////////

  ghost predicate ModuleSpares(b: seq<Stmt>, k: nat, r: Ref) { exists t :: ModulePath(b, k, t) && !KillsOn(t, r) }

  predicate StepOf(t: Path, n: nat, stmt: nat) { n < |t| && t[n].stmt == stmt }

  ghost predicate ModuleReads(b: seq<Stmt>, k: nat, dead: set<Ref>, r: Ref, stmt: nat) {
    exists t: Path, n: nat :: ModulePath(b, k, t) && ReadAt(t, n, 0, dead, r) && StepOf(t, n, stmt)
  }

  lemma {:induction false} JoinModule(b: seq<Stmt>, k: nat, t1: Path, t2: Path)
    requires b != [] && PathOf(b[0], 0, k, t1) && ModulePath(b[1..], k + 1, t2)
    ensures ModulePath(b, k, t1 + t2)
  {
    assert (t1 + t2)[..|t1|] == t1 && (t1 + t2)[|t1|..] == t2;
  }

  lemma {:induction false} ModuleHasPath(b: seq<Stmt>, k: nat) returns (t: Path)
    ensures ModulePath(b, k, t)
    decreases |b|
  {
    if b == [] { return []; }
    var t1 := StmtHasPath(b[0], 0, k);
    var t2 := ModuleHasPath(b[1..], k + 1);
    t := t1 + t2;
    JoinModule(b, k, t1, t2);
  }

  lemma {:induction false} ModuleStarts(b: seq<Stmt>, k: nat, t: Path)
    requires ModulePath(b, k, t) && t != []
    ensures t[0].level == 0
  {
    var m :| 0 <= m <= |t| && PathOf(b[0], 0, k, t[..m]) && ModulePath(b[1..], k + 1, t[m..]);
    StmtLevels(b[0], 0, k, t[..m]);
  }

  lemma {:induction false} ModuleSparesBoth(b: seq<Stmt>, k: nat, r: Ref)
    requires b != []
    ensures ModuleSpares(b, k, r) <==> StmtSpares(b[0], 0, k, r) && ModuleSpares(b[1..], k + 1, r)
  {
    hide KillsOn, PathOf;
    if t :| ModulePath(b, k, t) && !KillsOn(t, r) {
      var m :| 0 <= m <= |t| && PathOf(b[0], 0, k, t[..m]) && ModulePath(b[1..], k + 1, t[m..]);
      assert t == t[..m] + t[m..];
      KillsOnBoth(t[..m], t[m..], r);
    }
    if StmtSpares(b[0], 0, k, r) && ModuleSpares(b[1..], k + 1, r) {
      var t1 :| PathOf(b[0], 0, k, t1) && !KillsOn(t1, r);
      var t2 :| ModulePath(b[1..], k + 1, t2) && !KillsOn(t2, r);
      JoinModule(b, k, t1, t2);
      KillsOnBoth(t1, t2, r);
    }
  }

  lemma {:induction false} ModuleDead(b: seq<Stmt>, k: nat, dead: set<Ref>, keep: bool, r: Ref)
    requires PlainIn(b, r)
    ensures r in ModuleEffect(b, dead, k, keep).dead <==> r in dead || !ModuleSpares(b, k, r)
    decreases |b|
  {
    hide StmtEffect, StmtSpares;
    if b == [] {
      assert ModulePath(b, k, []) && !KillsOn([], r);
    } else {
      StmtDead(b[0], 0, k, dead, keep, r);
      ModuleDead(b[1..], k + 1, StmtEffect(b[0], dead, k, keep).dead, keep, r);
      ModuleSparesBoth(b, k, r);
    }
  }

  lemma {:induction false} StmtLiveHere(p: Stmt, dead: set<Ref>, k: nat, keep: bool, l: LiveRef)
    requires l in StmtEffect(p, dead, k, keep).live
    ensures l.stmt == k
    decreases p, 1
  {
    match p {
      case Evaluate(e) => ExprLiveExactly(e, false, dead, k, keep, l);
      case Assign(_, e) => ExprLiveExactly(e, false, dead, k, keep, l);
      case Annotate(_, init) => ExprLiveExactly(init.value, false, dead, k, keep, l);
      case Augment(x, _, e) =>
        ExprLiveExactly(Var(x), false, dead, k, keep, l);
        ExprLiveExactly(e, false, dead, k, keep, l);
      case If(_, _, _) => BranchLiveHere(p, dead, k, keep, l);
      case While(_, _, _) => BranchLiveHere(p, dead, k, keep, l);
      case For(_, _, _, _) => BranchLiveHere(p, dead, k, keep, l);
    }
  }

  lemma {:induction false} BranchLiveHere(p: Stmt, dead: set<Ref>, k: nat, keep: bool, l: LiveRef)
    requires (p.If? || p.While? || p.For?) && l in StmtEffect(p, dead, k, keep).live
    ensures l.stmt == k
    decreases p, 0
  {
    hide ExprLive, BlockEffect, TargetRefs;
    if l in ExprLive(Head(p), false, dead, k, keep) {
      ExprLiveExactly(Head(p), false, dead, k, keep, l);
    } else if l in BlockEffect(p.body, Bound(p), k, keep).live {
      BlockLiveHere(p.body, Bound(p), k, keep, l);
    } else {
      BlockLiveHere(p.orelse, {}, k, keep, l);
    }
  }

  lemma {:induction false} BlockLiveHere(b: seq<Stmt>, dead: set<Ref>, k: nat, keep: bool, l: LiveRef)
    requires l in BlockEffect(b, dead, k, keep).live
    ensures l.stmt == k
    decreases b, 0
  {
    hide StmtEffect;
    var first := StmtEffect(b[0], dead, k, keep);
    if l in first.live {
      StmtLiveHere(b[0], dead, k, keep, l);
    } else {
      BlockLiveHere(b[1..], first.dead, k, keep, l);
    }
  }

  lemma {:induction false} ModuleLive(b: seq<Stmt>, k: nat, dead: set<Ref>, keep: bool, r: Ref, stmt: nat)
    requires PlainIn(b, r)
    ensures LiveRef(r, stmt, false) in ModuleEffect(b, dead, k, keep).live
            <==> r !in dead && ModuleReads(b, k, dead, r, stmt)
    decreases |b|
  {
    hide StmtEffect, StmtReads, ModuleReads, StmtSpares;
    if b == [] {
      EmptyModuleReads(k, dead, r, stmt);
    } else {
      var first, l := StmtEffect(b[0], dead, k, keep), LiveRef(r, stmt, false);
      if l in first.live { StmtLiveHere(b[0], dead, k, keep, l); }
      StmtLive(b[0], 0, k, dead, keep, r);
      StmtDead(b[0], 0, k, dead, keep, r);
      StmtDead(b[0], 0, k, dead, keep, NameOf(r));
      ModuleLive(b[1..], k + 1, first.dead, keep, r, stmt);
      if r !in dead { ConsModule(b, k, dead, first.dead, r, stmt); }
    }
  }

  lemma {:induction false} EmptyModuleReads(k: nat, dead: set<Ref>, r: Ref, stmt: nat)
    ensures !ModuleReads([], k, dead, r, stmt)
  {
  }

  lemma {:induction false} ConsModule(b: seq<Stmt>, k: nat, dead: set<Ref>, dead': set<Ref>, r: Ref, stmt: nat)
    requires b != [] && PlainIn(b, r) && r !in dead
    requires r in dead' <==> !StmtSpares(b[0], 0, k, r)
    requires NameOf(r) in dead' <==> NameOf(r) in dead || !StmtSpares(b[0], 0, k, NameOf(r))
    ensures ModuleReads(b, k, dead, r, stmt) <==>
            (stmt == k && StmtReads(b[0], 0, k, dead, r)) || (r !in dead' && ModuleReads(b[1..], k + 1, dead', r, stmt))
  {
    hide StmtReads, ModuleReads, StmtSpares, PathOf, LiveOn, KillsOn;
    if ModuleReads(b, k, dead, r, stmt) { ConsModuleOnly(b, k, dead, dead', r, stmt); }
    if stmt == k && StmtReads(b[0], 0, k, dead, r) { FirstModuleReads(b, k, dead, r); }
    if r !in dead' && ModuleReads(b[1..], k + 1, dead', r, stmt) { RestModuleReads(b, k, dead, dead', r, stmt); }
  }

  lemma {:induction false} FirstModuleReads(b: seq<Stmt>, k: nat, dead: set<Ref>, r: Ref)
    requires b != [] && StmtReads(b[0], 0, k, dead, r)
    ensures ModuleReads(b, k, dead, r, k)
  {
    hide PathOf, LiveOn, ModulePath;
    var t1: Path, n: nat :| PathOf(b[0], 0, k, t1) && ReadAt(t1, n, 0, dead, r);
    var t2 := ModuleHasPath(b[1..], k + 1);
    JoinModule(b, k, t1, t2);
    StmtLevels(b[0], 0, k, t1);
    LiveOnIsStep(t1, n, r);
    LiveOnFirst(t1, t2, n, r);
    assert ReadAt(t1 + t2, n, 0, dead, r) && StepOf(t1 + t2, n, k);
  }

  lemma {:induction false} RestModuleReads(b: seq<Stmt>, k: nat, dead: set<Ref>, dead': set<Ref>, r: Ref, stmt: nat)
    requires b != [] && PlainIn(b, r) && r !in dead && r !in dead' && ModuleReads(b[1..], k + 1, dead', r, stmt)
    requires r in dead' <==> !StmtSpares(b[0], 0, k, r)
    requires NameOf(r) in dead' <==> NameOf(r) in dead || !StmtSpares(b[0], 0, k, NameOf(r))
    ensures ModuleReads(b, k, dead, r, stmt)
  {
    hide PathOf, LiveOn, ModulePath, KillsOn;
    var t2: Path, n: nat :| ModulePath(b[1..], k + 1, t2) && ReadAt(t2, n, 0, dead', r) && StepOf(t2, n, stmt);
    LiveOnIsStep(t2, n, r);
    ModuleStarts(b[1..], k + 1, t2);
    var t1: Path;
    if t2[n].level == 0 {
      t1 :| PathOf(b[0], 0, k, t1) && !KillsOn(t1, NameOf(r));
      SparesElement(b[0], 0, k, t1, r);
    } else {
      t1 :| PathOf(b[0], 0, k, t1) && !KillsOn(t1, r);
    }
    JoinModule(b, k, t1, t2);
    LiveOnSecond(t1, t2, n, r);
    SinceStart(t1, t2, n, 0, NameOf(r));
    assert ReadAt(t1 + t2, |t1| + n, 0, dead, r) && StepOf(t1 + t2, |t1| + n, stmt);
  }

  lemma {:induction false} ConsModuleOnly(b: seq<Stmt>, k: nat, dead: set<Ref>, dead': set<Ref>, r: Ref, stmt: nat)
    requires b != [] && ModuleReads(b, k, dead, r, stmt)
    requires r in dead' <==> !StmtSpares(b[0], 0, k, r)
    requires NameOf(r) in dead' <==> NameOf(r) in dead || !StmtSpares(b[0], 0, k, NameOf(r))
    ensures (stmt == k && StmtReads(b[0], 0, k, dead, r)) || (r !in dead' && ModuleReads(b[1..], k + 1, dead', r, stmt))
  {
    hide PathOf, LiveOn, KillsOn, ReadAt;
    var t: Path, n: nat :| ModulePath(b, k, t) && ReadAt(t, n, 0, dead, r) && StepOf(t, n, stmt);
    var m :| 0 <= m <= |t| && PathOf(b[0], 0, k, t[..m]) && ModulePath(b[1..], k + 1, t[m..]);
    hide ModulePath;
    ReadAtStep(t, n, 0, dead, r);
    StmtLevels(b[0], 0, k, t[..m]);
    if n < m {
      ReadAtFirst(t, m, n, dead, r);
      assert t[..m][n] == t[n];
    } else {
      ModuleStarts(b[1..], k + 1, t[m..]);
      SplitModule(b, k, dead, dead', t, m, n, r);
      assert StepOf(t[m..], n - m, stmt);
    }
  }

  lemma {:induction false} ReadAtStep(t: Path, n: nat, level: nat, dead: set<Ref>, r: Ref)
    requires ReadAt(t, n, level, dead, r)
    ensures n < |t|
  {
  }

  lemma {:induction false} ReadAtFirst(t: Path, m: nat, n: nat, dead: set<Ref>, r: Ref)
    requires ReadAt(t, n, 0, dead, r) && n < m <= |t|
    ensures ReadAt(t[..m], n, 0, dead, r)
  {
    hide LiveOn;
    assert t == t[..m] + t[m..];
    LiveOnFirst(t[..m], t[m..], n, r);
  }

  lemma {:induction false} SplitModule(b: seq<Stmt>, k: nat, dead: set<Ref>, dead': set<Ref>, t: Path, m: nat, n: nat,
                                       r: Ref)
    requires b != [] && m <= n < |t| && ReadAt(t, n, 0, dead, r) && PathOf(b[0], 0, k, t[..m]) && t[m].level == 0
    requires r in dead' <==> !StmtSpares(b[0], 0, k, r)
    requires NameOf(r) in dead' <==> NameOf(r) in dead || !StmtSpares(b[0], 0, k, NameOf(r))
    ensures r !in dead' && ReadAt(t[m..], n - m, 0, dead', r)
  {
    hide PathOf, LiveOn, KillsOn;
    var t1, t2 := t[..m], t[m..];
    assert t == t1 + t2;
    LiveOnSecond(t1, t2, n - m, r);
    SinceStart(t1, t2, n - m, 0, NameOf(r));
    assert StmtSpares(b[0], 0, k, r);
    assert t2[n - m].level == 0 && NameOf(r) !in dead ==> StmtSpares(b[0], 0, k, NameOf(r));
  }

  /**
   * Liveness of a whole cell, exactly: the visitor reports a reference live in a statement if and only
   * if on some path that statement reads it when neither it was killed before nor, in the same block or
   * a branch inside it, its name. This holds of all names, and of elements of names whose elements are
   * never assigned from themselves.
   */
  lemma {:induction false} LiveExactly(body: seq<Stmt>, keep: bool, r: Ref, stmt: nat)
    requires PlainIn(body, r)
    ensures LiveRef(r, stmt, false) in ModuleEffect(body, {}, 0, keep).live <==>
            exists t: Path, n: nat :: ModulePath(body, 0, t) && LiveOn(t, n, r) && StepOf(t, n, stmt)
  {
    hide ModuleEffect, ModulePath, LiveOn;
    ModuleLive(body, 0, {}, keep, r, stmt);
    if t: Path, n: nat :| ModulePath(body, 0, t) && LiveOn(t, n, r) && StepOf(t, n, stmt) {
      assert ReadAt(t, n, 0, {}, r);
    }
  }

  /** A reference is dead after a cell if and only if every path through the cell kills it. */
  lemma {:induction false} DeadExactly(body: seq<Stmt>, keep: bool, r: Ref)
    requires PlainIn(body, r)
    ensures r in ModuleEffect(body, {}, 0, keep).dead <==>
            forall t :: ModulePath(body, 0, t) ==> KillsOn(t, r)
  {
    hide ModuleEffect, ModulePath, KillsOn;
    ModuleDead(body, 0, {}, keep, r);
  }

  //////////////////// Elements are reported live too often ////////////////////

  lemma {:induction false} OneEffect(p: Stmt, dead: set<Ref>, k: nat, keep: bool)
    ensures BlockEffect([p], dead, k, keep).live == StmtEffect(p, dead, k, keep).live
    ensures BlockEffect([p], dead, k, keep).dead == StmtEffect(p, dead, k, keep).dead
    ensures ModuleEffect([p], dead, k, keep).live == StmtEffect(p, dead, k, keep).live
  {
    hide StmtEffect;
    assert [p][1..] == [];
    assert ModuleEffect([], StmtEffect(p, dead, k, keep).dead, k + 1, keep).live == {};
  }

  /** x = 1, then y = x[0] in a branch: killing the name outside the branch does not count in it. */
  lemma {:induction false} NestedElementStaysLive(x: Name, c: Name, y: Name)
    requires !Quasiquotes(x) && x != c
    ensures var first, second := Assign([NameTarget(x)], Literal(1)),
                                 If(Var(c), [Assign([NameTarget(y)], Subscript(Var(x), 0))], []);
            Ref(x, []) in StmtEffect(first, {}, 0, false).dead
            && LiveRef(Ref(x, [0]), 1, false) in ModuleEffect([first, second], {}, 0, false).live
  {
    var r, inner := Ref(x, [0]), Assign([NameTarget(y)], Subscript(Var(x), 0));
    var first, second := Assign([NameTarget(x)], Literal(1)), If(Var(c), [inner], []);
    TargetsRefsExactly([NameTarget(x)], Ref(x, []));
    TargetsRefsExactly([NameTarget(x)], r);
    assert InTargets(x, [NameTarget(x)]);
    ExprLiveRefs(Subscript(Var(x), 0), {}, 1, false, r);
    ReadsElement(x, 0);
    assert LiveRef(r, 1, false) in StmtEffect(inner, {}, 1, false).live;
    OneEffect(inner, {}, 1, false);
    assert StmtEffect(first, {}, 0, false).dead !! {r};
    hide ExprLive, ReadRefs, TargetsRefs;
    OneEffect(second, StmtEffect(first, {}, 0, false).dead, 1, false);
    assert [first, second][1..] == [second];
  }

  /** In one arm x = (x, 5), which kills the element, in the other x = 1, which kills the name: y = x[0]
      after it is reported to read x[0] live, though every path kills one or the other. */
  lemma {:induction false} ElementKilledEitherWay(x: Name, c: Name, y: Name)
    requires !Quasiquotes(x) && x != c
    ensures var branch, last := If(Var(c), [Assign([NameTarget(x)], Tuple([Var(x), Literal(5)]))],
                                           [Assign([NameTarget(x)], Literal(1))]),
                                Assign([NameTarget(y)], Subscript(Var(x), 0));
            && !PlainIn([branch, last], Ref(x, [0]))
            && LiveRef(Ref(x, [0]), 1, false) in ModuleEffect([branch, last], {}, 0, false).live
            && forall t :: PathOf(branch, 0, 0, t) ==> KillsOn(t, Ref(x, [0])) || KillsOn(t, Ref(x, []))
  {
    var r, pair, one := Ref(x, [0]), Assign([NameTarget(x)], Tuple([Var(x), Literal(5)])), Assign([NameTarget(x)],
      Literal(1));
    var branch, last := If(Var(c), [pair], [one]), Assign([NameTarget(y)], Subscript(Var(x), 0));
    PairReads(x);
    ArmsKill(x, c, pair, one);
    PairIsNotPlain(x, c, pair, one, last);
    var dead := StmtEffect(branch, {}, 0, false).dead;
    StmtDead(branch, 0, 0, {}, false, Ref(x, []));
    NameSpared(x, c, pair, one);
    ElementNotDead(x, c, pair, one);
    ExprLiveRefs(Subscript(Var(x), 0), dead, 1, false, r);
    ReadsElement(x, 0);
    hide ExprLive, ReadRefs, BlockEffect, PathOf, KillsOn;
    OneEffect(last, dead, 1, false);
    assert [branch, last][1..] == [last];
  }

  lemma {:induction false} PairReads(x: Name)
    ensures ReadRefs(Tuple([Var(x), Literal(5)])) == {Ref(x, [])}
  {
    var es := [Var(x), Literal(5)];
    assert es[1..] == [Literal(5)] && [Literal(5)][1..] == [];
    assert ReadRefsOf([Literal(5)]) == ReadRefs(Literal(5)) + ReadRefsOf([]) == {};
    assert ReadRefsOf(es) == ReadRefs(es[0]) + ReadRefsOf(es[1..]);
    assert ReadRefs(Tuple(es)) == ReadRefsOf(es);
  }

  lemma {:induction false} ReadsElement(x: Name, i: nat)
    requires !Quasiquotes(x)
    ensures ReadRefs(Subscript(Var(x), i)) == {Ref(x, [i])}
  {
    assert RefOf(Var(x)) == Some(Ref(x, []));
    assert [] + [i] == [i];
    assert RefOf(Subscript(Var(x), i)) == Some(Ref(x, [i]));
  }

  lemma {:induction false} PairIsNotPlain(x: Name, c: Name, pair: Stmt, one: Stmt, last: Stmt)
    requires pair == Assign([NameTarget(x)], Tuple([Var(x), Literal(5)]))
    ensures !PlainIn([If(Var(c), [pair], [one]), last], Ref(x, [0]))
  {
    PairReads(x);
    hide ReadRefs;
    assert ReadsName(pair.value, x) by { assert Ref(x, []) in ReadRefs(pair.value); }
    assert !ApartStmt(pair, x) && !ApartBlock([pair], x);
    var branch := If(Var(c), [pair], [one]);
    assert !ApartStmt(branch, x);
    assert !ApartBlock([branch, last], x);
  }

  lemma {:induction false} OneStatementPath(p: Stmt, level: nat, k: nat, t: Path)
    ensures BlockPath([p], level, k, t) <==> PathOf(p, level, k, t)
  {
    hide PathOf;
    assert [p][1..] == [];
    if BlockPath([p], level, k, t) {
      var m :| 0 <= m <= |t| && PathOf(p, level, k, t[..m]) && BlockPath([p][1..], level, k, t[m..]);
      assert t[..m] == t;
    }
    if PathOf(p, level, k, t) {
      assert t[..|t|] == t && t[|t|..] == [];
      assert BlockPath([p][1..], level, k, t[|t|..]);
    }
  }

  /** What the two arms kill. */
  lemma {:induction false} ArmKills(x: Name, level: nat, k: nat, u: Path)
    ensures PathOf(Assign([NameTarget(x)], Tuple([Var(x), Literal(5)])), level, k, u)
            ==> KillsOn(u, Ref(x, [0])) && !KillsOn(u, Ref(x, []))
    ensures PathOf(Assign([NameTarget(x)], Literal(1)), level, k, u) ==> KillsOn(u, Ref(x, []))
  {
    PairReads(x);
    hide ReadRefs;
    var pair, one := Tuple([Var(x), Literal(5)]), Literal(1);
    if PathOf(Assign([NameTarget(x)], pair), level, k, u) {
      assert AssignsRef([NameTarget(x)], Some(pair), Ref(x, [0]));
      assert Kills(u[0], Ref(x, [0]));
    }
    if PathOf(Assign([NameTarget(x)], one), level, k, u) {
      assert ReadRefs(one) == {} by { ReadsLiteral(1); }
      assert InTargets(x, [NameTarget(x)]);
      assert AssignsRef([NameTarget(x)], Some(one), Ref(x, []));
      assert Kills(u[0], Ref(x, []));
    }
  }

  lemma {:induction false} ReadsLiteral(n: int)
    ensures ReadRefs(Literal(n)) == {}
  {
  }

  lemma {:induction false} ArmsKill(x: Name, c: Name, pair: Stmt, one: Stmt)
    requires pair == Assign([NameTarget(x)], Tuple([Var(x), Literal(5)])) && one == Assign([NameTarget(x)], Literal(1))
    ensures forall t :: PathOf(If(Var(c), [pair], [one]), 0, 0, t) ==> KillsOn(t, Ref(x, [0])) || KillsOn(t, Ref(x, []))
  {
    forall t | PathOf(If(Var(c), [pair], [one]), 0, 0, t) ensures KillsOn(t, Ref(x, [0])) || KillsOn(t, Ref(x, [])) {
      OneStatementPath(pair, 1, 0, t[1..]);
      OneStatementPath(one, 1, 0, t[1..]);
      ArmKills(x, 1, 0, t[1..]);
      hide KillsOn, BlockPath;
      TailSpares(t, t[0], Ref(x, [0]));
      TailSpares(t, t[0], Ref(x, []));
    }
  }

  lemma {:induction false} NameSpared(x: Name, c: Name, pair: Stmt, one: Stmt)
    requires pair == Assign([NameTarget(x)], Tuple([Var(x), Literal(5)])) && one == Assign([NameTarget(x)], Literal(1))
    ensures StmtSpares(If(Var(c), [pair], [one]), 0, 0, Ref(x, []))
  {
    var u := StmtHasPath(pair, 1, 0);
    hide KillsOn;
    OneStatementPath(pair, 1, 0, u);
    ArmKills(x, 1, 0, u);
    assert BlockSpares([pair], 1, 0, Ref(x, []));
    IfSpares(If(Var(c), [pair], [one]), 0, 0, Ref(x, []));
  }

  lemma {:induction false} ElementNotDead(x: Name, c: Name, pair: Stmt, one: Stmt)
    requires one == Assign([NameTarget(x)], Literal(1))
    ensures Ref(x, [0]) !in StmtEffect(If(Var(c), [pair], [one]), {}, 0, false).dead
  {
    OneEffect(one, {}, 0, false);
    TargetsRefsExactly([NameTarget(x)], Ref(x, [0]));
    assert Ref(x, [0]) !in StmtEffect(one, {}, 0, false).dead;
  }
}
