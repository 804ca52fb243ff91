/**
 * The paths through a cell's text, as the liveness visitor takes them, and what they read and kill.
 *
 * A path takes either arm of a branch. Out of a loop it leaves, as the visitor has it, either after
 * going through the body, any number of times, or through the else part.
 */
module LivePaths {
  import opened Wrappers
  import opened Liveness

  /** One step of a path: what it reads and then assigns, how deep it is nested, in which statement. */
  datatype Event = Event(used: set<Ref>, stored: set<Ref>, level: nat, stmt: nat)

  type Path = seq<Event>

  /** Names the visitor takes for quasiquotes when subscripted once. */
  predicate Quasiquotes(x: Name) {
    || x == "f" || x == "q" || x == "ast_literal" || x == "map" || x == "imap" || x == "filter"
    || x == "ifilter" || x == "reduce"
  }

  /** The references an expression reads: whole chains of subscripts of a name, and what stands inside. */
  function ReadRefs(e: Expr): set<Ref>
    decreases e, 1
  {
    match e
    case Literal(_) => {}
    case Var(x) => {Ref(x, [])}
    case Subscript(base, _) =>
      if base.Var? && Quasiquotes(base.x) then {}
      else if RefOf(e).Some? then {RefOf(e).value} else ReadRefs(base)
    case BinOp(_, l, r) => ReadRefs(l) + ReadRefs(r)
    case Tuple(elts) => ReadRefsOf(elts)
  }

  function ReadRefsOf(es: seq<Expr>): set<Ref>
    decreases es, 0
  {
    if es == [] then {} else ReadRefs(es[0]) + ReadRefsOf(es[1..])
  }

  predicate InTarget(x: Name, t: Target)
    decreases t, 1
  {
    match t case NameTarget(y) => x == y case TupleTarget(elts) => InTargets(x, elts)
  }

  predicate InTargets(x: Name, ts: seq<Target>)
    decreases ts, 0
  {
    ts != [] && (InTarget(x, ts[0]) || InTargets(x, ts[1..]))
  }

  /** An assignment assigns its names, and the elements of a name that alone receives a tuple literal. */
  ghost predicate AssignsRef(targets: seq<Target>, value: Option<Expr>, r: Ref) {
    || (r.path == [] && InTargets(r.name, targets))
    || (targets == [NameTarget(r.name)] && value.Some? && value.value.Tuple?
        && exists i :: 0 <= i < |value.value.elts| && r.path == [i])
  }

  ghost predicate AssignEvent(targets: seq<Target>, value: Option<Expr>, ev: Event) {
    && ev.used == (if value.Some? then ReadRefs(value.value) else {})
    && forall r :: r in ev.stored <==> AssignsRef(targets, value, r)
  }

  /** The test or iterable of a branch or loop, read at its own level. */
  function HeadEvent(p: Stmt, level: nat, stmt: nat): Event
    requires p.If? || p.While? || p.For?
  {
    Event(ReadRefs(if p.For? then p.iter else p.test), {}, level, stmt)
  }

  /** What comes between two rounds of a loop: the test again, or the next item. */
  function NextRound(p: Stmt, level: nat, stmt: nat): Event
    requires p.While? || p.For?
  {
    if p.While? then HeadEvent(p, level, stmt) else Event({}, {}, level, stmt)
  }

  ghost predicate BoundEvent(p: Stmt, level: nat, stmt: nat, ev: Event)
    requires p.For?
  {
    && ev.used == {} && ev.level == level + 1 && ev.stmt == stmt
    && forall r :: r in ev.stored <==> r.path == [] && InTarget(r.name, p.target)
  }

  ghost predicate PathOf(p: Stmt, level: nat, stmt: nat, t: Path)
    decreases p, 5
  {
    match p
    case Evaluate(e) => t == [Event(ReadRefs(e), {}, level, stmt)]
    case Assign(targets, e) => |t| == 1 && AssignEvent(targets, Some(e), t[0]) && t[0].level == level
      && t[0].stmt == stmt
    case Annotate(x, init) =>
      |t| == 1 && AssignEvent([NameTarget(x)], init, t[0]) && t[0].level == level && t[0].stmt == stmt
    case Augment(x, _, e) => t == [Event({Ref(x, [])} + ReadRefs(e), {}, level, stmt)]
    case If(_, body, orelse) =>
      && t != [] && t[0] == HeadEvent(p, level, stmt)
      && (BlockPath(body, level + 1, stmt, t[1..]) || BlockPath(orelse, level + 1, stmt, t[1..]))
    case _ => LoopPath(p, level, stmt, t)
  }

  ghost predicate LoopPath(p: Stmt, level: nat, stmt: nat, t: Path)
    requires p.While? || p.For?
    decreases p, 4
  {
    && t != [] && t[0] == HeadEvent(p, level, stmt)
    && (BlockPath(p.orelse, level + 1, stmt, t[1..]) || SomeRounds(p, level, stmt, t[1..]))
  }

  ghost predicate SomeRounds(p: Stmt, level: nat, stmt: nat, t: Path)
    requires p.While? || p.For?
    decreases p, 3
  {
    exists n: nat :: Rounds(p, level, stmt, n, t)
  }

  /** `n` rounds of a loop, and one more. */
  ghost predicate Rounds(p: Stmt, level: nat, stmt: nat, n: nat, t: Path)
    requires p.While? || p.For?
    decreases p, 2, n
  {
    if n == 0 then Round(p, level, stmt, t)
    else exists m :: 0 <= m < |t| && Round(p, level, stmt, t[..m]) && t[m] == NextRound(p, level, stmt)
                     && Rounds(p, level, stmt, n - 1, t[m + 1..])
  }

  /** Once through the body of a loop; a for loop first assigns its targets. */
  ghost predicate Round(p: Stmt, level: nat, stmt: nat, t: Path)
    requires p.While? || p.For?
    decreases p, 1
  {
    if p.While? then BlockPath(p.body, level + 1, stmt, t)
    else t != [] && BoundEvent(p, level, stmt, t[0]) && BlockPath(p.body, level + 1, stmt, t[1..])
  }

  ghost predicate BlockPath(b: seq<Stmt>, level: nat, stmt: nat, t: Path)
    decreases b, 0
  {
    if b == [] then t == []
    else exists m :: 0 <= m <= |t| && PathOf(b[0], level, stmt, t[..m]) && BlockPath(b[1..], level, stmt, t[m..])
  }

  /** A whole cell: its statements are numbered. */
  ghost predicate ModulePath(b: seq<Stmt>, stmt: nat, t: Path)
  {
    if b == [] then t == []
    else exists m :: 0 <= m <= |t| && PathOf(b[0], 0, stmt, t[..m]) && ModulePath(b[1..], stmt + 1, t[m..])
  }

  //////////////////// Reads and kills along a path ////////////////////

  /** An assignment that reads what it assigns does not kill it. */
  predicate Kills(ev: Event, r: Ref) { r in ev.stored && r !in ev.used }

  predicate KillsOn(t: Path, r: Ref) { exists m :: 0 <= m < |t| && Kills(t[m], r) }

  function NameOf(r: Ref): Ref { Ref(r.name, []) }

  /** The name was killed before step `n`, in the same block or inside a branch of it. */
  predicate NameKilledHere(t: Path, n: nat, r: Ref)
    requires n < |t|
  {
    KilledSince(t[..n], t[n].level, NameOf(r))
  }

  predicate KilledSince(t: Path, level: nat, r: Ref) {
    exists m :: 0 <= m < |t| && Kills(t[m], r) && NotLeft(t, m, level)
  }

  /** From step `m` on, the path stays at `level` or deeper. */
  predicate NotLeft(t: Path, m: nat, level: nat) { forall k :: m <= k < |t| ==> t[k].level >= level }

  /** Step `n` reads `r`, which was not killed before, nor was its name in the same block. */
  predicate LiveOn(t: Path, n: nat, r: Ref) {
    n < |t| && r in t[n].used && !KillsOn(t[..n], r) && !NameKilledHere(t, n, r)
  }

  //////////////////// Paths put together ////////////////////

  lemma {:induction false} KillsOnBoth(t1: Path, t2: Path, r: Ref)
    ensures KillsOn(t1 + t2, r) <==> KillsOn(t1, r) || KillsOn(t2, r)
  {
    var t := t1 + t2;
    if KillsOn(t1, r) {
      var m :| 0 <= m < |t1| && Kills(t1[m], r);
      assert Kills(t[m], r);
    }
    if KillsOn(t2, r) {
      var m :| 0 <= m < |t2| && Kills(t2[m], r);
      assert Kills(t[|t1| + m], r);
    }
  }

  lemma {:induction false} LiveOnFirst(t1: Path, t2: Path, n: nat, r: Ref)
    requires n < |t1|
    ensures LiveOn(t1 + t2, n, r) <==> LiveOn(t1, n, r)
  {
    assert (t1 + t2)[..n] == t1[..n];
  }

  /** Something on the second part is live if it is live there, the first part does not kill it, nor,
      unless a block was left since, its name. */
  lemma {:induction false} LiveOnSecond(t1: Path, t2: Path, n: nat, r: Ref)
    requires n < |t2|
    ensures LiveOn(t1 + t2, |t1| + n, r) <==>
            LiveOn(t2, n, r) && !KillsOn(t1, r)
            && !(NotLeft(t2[..n], 0, t2[n].level) && KilledSince(t1, t2[n].level, NameOf(r)))
  {
    assert (t1 + t2)[..|t1| + n] == t1 + t2[..n];
    KillsOnBoth(t1, t2[..n], r);
    SinceBoth(t1, t2[..n], t2[n].level, NameOf(r));
  }

  lemma {:induction false} SinceBoth(t1: Path, t2: Path, level: nat, r: Ref)
    ensures KilledSince(t1 + t2, level, r)
            <==> KilledSince(t2, level, r) || (NotLeft(t2, 0, level) && KilledSince(t1, level, r))
  {
    var t := t1 + t2;
    if KilledSince(t2, level, r) {
      var m :| 0 <= m < |t2| && Kills(t2[m], r) && NotLeft(t2, m, level);
      LaterNotLeft(t1, t2, m, level);
      assert Kills(t[|t1| + m], r);
    }
    if NotLeft(t2, 0, level) && KilledSince(t1, level, r) {
      var m :| 0 <= m < |t1| && Kills(t1[m], r) && NotLeft(t1, m, level);
      assert Kills(t[m], r) && NotLeft(t, m, level);
    }
    if KilledSince(t, level, r) {
      var m :| 0 <= m < |t| && Kills(t[m], r) && NotLeft(t, m, level);
      if m < |t1| {
        EarlierNotLeft(t1, t2, m, level);
        assert Kills(t1[m], r);
      } else {
        LaterNotLeft(t1, t2, m - |t1|, level);
        assert Kills(t2[m - |t1|], r);
      }
    }
  }

  lemma {:induction false} LaterNotLeft(t1: Path, t2: Path, m: nat, level: nat)
    ensures NotLeft(t1 + t2, |t1| + m, level) <==> NotLeft(t2, m, level)
  {
    var t := t1 + t2;
    if NotLeft(t, |t1| + m, level) {
      forall k | m <= k < |t2| ensures t2[k].level >= level { assert t[|t1| + k].level >= level; }
    }
  }

  lemma {:induction false} EarlierNotLeft(t1: Path, t2: Path, m: nat, level: nat)
    requires m < |t1| && NotLeft(t1 + t2, m, level)
    ensures NotLeft(t1, m, level) && NotLeft(t2, 0, level)
  {
    var t := t1 + t2;
    forall k | m <= k < |t1| ensures t1[k].level >= level { assert t[k].level >= level; }
    forall k | 0 <= k < |t2| ensures t2[k].level >= level { assert t[|t1| + k].level >= level; }
  }

  //////////////////// Levels ////////////////////

  /** All steps at `level` or deeper, in statement `stmt`. */
  ghost predicate Within(t: Path, level: nat, stmt: nat) {
    forall k :: 0 <= k < |t| ==> t[k].level >= level && t[k].stmt == stmt
  }

  lemma {:induction false} WithinBoth(t: Path, m: nat, level: nat, stmt: nat)
    requires m <= |t| && Within(t[..m], level, stmt) && Within(t[m..], level, stmt)
    ensures Within(t, level, stmt)
  {
    forall k | 0 <= k < |t| ensures t[k].level >= level && t[k].stmt == stmt {
      if k < m { assert t[k] == t[..m][k]; } else { assert t[k] == t[m..][k - m]; }
    }
  }

  lemma {:induction false} StmtLevels(p: Stmt, level: nat, stmt: nat, t: Path)
    requires PathOf(p, level, stmt, t)
    ensures t != [] && t[0].level == level && Within(t, level, stmt)
    decreases p, 5
  {
    if p.If? {
      var rest := t[1..];
      if BlockPath(p.orelse, level + 1, stmt, rest) {
        BlockLevels(p.orelse, level + 1, stmt, rest);
      } else {
        BlockLevels(p.body, level + 1, stmt, rest);
      }
      assert Within(t[..1], level, stmt);
      WithinBoth(t, 1, level, stmt);
    } else if p.While? || p.For? {
      LoopLevels(p, level, stmt, t);
    }
  }

  lemma {:induction false} LoopLevels(p: Stmt, level: nat, stmt: nat, t: Path)
    requires (p.While? || p.For?) && LoopPath(p, level, stmt, t)
    ensures t != [] && t[0].level == level && Within(t, level, stmt)
    decreases p, 4
  {
    var rest := t[1..];
    if BlockPath(p.orelse, level + 1, stmt, rest) {
      BlockLevels(p.orelse, level + 1, stmt, rest);
    } else {
      assert SomeRounds(p, level, stmt, rest);
      var n: nat :| Rounds(p, level, stmt, n, rest);
      RoundsLevels(p, level, stmt, n, rest);
    }
    assert Within(t[..1], level, stmt);
    WithinBoth(t, 1, level, stmt);
  }

  lemma {:induction false} LastRound(p: Stmt, level: nat, k: nat, t: Path)
    requires (p.While? || p.For?) && Rounds(p, level, k, 0, t)
    ensures Round(p, level, k, t)
  {
  }

  /** The first of several rounds, and what follows. */
  lemma {:induction false} FirstRound(p: Stmt, level: nat, k: nat, n: nat, t: Path) returns (m: nat)
    requires (p.While? || p.For?) && n > 0 && Rounds(p, level, k, n, t)
    ensures m < |t| && Round(p, level, k, t[..m]) && t[m] == NextRound(p, level, k)
    ensures Rounds(p, level, k, n - 1, t[m + 1..])
  {
    hide Round, NextRound;
    m :| 0 <= m < |t| && Round(p, level, k, t[..m]) && t[m] == NextRound(p, level, k)
         && Rounds(p, level, k, n - 1, t[m + 1..]);
  }

  lemma {:induction false} RoundsLevels(p: Stmt, level: nat, stmt: nat, n: nat, t: Path)
    requires (p.While? || p.For?) && Rounds(p, level, stmt, n, t)
    ensures Within(t, level, stmt)
    decreases p, 2, n
  {
    hide Round, Rounds;
    if n == 0 {
      LastRound(p, level, stmt, t);
      RoundLevels(p, level, stmt, t);
    } else {
      var m := FirstRound(p, level, stmt, n, t);
      RoundLevels(p, level, stmt, t[..m]);
      RoundsLevels(p, level, stmt, n - 1, t[m + 1..]);
      forall k | 0 <= k < |t| ensures t[k].level >= level && t[k].stmt == stmt {
        if k < m { assert t[k] == t[..m][k]; } else if k > m { assert t[k] == t[m + 1..][k - m - 1]; }
      }
    }
  }

  lemma {:induction false} RoundLevels(p: Stmt, level: nat, stmt: nat, t: Path)
    requires (p.While? || p.For?) && Round(p, level, stmt, t)
    ensures Within(t, level + 1, stmt)
    decreases p, 1
  {
    if p.While? {
      BlockLevels(p.body, level + 1, stmt, t);
    } else {
      BlockLevels(p.body, level + 1, stmt, t[1..]);
      assert Within(t[..1], level + 1, stmt);
      WithinBoth(t, 1, level + 1, stmt);
    }
  }

  lemma {:induction false} BlockLevels(b: seq<Stmt>, level: nat, stmt: nat, t: Path)
    requires BlockPath(b, level, stmt, t)
    ensures Within(t, level, stmt) && (t != [] ==> t[0].level == level)
    decreases b, 0
  {
    if b != [] {
      var m :| 0 <= m <= |t| && PathOf(b[0], level, stmt, t[..m]) && BlockPath(b[1..], level, stmt, t[m..]);
      StmtLevels(b[0], level, stmt, t[..m]);
      BlockLevels(b[1..], level, stmt, t[m..]);
      WithinBoth(t, m, level, stmt);
    }
  }

  //////////////////// What an expression reads ////////////////////

  lemma {:induction false} ExprLiveExactly(e: Expr, inAttrsub: bool, dead: set<Ref>, k: nat, keep: bool, l: LiveRef)
    ensures l in ExprLive(e, inAttrsub, dead, k, keep) <==>
            && !(inAttrsub && RefOf(e).Some?)
            && l.ref in ReadRefs(e) && (keep || !Killed(l.ref, dead)) && l.stmt == k
            && l.isKilled == Killed(l.ref, dead)
    decreases e, 1
  {
    hide Killed;
    match e {
      case Literal(_) =>
      case Var(_) =>
      case Subscript(base, _) => ExprLiveExactly(base, true, dead, k, keep, l);
      case BinOp(_, a, b) =>
        ExprLiveExactly(a, false, dead, k, keep, l);
        ExprLiveExactly(b, false, dead, k, keep, l);
      case Tuple(elts) => ExprsLiveExactly(elts, dead, k, keep, l);
    }
  }

  lemma {:induction false} ExprsLiveExactly(es: seq<Expr>, dead: set<Ref>, k: nat, keep: bool, l: LiveRef)
    ensures l in ExprsLive(es, dead, k, keep) <==>
            l.ref in ReadRefsOf(es) && (keep || !Killed(l.ref, dead)) && l.stmt == k
              && l.isKilled == Killed(l.ref, dead)
    decreases es, 0
  {
    hide Killed;
    if es != [] {
      ExprLiveExactly(es[0], false, dead, k, keep, l);
      ExprsLiveExactly(es[1..], dead, k, keep, l);
    }
  }

  /** The references live in an expression, killed ones included if they are kept. */
  lemma {:induction false} ExprRefsExactly(e: Expr, dead: set<Ref>, k: nat, keep: bool, r: Ref)
    ensures r in Refs(ExprLive(e, false, dead, k, keep)) <==> r in ReadRefs(e) && (keep || !Killed(r, dead))
  {
    hide Killed, ExprLive, ReadRefs;
    var l := LiveRef(r, k, Killed(r, dead));
    ExprLiveExactly(e, false, dead, k, keep, l);
    if r in Refs(ExprLive(e, false, dead, k, keep)) {
      var l' :| l' in ExprLive(e, false, dead, k, keep) && l'.ref == r;
      ExprLiveExactly(e, false, dead, k, keep, l');
    }
  }

  //////////////////// What an assignment assigns ////////////////////

  lemma {:induction false} TargetRefsExactly(t: Target, r: Ref)
    ensures r in TargetRefs(t) <==> r.path == [] && InTarget(r.name, t)
    decreases t, 1
  {
    if t.TupleTarget? { TargetsRefsExactly(t.elts, r); }
  }

  lemma {:induction false} TargetsRefsExactly(ts: seq<Target>, r: Ref)
    ensures r in TargetsRefs(ts) <==> r.path == [] && InTargets(r.name, ts)
    decreases ts, 0
  {
    if ts != [] {
      TargetRefsExactly(ts[0], r);
      TargetsRefsExactly(ts[1..], r);
    }
  }

  function Assigned(targets: seq<Target>, value: Option<Expr>): set<Ref> {
    TargetsRefs(targets) + if value.Some? then ElementRefs(targets, value.value) else {}
  }

  lemma {:induction false} AssignedExactly(targets: seq<Target>, value: Option<Expr>, r: Ref)
    ensures r in Assigned(targets, value) <==> AssignsRef(targets, value, r)
  {
    TargetsRefsExactly(targets, r);
    hide TargetsRefs, InTargets;
    if AssignsRef(targets, value, r) && r.path != [] {
      var i :| 0 <= i < |value.value.elts| && r.path == [i];
      assert Ref(targets[0].x, [i]) in ElementRefs(targets, value.value);
    }
  }

  //////////////////// Elements and their names ////////////////////

  ghost predicate ReadsName(e: Expr, x: Name) { exists r :: r in ReadRefs(e) && r.name == x }

  /** A tuple literal assigned to `x` alone does not read `x`. */
  ghost predicate ApartValue(targets: seq<Target>, value: Option<Expr>, x: Name) {
    targets == [NameTarget(x)] && value.Some? && value.value.Tuple? ==> !ReadsName(value.value, x)
  }

  ghost predicate ApartStmt(p: Stmt, x: Name)
    decreases p, 1
  {
    match p
    case Assign(targets, e) => ApartValue(targets, Some(e), x)
    case Annotate(y, init) => ApartValue([NameTarget(y)], init, x)
    case If(_, body, orelse) => ApartBlock(body, x) && ApartBlock(orelse, x)
    case While(_, body, orelse) => ApartBlock(body, x) && ApartBlock(orelse, x)
    case For(_, _, body, orelse) => ApartBlock(body, x) && ApartBlock(orelse, x)
    case _ => true
  }

  ghost predicate ApartBlock(b: seq<Stmt>, x: Name)
    decreases b, 0
  {
    b == [] || (ApartStmt(b[0], x) && ApartBlock(b[1..], x))
  }

  /** A whole name, or an element of a name whose elements are never assigned from itself. */
  ghost predicate Plain(p: Stmt, r: Ref) { r.path == [] || ApartStmt(p, r.name) }

  ghost predicate PlainIn(b: seq<Stmt>, r: Ref) { r.path == [] || ApartBlock(b, r.name) }

  lemma {:induction false} EventKillsName(targets: seq<Target>, value: Option<Expr>, ev: Event, r: Ref)
    requires AssignEvent(targets, value, ev) && Kills(ev, r) && (r.path == [] || ApartValue(targets, value, r.name))
    ensures Kills(ev, NameOf(r))
  {
    if r.path != [] {
      assert AssignsRef(targets, value, r);
      assert InTargets(r.name, [NameTarget(r.name)]);
      assert AssignsRef(targets, value, NameOf(r));
    }
  }

  /** What kills an element kills its name. */
  lemma {:induction false} StmtKillsName(p: Stmt, level: nat, k: nat, t: Path, m: nat, r: Ref)
    requires PathOf(p, level, k, t) && m < |t| && Kills(t[m], r) && Plain(p, r)
    ensures Kills(t[m], NameOf(r))
    decreases p, 5
  {
    match p {
      case Evaluate(_) =>
      case Assign(targets, e) => EventKillsName(targets, Some(e), t[0], r);
      case Annotate(x, init) => EventKillsName([NameTarget(x)], init, t[0], r);
      case Augment(_, _, _) =>
      case If(_, body, orelse) =>
        if BlockPath(body, level + 1, k, t[1..]) {
          BlockKillsName(body, level + 1, k, t[1..], m - 1, r);
        } else {
          BlockKillsName(orelse, level + 1, k, t[1..], m - 1, r);
        }
      case While(_, _, _) => LoopKillsName(p, level, k, t, m, r);
      case For(_, _, _, _) => LoopKillsName(p, level, k, t, m, r);
    }
  }

  lemma {:induction false} LoopKillsName(p: Stmt, level: nat, k: nat, t: Path, m: nat, r: Ref)
    requires (p.While? || p.For?) && LoopPath(p, level, k, t) && m < |t| && Kills(t[m], r) && Plain(p, r)
    ensures Kills(t[m], NameOf(r))
    decreases p, 4
  {
    if BlockPath(p.orelse, level + 1, k, t[1..]) {
      BlockKillsName(p.orelse, level + 1, k, t[1..], m - 1, r);
    } else {
      assert SomeRounds(p, level, k, t[1..]);
      var n: nat :| Rounds(p, level, k, n, t[1..]);
      RoundsKillName(p, level, k, n, t[1..], m - 1, r);
    }
  }

  lemma {:induction false} RoundsKillName(p: Stmt, level: nat, k: nat, n: nat, t: Path, m: nat, r: Ref)
    requires (p.While? || p.For?) && Rounds(p, level, k, n, t) && m < |t| && Kills(t[m], r) && Plain(p, r)
    ensures Kills(t[m], NameOf(r))
    decreases p, 2, n
  {
    hide Round, Rounds, Plain;
    if n == 0 {
      LastRound(p, level, k, t);
      RoundKillsName(p, level, k, t, m, r);
    } else {
      var j := FirstRound(p, level, k, n, t);
      if m < j {
        RoundKillsName(p, level, k, t[..j], m, r);
      } else {
        RoundsKillName(p, level, k, n - 1, t[j + 1..], m - j - 1, r);
      }
    }
  }

  lemma {:induction false} RoundKillsName(p: Stmt, level: nat, k: nat, t: Path, m: nat, r: Ref)
    requires (p.While? || p.For?) && Round(p, level, k, t) && m < |t| && Kills(t[m], r) && Plain(p, r)
    ensures Kills(t[m], NameOf(r))
    decreases p, 1
  {
    if p.While? {
      BlockKillsName(p.body, level + 1, k, t, m, r);
    } else if m > 0 {
      BlockKillsName(p.body, level + 1, k, t[1..], m - 1, r);
    }
  }

  lemma {:induction false} BlockKillsName(b: seq<Stmt>, level: nat, k: nat, t: Path, m: nat, r: Ref)
    requires BlockPath(b, level, k, t) && m < |t| && Kills(t[m], r) && PlainIn(b, r)
    ensures Kills(t[m], NameOf(r))
    decreases b, 0
  {
    var j :| 0 <= j <= |t| && PathOf(b[0], level, k, t[..j]) && BlockPath(b[1..], level, k, t[j..]);
    if m < j {
      StmtKillsName(b[0], level, k, t[..j], m, r);
    } else {
      BlockKillsName(b[1..], level, k, t[j..], m - j, r);
    }
  }

  lemma {:induction false} SparesElement(p: Stmt, level: nat, k: nat, t: Path, r: Ref)
    requires PathOf(p, level, k, t) && Plain(p, r) && !KillsOn(t, NameOf(r))
    ensures !KillsOn(t, r)
  {
    hide PathOf, Plain, Kills;
    forall m | 0 <= m < |t| ensures !Kills(t[m], r) {
      if Kills(t[m], r) { StmtKillsName(p, level, k, t, m, r); }
    }
  }

  //////////////////// There is always a path ////////////////////

  lemma {:induction false} SomeAssignEvent(targets: seq<Target>, value: Option<Expr>, level: nat, k: nat)
    returns (ev: Event)
    ensures AssignEvent(targets, value, ev) && ev.level == level && ev.stmt == k
  {
    ev := Event(if value.Some? then ReadRefs(value.value) else {}, Assigned(targets, value), level, k);
    forall r ensures r in ev.stored <==> AssignsRef(targets, value, r) { AssignedExactly(targets, value, r); }
  }

  lemma {:induction false} StmtHasPath(p: Stmt, level: nat, k: nat) returns (t: Path)
    ensures PathOf(p, level, k, t)
    decreases p, 1
  {
    match p {
      case Evaluate(e) => t := [Event(ReadRefs(e), {}, level, k)];
      case Assign(targets, e) =>
        var ev := SomeAssignEvent(targets, Some(e), level, k);
        t := [ev];
      case Annotate(x, init) =>
        var ev := SomeAssignEvent([NameTarget(x)], init, level, k);
        t := [ev];
      case Augment(x, _, e) => t := [Event({Ref(x, [])} + ReadRefs(e), {}, level, k)];
      case If(_, _, _) => t := ThroughElse(p, level, k);
      case While(_, _, _) => t := ThroughElse(p, level, k);
      case For(_, _, _, _) => t := ThroughElse(p, level, k);
    }
  }

  lemma {:induction false} ThroughElse(p: Stmt, level: nat, k: nat) returns (t: Path)
    requires p.If? || p.While? || p.For?
    ensures PathOf(p, level, k, t) && t != [] && t[0] == HeadEvent(p, level, k)
    decreases p, 0
  {
    var u := BlockHasPath(p.orelse, level + 1, k);
    t := [HeadEvent(p, level, k)] + u;
    assert t[1..] == u;
  }

  lemma {:induction false} BlockHasPath(b: seq<Stmt>, level: nat, k: nat) returns (t: Path)
    ensures BlockPath(b, level, k, t)
    decreases b, 0
  {
    if b == [] { return []; }
    var t1 := StmtHasPath(b[0], level, k);
    var t2 := BlockHasPath(b[1..], level, k);
    t := t1 + t2;
    JoinPaths(b, level, k, t1, t2);
  }

  lemma {:induction false} JoinPaths(b: seq<Stmt>, level: nat, k: nat, t1: Path, t2: Path)
    requires b != [] && PathOf(b[0], level, k, t1) && BlockPath(b[1..], level, k, t2)
    ensures BlockPath(b, level, k, t1 + t2)
  {
    assert (t1 + t2)[..|t1|] == t1 && (t1 + t2)[|t1|..] == t2;
  }
}
