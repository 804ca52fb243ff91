/**
 * The symbols of a list's elements, kept under their indices while the list changes. The list itself
 * has already changed when the index is told; the index then moves symbols up or down by one.
 */
module ListIndex {
  import opened Wrappers

  type Sym = nat
  type Value = int

  type Index = map<int, Sym>

  /** What the index should hold: for every element its symbol, if it has one. */
  type Tracked = seq<Option<Sym>>

  function At(m: Index, k: int): Option<Sym> { if k in m then Some(m[k]) else None }

  function TrackedAt(tracked: Tracked, k: int): Option<Sym> { if 0 <= k < |tracked| then tracked[k] else None }

  /** The index holds the tracked symbols and nothing else. */
  ghost predicate Agrees(index: Index, tracked: Tracked) { forall k :: At(index, k) == TrackedAt(tracked, k) }

  /** Every symbol is named by the key it is found under. */
  ghost predicate Named(index: Index, names: map<Sym, int>) {
    forall k :: At(index, k).Some? ==> At(index, k).value in names && names[At(index, k).value] == k
  }

  /** Names being keys, no symbol is found twice. */
  lemma {:induction false} NoSymbolTwice(index: Index, names: map<Sym, int>, tracked: Tracked, i: nat, j: nat)
    requires Agrees(index, tracked) && Named(index, names) && i < j < |tracked| && tracked[i].Some?
    ensures tracked[i] != tracked[j]
  {
    assert At(index, i) == tracked[i] && At(index, j) == tracked[j];
  }

  //////////////////// Shuffling ////////////////////

  /** The symbols at `lo` to `hi - 1` have moved up by one. */
  ghost predicate MovedUp(m: Index, m': Index, lo: int, hi: int) {
    forall k {:trigger At(m', k)} :: At(m', k) == if lo < k <= hi then At(m, k - 1) else if k == lo < hi then None
      else At(m, k)
  }

  /** The symbols at `lo + 1` to `hi` have moved down by one. */
  ghost predicate MovedDown(m: Index, m': Index, lo: int, hi: int) {
    forall k {:trigger At(m', k)} :: At(m', k) == if lo <= k < hi then At(m, k + 1) else if k == hi > lo then None
      else At(m, k)
  }

  //////////////////// Lists and what should be tracked ////////////////////

  datatype Op =
    | Extend(values: seq<Value>)                            // also append
    | Insert(pos: int, value: Value, matches: nat)          // how many symbols the inserted object has
    | Remove(value: Value)
    | Pop(at: Option<int>)

  /** Python's slot for an insertion. */
  function Slot(pos: int, n: nat): nat {
    if pos < 0 then (if n + pos < 0 then 0 else n + pos) else if pos > n then n else pos
  }

  /** The element a removal takes, if it does not fail. */
  function Taken(op: Op, obj: seq<Value>): (r: Option<nat>)
    requires op.Remove? || op.Pop?
    ensures r.Some? ==> r.value < |obj|
  {
    match op
    case Remove(v) => FirstIndex(obj, v, 0)
    case Pop(None) => if |obj| == 0 then None else Some(|obj| - 1)
    case Pop(Some(k)) => if 0 <= k < |obj| then Some(k) else if -|obj| <= k < 0 then Some(|obj| + k) else None
  }

  function FirstIndex(obj: seq<Value>, v: Value, i: nat): (r: Option<nat>)
    requires i <= |obj|
    ensures r.Some? ==> i <= r.value < |obj| && obj[r.value] == v && forall j :: i <= j < r.value ==> obj[j] != v
    ensures r.None? ==> forall j :: i <= j < |obj| ==> obj[j] != v
    decreases |obj| - i
  {
    if i == |obj| then None else if obj[i] == v then Some(i) else FirstIndex(obj, v, i + 1)
  }

  function FreshSyms(first: Sym, n: nat): Tracked { seq(n, i requires 0 <= i < n => Some(first + i)) }

  /** What the list becomes. */
  function ListAfter(op: Op, obj: seq<Value>): seq<Value> {
    match op
    case Extend(vs) => obj + vs
    case Insert(pos, v, _) => obj[..Slot(pos, |obj|)] + [v] + obj[Slot(pos, |obj|)..]
    case _ => var t := Taken(op, obj); if t.None? then obj else obj[..t.value] + obj[t.value + 1..]
  }

  /** The same operation on the symbols: new elements get new symbols, unless several would fit. */
  function TrackedAfter(op: Op, obj: seq<Value>, tracked: Tracked, newSym: Sym): Tracked
    requires |tracked| == |obj|
  {
    match op
    case Extend(vs) => tracked + FreshSyms(newSym, |vs|)
    case Insert(pos, _, matches) =>
      tracked[..Slot(pos, |obj|)] + [if matches > 1 then None else Some(newSym)] + tracked[Slot(pos, |obj|)..]
    case _ => var t := Taken(op, obj); if t.None? then tracked else tracked[..t.value] + tracked[t.value + 1..]
  }

  /**
   * An insertion puts the value before the element its position denotes, counted from the end if
   * negative; before all of them, or after, if there is none. Elements keep their order and symbols.
   */
  lemma {:induction false} InsertsBefore(pos: int, v: Value, matches: nat, obj: seq<Value>, tracked: Tracked,
                                         newSym: Sym,
                                         i: nat)
    requires |tracked| == |obj| && i < |obj|
    ensures var op := Insert(pos, v, matches);
            var list, syms := ListAfter(op, obj), TrackedAfter(op, obj, tracked, newSym);
            var after := if pos >= 0 then pos else |obj| + pos;   // where counting from the front gets
            && |list| == |syms| == |obj| + 1
            && (0 <= after <= |obj| ==> list[after] == v)
            && (after < 0 ==> list[0] == v) && (after > |obj| ==> list[|obj|] == v)
            && (if i < after then list[i] == obj[i] && syms[i] == tracked[i]
                else list[i + 1] == obj[i] && syms[i + 1] == tracked[i])
  {
  }

  /** A pop takes the element its position denotes, counted from the end if negative, or the last one;
      and nothing if there is none. The others keep their order and symbols. */
  lemma {:induction false} PopTakes(at: Option<int>, obj: seq<Value>, tracked: Tracked, newSym: Sym, i: nat)
    requires |tracked| == |obj| && i < |obj|
    ensures var list, syms := ListAfter(Pop(at), obj), TrackedAfter(Pop(at), obj, tracked, newSym);
            var out := if at.None? then |obj| - 1 else if at.value >= 0 then at.value else |obj| + at.value;
            if 0 <= out < |obj| then
              && |list| == |syms| == |obj| - 1
              && (i < out ==> list[i] == obj[i] && syms[i] == tracked[i])
              && (i > out ==> list[i - 1] == obj[i] && syms[i - 1] == tracked[i])
            else list == obj && syms == tracked
  {
  }

  /** A removal takes the first element with the value. */
  lemma {:induction false} RemoveTakesFirst(v: Value, obj: seq<Value>, tracked: Tracked, newSym: Sym, out: nat)
    requires |tracked| == |obj| && out < |obj| && obj[out] == v && v !in obj[..out]
    ensures ListAfter(Remove(v), obj) == obj[..out] + obj[out + 1..]
    ensures TrackedAfter(Remove(v), obj, tracked, newSym) == tracked[..out] + tracked[out + 1..]
  {
    var t := FirstIndex(obj, v, 0);
    forall j | 0 <= j < out ensures obj[j] != v { assert obj[j] in obj[..out]; }
  }

  function NextSym(op: Op, sym: Sym): Sym {
    match op
    case Extend(vs) => sym + |vs|
    case Insert(_, _, matches) => if matches > 1 then sym else sym + 1
    case _ => sym
  }

  ghost predicate NoneTracked(tracked: Tracked, lo: int, hi: int) {
    forall i :: lo <= i < hi && 0 <= i < |tracked| ==> tracked[i].None?
  }

  /** When the index keeps up with the list, exactly. */
  ghost predicate KeepsUp(op: Op, obj: seq<Value>, tracked: Tracked)
    requires |tracked| == |obj|
  {
    var n := |obj|;
    match op
    case Extend(_) => true
    case Insert(pos, _, matches) => if matches > 1 then NoneTracked(tracked, Slot(pos, n), n) else 0 <= pos <= n
    case Remove(_) => true
    case Pop(None) => NoneTracked(tracked, n - 1, n)              // a pop without argument is not noticed
    case Pop(Some(k)) => -n <= k < -1 ==> NoneTracked(tracked, 0, n + k + 1)
  }

  /** After an insertion at `pos` into a list that now ends at `last`. */
  ghost predicate Inserted(m: Index, m': Index, pos: int, last: int, ok: bool, sym: Sym) {
    forall k {:trigger At(m', k)} :: At(m', k) ==
      if ok && k == pos then Some(sym)
      else if pos < k <= last then At(m, k - 1) else if k == pos < last then None else At(m, k)
  }

  /** After deleting `pos`, the list now having `n` elements. */
  ghost predicate Deleted(m: Index, m': Index, pos: int, n: int) {
    forall k {:trigger At(m', k)} :: At(m', k) == if pos <= k < n then At(m, k + 1)
                                                  else if k == pos || k == n > pos then None else At(m, k)
  }

  lemma {:induction false} ExtendAgrees(m: Index, m': Index, tracked: Tracked, more: nat, sym: Sym)
    requires Agrees(m, tracked)
    requires forall k :: At(m', k) == if |tracked| <= k < |tracked| + more then Some(sym + (k - |tracked|)) else
             At(m, k)
    ensures Agrees(m', tracked + FreshSyms(sym, more))
  {
  }

  lemma {:induction false} InsertAgrees(m: Index, m': Index, tracked: Tracked, pos: int, ok: bool, sym: Sym)
    requires Agrees(m, tracked) && Inserted(m, m', pos, |tracked|, ok, sym)
    requires ok <==> -|tracked| - 1 <= pos <= |tracked|
    requires forall k :: At(m, k) != Some(sym)
    ensures var c := Slot(pos, |tracked|);
            Agrees(m', tracked[..c] + [Some(sym)] + tracked[c..]) <==> 0 <= pos <= |tracked|
  {
    var n, c := |tracked|, Slot(pos, |tracked|);
    var tracked' := tracked[..c] + [Some(sym)] + tracked[c..];
    if 0 <= pos <= n {
      forall k ensures At(m', k) == TrackedAt(tracked', k) {
        assert At(m, k) == TrackedAt(tracked, k) && At(m, k - 1) == TrackedAt(tracked, k - 1);
      }
    } else if ok {
      assert At(m', pos) == Some(sym) && TrackedAt(tracked', pos) == None;
    } else {
      assert TrackedAt(tracked', c) == Some(sym);
      assert At(m', c) != Some(sym);
    }
  }

  lemma {:induction false} SkippedInsertAgrees(m: Index, tracked: Tracked, c: nat)
    requires Agrees(m, tracked) && c <= |tracked|
    ensures Agrees(m, tracked[..c] + [None] + tracked[c..]) <==> NoneTracked(tracked, c, |tracked|)
  {
    var tracked' := tracked[..c] + [None] + tracked[c..];
    if Agrees(m, tracked') {
      forall k | c <= k < |tracked| ensures tracked[k].None? { AllNoneFrom(m, tracked, c, k); }
    } else {
      var k :| At(m, k) != TrackedAt(tracked', k);
      assert At(m, k) == TrackedAt(tracked, k);
    }
  }

  lemma {:induction false} AllNoneFrom(m: Index, tracked: Tracked, c: nat, k: nat)
    requires Agrees(m, tracked) && c <= k < |tracked| && Agrees(m, tracked[..c] + [None] + tracked[c..])
    ensures tracked[k].None?
    decreases k
  {
    var tracked' := tracked[..c] + [None] + tracked[c..];
    assert At(m, k) == TrackedAt(tracked, k) == TrackedAt(tracked', k);
    if k > c { AllNoneFrom(m, tracked, c, k - 1); }
  }

  lemma {:induction false} DeleteAgrees(m: Index, m': Index, tracked: Tracked, pos: nat)
    requires Agrees(m, tracked) && pos < |tracked| && Deleted(m, m', pos, |tracked| - 1)
    ensures Agrees(m', tracked[..pos] + tracked[pos + 1..])
  {
    var tracked' := tracked[..pos] + tracked[pos + 1..];
    forall k ensures At(m', k) == TrackedAt(tracked', k) {
      assert At(m, k) == TrackedAt(tracked, k) && At(m, k + 1) == TrackedAt(tracked, k + 1);
    }
  }

  /** Deleting at a position below -1 moves every symbol down by one. */
  lemma {:induction false} NegativeDeleteAgrees(m: Index, m': Index, tracked: Tracked, pos: int)
    requires Agrees(m, tracked) && -|tracked| <= pos < -1 && Deleted(m, m', pos, |tracked| - 1)
    ensures var j := |tracked| + pos;
            Agrees(m', tracked[..j] + tracked[j + 1..]) <==> NoneTracked(tracked, 0, j + 1)
  {
    var j := |tracked| + pos;
    var tracked' := tracked[..j] + tracked[j + 1..];
    forall k ensures At(m', k) == if -1 <= k < |tracked| - 1 then TrackedAt(tracked, k + 1) else None {
      assert At(m, k) == TrackedAt(tracked, k) && At(m, k + 1) == TrackedAt(tracked, k + 1);
    }
    if Agrees(m', tracked') {
      forall k | 0 <= k <= j ensures tracked[k].None? { AllNoneUpTo(m', tracked, j, k); }
    }
    if NoneTracked(tracked, 0, j + 1) {
      forall k ensures At(m', k) == TrackedAt(tracked', k) {
      }
    }
  }

  lemma {:induction false} AllNoneUpTo(m': Index, tracked: Tracked, j: nat, k: nat)
    requires k <= j < |tracked| - 1 && Agrees(m', tracked[..j] + tracked[j + 1..])
    requires forall i :: -1 <= i < |tracked| - 1 ==> At(m', i) == TrackedAt(tracked, i + 1)
    ensures tracked[k].None?
    decreases k
  {
    var tracked' := tracked[..j] + tracked[j + 1..];
    assert At(m', k - 1) == TrackedAt(tracked, k) == TrackedAt(tracked', k - 1);
    if k > 0 { AllNoneUpTo(m', tracked, j, k - 1); }
  }

  ghost predicate SupportedOp(op: Op, n: nat) {
    match op
    case Insert(pos, _, matches) => 0 <= pos <= n && matches <= 1
    case Pop(at) => at.Some? && at.value >= -1
    case _ => true
  }

  ghost predicate Supported(ops: seq<Op>, obj: seq<Value>) {
    ops != [] ==> SupportedOp(ops[0], |obj|) && Supported(ops[1..], ListAfter(ops[0], obj))
  }

  ghost function ListAfterAll(ops: seq<Op>, obj: seq<Value>): seq<Value> {
    if ops == [] then obj else ListAfterAll(ops[1..], ListAfter(ops[0], obj))
  }

  ghost function TrackedAfterAll(ops: seq<Op>, obj: seq<Value>, tracked: Tracked, sym: Sym): Tracked
    requires |tracked| == |obj|
    decreases |ops|
  {
    if ops == [] then tracked
    else TrackedAfterAll(ops[1..], ListAfter(ops[0], obj), TrackedAfter(ops[0], obj, tracked, sym), NextSym(ops[0],
      sym))
  }

  class Namespace {
    var obj: seq<Value>                // the list
    var index: Index                   // _subscript_symbol_by_name
    var names: map<Sym, int>           // name of each symbol
    var dangling: set<Sym>             // _is_dangling_on_edges
    var nextSym: Sym

    ghost predicate Valid(tracked: Tracked)
      reads this
    {
      && |tracked| == |obj| && Agrees(index, tracked) && Named(index, names) && forall s <- names :: s < nextSym
    }

    constructor ()
      ensures Valid([]) && obj == []
    {
      obj, index, names, dangling, nextSym := [], map[], map[], {}, 0;
    }

    method RemapSym(src: int, dst: int)
      requires src != dst && Named(index, names) && At(index, dst).None?
      modifies this`index, this`names, this`dangling
      ensures forall k :: At(index, k) == if k == dst then At(old(index), src) else if k == src then None
                                          else At(old(index), k)
      ensures Named(index, names) && names.Keys == old(names).Keys
      ensures dangling == old(dangling) + if src in old(index) then {old(index)[src]} else {}
    {
      if src !in index { return; }
      var sym := index[src];
      index := index - {src};
      names := names[sym := dst];
      index := index[dst := sym];
      dangling := dangling + {sym};
    }

    method ShuffleSymbolsUpwardFrom(pos: int)
      requires Named(index, names) && At(index, |obj| - 1).None?
      modifies this`index, this`names, this`dangling
      ensures MovedUp(old(index), index, pos, |obj| - 1)
      ensures Named(index, names) && names.Keys == old(names).Keys
    {
      var idx := |obj| - 1;
      while idx > pos
        invariant idx <= |obj| - 1 && (idx == |obj| - 1 || pos <= idx)
        invariant At(index, idx).None? && Named(index, names) && names.Keys == old(names).Keys
        invariant MovedUp(old(index), index, idx, |obj| - 1)
        decreases idx - pos
      {
        ghost var before := index;
        RemapSym(idx - 1, idx);
        UpStep(old(index), before, index, idx, |obj| - 1);
        idx := idx - 1;
      }
    }

    method ShuffleSymbolsDownwardTo(pos: int)
      requires Named(index, names) && At(index, pos).None?
      modifies this`index, this`names, this`dangling
      ensures MovedDown(old(index), index, pos, |obj|)
      ensures Named(index, names) && names.Keys == old(names).Keys
    {
      var idx := pos + 1;
      while idx < |obj| + 1
        invariant pos + 1 <= idx && (idx == pos + 1 || idx <= |obj| + 1)
        invariant At(index, idx - 1).None? && Named(index, names) && names.Keys == old(names).Keys
        invariant MovedDown(old(index), index, pos, idx - 1)
        decreases |obj| + 1 - idx
      {
        ghost var before := index;
        RemapSym(idx, idx - 1);
        DownStep(old(index), before, index, pos, idx - 1);
        idx := idx + 1;
      }
    }

    /** A new symbol under a key that has none. */
    method UpsertSymbolForName(pos: int)
      requires Named(index, names) && At(index, pos).None? && forall s <- names :: s < nextSym
      modifies this`index, this`names, this`nextSym
      ensures forall k :: At(index, k) == if k == pos then Some(old(nextSym)) else At(old(index), k)
      ensures Named(index, names) && (forall s <- names :: s < nextSym) && nextSym == old(nextSym) + 1
    {
      index, names, nextSym := index[pos := nextSym], names[nextSym := pos], nextSym + 1;
    }

    method HandleExtend(origLen: nat)
      requires Named(index, names) && (forall s <- names :: s < nextSym) && origLen <= |obj|
      requires forall k :: k >= origLen ==> At(index, k).None?
      modifies this`index, this`names, this`nextSym
      ensures forall k :: At(index, k) == if origLen <= k < |obj| then Some(old(nextSym) + (k - origLen))
                                          else At(old(index), k)
      ensures Named(index, names) && (forall s <- names :: s < nextSym) && nextSym == old(nextSym) + (|obj| - origLen)
    {
      for upsertPos := origLen to |obj|
        invariant forall k {:trigger At(index, k)} :: At(index, k) ==
                    if origLen <= k < upsertPos then Some(old(nextSym) + (k - origLen)) else At(old(index), k)
        invariant Named(index, names) && (forall s <- names :: s < nextSym)
                  && nextSym == old(nextSym) + (upsertPos - origLen)
      {
        UpsertSymbolForName(upsertPos);
      }
    }

    /** `ok` is false where the kernel raises an `IndexError`. */
    method HandleInsert(insertPos: int, matches: nat) returns (ok: bool)
      requires Named(index, names) && (forall s <- names :: s < nextSym)
      requires forall k :: (k >= |obj| - 1 || k < 0) ==> At(index, k).None?
      modifies this`index, this`names, this`dangling, this`nextSym
      ensures matches > 1 ==> index == old(index)
      ensures ok <==> matches > 1 || -|obj| <= insertPos < |obj|
      ensures matches <= 1 ==> Inserted(old(index), index, insertPos, |obj| - 1, ok, old(nextSym))
      ensures Named(index, names) && (forall s <- names :: s < nextSym)
      ensures nextSym == old(nextSym) + if ok && matches <= 1 then 1 else 0
    {
      if matches > 1 { return true; }
      ShuffleSymbolsUpwardFrom(insertPos);
      if !(-|obj| <= insertPos < |obj|) { return false; }
      UpsertSymbolForName(insertPos);
      ok := true;
    }

    method DeleteSubscript(pos: int)
      requires Named(index, names) && forall k :: k < 0 || k > |obj| ==> At(index, k).None?
      modifies this`index, this`names, this`dangling
      ensures Deleted(old(index), index, if pos == -1 then |obj| else pos, |obj|)
      ensures Named(index, names) && names.Keys == old(names).Keys
    {
      var name := pos;
      assert At(index, name).Some? <==> name in index;
      if name in index {
        index := index - {name};
      } else if name == -1 {
        name := |obj|;
        index := index - {name};
      }
      ghost var popped := index;
      assert forall k :: At(popped, k) == if k == name then None else At(old(index), k);
      ShuffleSymbolsDownwardTo(name);
      PoppedThenDown(old(index), popped, index, name, |obj|);
    }

    /**
     * One list method as traced: the list changes, then its handler brings the index up to date. The
     * index then agrees with the list's new symbols exactly if it keeps up with the operation.
     */
    method Do(op: Op, ghost tracked: Tracked) returns (ok: bool)
      requires Valid(tracked)
      modifies this
      ensures obj == ListAfter(op, old(obj))
      ensures Agrees(index, TrackedAfter(op, old(obj), tracked, old(nextSym))) <==> KeepsUp(op, old(obj), tracked)
      ensures KeepsUp(op, old(obj), tracked) ==>
                Valid(TrackedAfter(op, old(obj), tracked, old(nextSym))) && nextSym == NextSym(op, old(nextSym))
      ensures ok <==> !(op.Insert? && op.matches <= 1 && !(-|old(obj)| - 1 <= op.pos <= |old(obj)|))
    {
      ok := true;
      match op {
        case Extend(values) => DoExtend(values, tracked);
        case Insert(pos, value, matches) => ok := DoInsert(pos, value, matches, tracked);
        case Remove(value) =>
          var removePos := FirstIndex(obj, value, 0);
          if removePos.Some? { DoDelete(op, removePos.value, tracked); }
        case Pop(None) =>
          ghost var m := index;
          if |obj| > 0 {
            UnnoticedPopAgrees(m, tracked);
            obj := ListAfter(op, obj);
          }
        case Pop(Some(at)) =>
          if -|obj| <= at < |obj| { DoDelete(op, at, tracked); }
      }
    }

    /** Any sequence of supported list methods: the index refines the list's symbols throughout. */
    method Run(ops: seq<Op>, ghost tracked: Tracked)
      requires Valid(tracked) && Supported(ops, obj)
      modifies this
      ensures obj == ListAfterAll(ops, old(obj))
      ensures Valid(TrackedAfterAll(ops, old(obj), tracked, old(nextSym)))
    {
      ghost var rest, now := ops, tracked;
      for i := 0 to |ops|
        invariant Valid(now) && rest == ops[i..] && Supported(rest, obj)
        invariant ListAfterAll(rest, obj) == ListAfterAll(ops, old(obj))
        invariant TrackedAfterAll(rest, obj, now, nextSym) == TrackedAfterAll(ops, old(obj), tracked, old(nextSym))
      {
        ghost var was, sym := obj, nextSym;
        var ok := Do(ops[i], now);
        now := TrackedAfter(ops[i], was, now, sym);
        rest := rest[1..];
      }
    }

    method DoExtend(values: seq<Value>, ghost tracked: Tracked)
      requires Valid(tracked)
      modifies this
      ensures obj == old(obj) + values && Valid(tracked + FreshSyms(old(nextSym), |values|))
      ensures nextSym == old(nextSym) + |values|
    {
      var n := |obj|;
      ghost var m, sym := index, nextSym;
      Outside(index, tracked);
      hide Agrees;
      obj := obj + values;
      HandleExtend(n);
      ExtendAgrees(m, index, tracked, |values|, sym);
    }

    method DoInsert(pos: int, value: Value, matches: nat, ghost tracked: Tracked) returns (ok: bool)
      requires Valid(tracked)
      modifies this
      ensures var op := Insert(pos, value, matches);
              var tracked' := TrackedAfter(op, old(obj), tracked, old(nextSym));
              && obj == ListAfter(op, old(obj)) && |tracked'| == |obj|
              && (Agrees(index, tracked') <==> KeepsUp(op, old(obj), tracked))
              && Named(index, names) && (forall s <- names :: s < nextSym)
              && nextSym == old(nextSym) + (if ok && matches <= 1 then 1 else 0)
              && (ok <==> matches > 1 || -|old(obj)| - 1 <= pos <= |old(obj)|)
    {
      var n, op := |obj|, Insert(pos, value, matches);
      ghost var m, sym := index, nextSym;
      Outside(index, tracked);
      assert forall k :: At(m, k) != Some(sym);
      hide Agrees, NoneTracked, Named, Inserted;
      obj := ListAfter(op, obj);
      ok := HandleInsert(pos, matches);
      if matches > 1 {
        SkippedInsertAgrees(m, tracked, Slot(pos, n));
      } else {
        InsertAgrees(m, index, tracked, pos, ok, sym);
      }
    }

    method DoDelete(op: Op, at: int, ghost tracked: Tracked)
      requires Valid(tracked) && (op == Pop(Some(at)) || (op.Remove? && at >= 0))
      requires var t := Taken(op, obj); t == Some(if at < 0 then |obj| + at else at)
      modifies this
      ensures var tracked' := TrackedAfter(op, old(obj), tracked, old(nextSym));
              && obj == ListAfter(op, old(obj)) && |tracked'| == |obj|
              && (Agrees(index, tracked') <==> KeepsUp(op, old(obj), tracked))
              && Named(index, names) && (forall s <- names :: s < nextSym) && nextSym == old(nextSym)
    {
      var n := |obj|;
      ghost var m := index;
      Outside(index, tracked);
      hide Agrees, NoneTracked, Named, Deleted, At, FirstIndex;
      obj := ListAfter(op, obj);
      DeleteSubscript(at);
      if at < -1 {
        NegativeDeleteAgrees(m, index, tracked, at);
      } else {
        DeleteAgrees(m, index, tracked, if at == -1 then n - 1 else at);
      }
    }
  }

  lemma {:induction false} Outside(m: Index, tracked: Tracked)
    requires Agrees(m, tracked)
    ensures forall k :: k < 0 || k >= |tracked| ==> At(m, k).None?
  {
  }

  lemma {:induction false} UnnoticedPopAgrees(m: Index, tracked: Tracked)
    requires Agrees(m, tracked) && |tracked| > 0
    ensures var n := |tracked|;
            Agrees(m, tracked[..n - 1] + tracked[n..]) <==> NoneTracked(tracked, n - 1, n)
  {
    var n := |tracked|;
    var tracked' := tracked[..n - 1] + tracked[n..];
    assert At(m, n - 1) == TrackedAt(tracked, n - 1);
    if NoneTracked(tracked, n - 1, n) {
      forall k ensures At(m, k) == TrackedAt(tracked', k) { assert At(m, k) == TrackedAt(tracked, k); }
    } else {
      assert TrackedAt(tracked', n - 1) == None;
    }
  }

  lemma {:induction false} UpStep(m: Index, m': Index, m'': Index, idx: int, hi: int)
    requires MovedUp(m, m', idx, hi) && idx <= hi && At(m, hi).None?
    requires forall k :: At(m'', k) == if k == idx then At(m', idx - 1) else if k == idx - 1 then None else At(m', k)
    ensures MovedUp(m, m'', idx - 1, hi)
  {
  }

  lemma {:induction false} PoppedThenDown(m: Index, m': Index, m'': Index, pos: int, n: int)
    requires (forall k :: At(m', k) == if k == pos then None else At(m, k)) && MovedDown(m', m'', pos, n)
    ensures Deleted(m, m'', pos, n)
  {
    forall k ensures At(m'', k) == if pos <= k < n then At(m, k + 1) else if k == pos || k == n > pos then None
                                   else At(m, k) {
      assert At(m', k + 1) == if k + 1 == pos then None else At(m, k + 1);
    }
  }

  lemma {:induction false} DownStep(m: Index, m': Index, m'': Index, lo: int, idx: int)
    requires MovedDown(m, m', lo, idx) && lo <= idx && At(m, lo).None?
    requires forall k :: At(m'', k) == if k == idx then At(m', idx + 1) else if k == idx + 1 then None else At(m', k)
    ensures MovedDown(m, m'', lo, idx + 1)
  {
  }
}
