/**
 * Starred unpacking, `a, *b, c = xs`: one pass over the elements decides which target each belongs
 * to. The PEP 3132 rule gives the suffix its elements from the end and the star what is left.
 */
module Unpacking {
  import opened Wrappers

  type Dep = nat

  datatype Target = Name(name: string) | Starred(name: string)

  ghost predicate OneStar(elts: seq<Target>, star: nat) {
    star < |elts| && forall k :: 0 <= k < |elts| ==> (elts[k].Starred? <==> k == star)
  }

  /** PEP 3132: the target of element `i` of `n`, with `m` targets of which `star` is starred. */
  function Prescribed(i: int, n: int, m: int, star: int): int {
    if i < star then i else if i < n - (m - star - 1) then star else i - n + m
  }

  /** The target the one-pass matcher gives element `i`. */
  function Matched(i: int, n: int, m: int, star: int): int {
    if i <= star || n < m then i else if i - n + m > star then i - n + m else star
  }

  /**
   * The matcher's pairs: for each element in order the target it is matched with. `ok` is false
   * where the kernel raises an `IndexError`, out of targets.
   */
  method MatchContainer(n: nat, elts: seq<Target>) returns (matched: seq<nat>, ok: bool)
    ensures |matched| <= n && forall i :: 0 <= i < |matched| ==> matched[i] < |elts|
    ensures ok ==> |matched| == n
    ensures forall star: nat :: OneStar(elts, star) ==>
              ok && forall i :: 0 <= i < n ==> matched[i] == Matched(i, n, |elts|, star)
    ensures (forall k :: 0 <= k < |elts| ==> elts[k].Name?) ==>
              (ok <==> n <= |elts|) && forall i :: 0 <= i < |matched| ==> matched[i] == i
  {
    matched := [];
    var curNode: Option<Target> := None;
    var curEltIdx := -1;
    for i := 0 to n
      invariant |matched| == i && -1 <= curEltIdx < |elts| && curEltIdx <= i - 1
      invariant curNode == if curEltIdx == -1 then None else Some(elts[curEltIdx])
      invariant i > 0 ==> curEltIdx >= 0 && matched[i - 1] == curEltIdx
      invariant i == 0 ==> curEltIdx == -1
      invariant forall j :: 0 <= j < i ==> matched[j] < |elts|
      invariant forall star: nat :: OneStar(elts, star) ==>
                  forall j :: 0 <= j < i ==> matched[j] == Matched(j, n, |elts|, star)
      invariant (forall k :: 0 <= k < |elts| ==> elts[k].Name?) ==> forall j :: 0 <= j < i ==> matched[j] == j
    {
      if curNode.None? || curNode.value.Name? || |elts| - curEltIdx - 1 >= n - i {
        curEltIdx := curEltIdx + 1;
        if curEltIdx >= |elts| {
          assert forall star: nat :: OneStar(elts, star) ==> elts[star].Starred?;
          return matched, false;
        }
        curNode := Some(elts[curEltIdx]);
      }
      matched := matched + [curEltIdx];
    }
    ok := true;
  }

  /**
   * The matcher follows PEP 3132 for every element exactly if the star has something to take, or
   * stands last: given nothing, it takes an element all the same, and the later targets slip by one.
   */
  lemma {:induction false} MatcherFollowsRule(n: nat, m: nat, star: nat)
    requires star < m && n >= m - 1
    ensures (forall i: nat :: i < n ==> Matched(i, n, m, star) == Prescribed(i, n, m, star))
            <==> n >= m || star == m - 1
  {
    if n == m - 1 && star < m - 1 {
      assert Matched(star, n, m, star) != Prescribed(star, n, m, star);
    }
  }

  /** A prescribed assignment is in order and leaves no target but the star without its one element. */
  lemma {:induction false} PrescribedIsComplete(n: nat, m: nat, star: nat, target: nat)
    requires star < m && n >= m - 1 && target < m && target != star
    ensures exists i: nat :: i < n && Prescribed(i, n, m, star) == target
    ensures forall i: nat, j: nat ::
              (i < n && j < n && Prescribed(i, n, m, star) == target == Prescribed(j, n, m, star)) ==> i == j
    ensures forall i: nat, j: nat :: i < j < n ==> 0 <= Prescribed(i, n, m, star) <= Prescribed(j, n, m, star) < m
  {
    var i: nat := if target < star then target else target + n - m;
    assert Prescribed(i, n, m, star) == target;
  }

  //////////////////// What is stored ////////////////////

  datatype Store =
    | Bind(target: nat, deps: set<Dep>)                // one element, to a plain target
    | Gather(target: nat, elements: seq<Option<Dep>>)      // all elements of the starred target

  function DepSet(dep: Option<Dep>, extra: set<Dep>): set<Dep> { if dep.Some? then {dep.value} + extra else extra }

  /** `k` elements from `first` on, to as many targets from `target` on. */
  function Binds(deps: seq<Option<Dep>>, first: nat, target: nat, k: nat, extra: set<Dep>): seq<Store>
    requires first + k <= |deps|
    ensures |Binds(deps, first, target, k, extra)| == k
  {
    if k == 0 then []
    else Binds(deps, first, target, k - 1, extra) + [Bind(target + k - 1, DepSet(deps[first + k - 1], extra))]
  }

  /** By the rule: plain targets in element order, each depending on its element; then the star. */
  function PrescribedStores(deps: seq<Option<Dep>>, m: nat, star: nat, extra: set<Dep>): seq<Store>
    requires star < m <= |deps| + 1
  {
    var suffix := m - star - 1;
    Binds(deps, 0, 0, star, extra) + Binds(deps, |deps| - suffix, star + 1, suffix, extra)
    + [Gather(star, deps[star..|deps| - suffix])]
  }

  /** The first element after those of the star. */
  function Back(n: nat, m: nat, star: nat): nat
    requires star < m
  {
    if n >= m then n - (m - star - 1) else star + 1
  }

  /** The stores the tracer makes, which does not store a star it matched nothing with. */
  function StoresOf(deps: seq<Option<Dep>>, m: nat, star: nat, extra: set<Dep>): seq<Store>
    requires star < m <= |deps| + 1
  {
    var n := |deps|;
    StoresUpTo(deps, m, star, extra, n) + if star == n then [] else [Gather(star, deps[star..Back(n, m, star)])]
  }

  /** Those of the first `i` elements, without the star's. */
  function StoresUpTo(deps: seq<Option<Dep>>, m: nat, star: nat, extra: set<Dep>, i: nat): seq<Store>
    requires star < m <= |deps| + 1 && i <= |deps|
  {
    var back := Back(|deps|, m, star);
    Binds(deps, 0, 0, if i < star then i else star, extra)
    + if i <= back then [] else Binds(deps, back, star + 1, i - back, extra)
  }

  lemma {:induction false} OneMoreStore(deps: seq<Option<Dep>>, m: nat, star: nat, extra: set<Dep>, i: nat)
    requires star < m <= |deps| + 1 && i < |deps|
    ensures var t := Matched(i, |deps|, m, star);
            0 <= t && StoresUpTo(deps, m, star, extra, i + 1)
            == StoresUpTo(deps, m, star, extra, i) + if t == star then [] else [Bind(t, DepSet(deps[i], extra))]
    ensures Matched(i, |deps|, m, star) == star <==> star <= i < Back(|deps|, m, star)
  {
  }

  /** A plain store depends on its element, if that depends on anything, and on the extra dependencies. */
  ghost predicate DependsOn(s: Store, target: int, dep: Option<Dep>, extra: set<Dep>) {
    s.Bind? && s.target == target && forall d :: d in s.deps <==> d in extra || dep == Some(d)
  }

  lemma {:induction false} BindsDepend(deps: seq<Option<Dep>>, first: nat, target: nat, k: nat, extra: set<Dep>, j: nat)
    requires first + k <= |deps| && j < k
    ensures DependsOn(Binds(deps, first, target, k, extra)[j], target + j, deps[first + j], extra)
    decreases k
  {
    if j < k - 1 { BindsDepend(deps, first, target, k - 1, extra, j); }
  }

  /** Where the store of an element comes among those of plain targets: after the elements before it,
      but for those of the star. */
  function StoreIndex(n: nat, m: nat, star: nat, i: nat): int
    requires star < m
  {
    if i < star then i else star + i - Back(n, m, star)
  }

  /** Each element that does not go to the star is stored to its target, with its own dependency. */
  lemma {:induction false} ElementStored(deps: seq<Option<Dep>>, m: nat, star: nat, extra: set<Dep>, i: nat)
    requires star < m <= |deps| + 1 && i < |deps| && Matched(i, |deps|, m, star) != star
    ensures var j := StoreIndex(|deps|, m, star, i);
            0 <= j < |StoresOf(deps, m, star, extra)|
            && DependsOn(StoresOf(deps, m, star, extra)[j], Matched(i, |deps|, m, star), deps[i], extra)
  {
    hide Binds, DependsOn;
    var n, back := |deps|, Back(|deps|, m, star);
    var head := Binds(deps, 0, 0, star, extra);
    if i < star {
      BindsDepend(deps, 0, 0, star, extra, i);
    } else {
      BindsDepend(deps, back, star + 1, n - back, extra, i - back);
      InSecondPart(head, Binds(deps, back, star + 1, n - back, extra), i - back);
    }
  }

  lemma {:induction false} InSecondPart<T>(first: seq<T>, rest: seq<T>, i: nat)
    requires i < |rest|
    ensures (first + rest)[|first| + i] == rest[i]
  {
  }

  /** The stores are the prescribed ones exactly if there are at least as many elements as targets. */
  lemma {:induction false} StoresFollowRule(deps: seq<Option<Dep>>, m: nat, star: nat, extra: set<Dep>)
    requires star < m <= |deps| + 1
    ensures StoresOf(deps, m, star, extra) == PrescribedStores(deps, m, star, extra) <==> |deps| >= m
  {
    if |deps| < m {
      assert |StoresOf(deps, m, star, extra)| != |PrescribedStores(deps, m, star, extra)|;
    }
  }

  lemma {:induction false} NoStores(deps: seq<Option<Dep>>, m: nat, star: nat, extra: set<Dep>)
    requires star < m <= |deps| + 1
    ensures StoresUpTo(deps, m, star, extra, 0) == []
  {
  }

  lemma {:induction false} StarIsAt(elts: seq<Target>, star: nat, k: nat)
    requires OneStar(elts, star)
    ensures star < |elts| && (k < |elts| ==> (elts[k].Starred? <==> k == star))
  {
  }

  /** Unpacking with one star and enough elements for the other targets. */
  method StoreTargets(deps: seq<Option<Dep>>, elts: seq<Target>, extra: set<Dep>, ghost star: nat)
    returns (stores: seq<Store>)
    requires OneStar(elts, star) && |deps| >= |elts| - 1
    ensures stores == StoresOf(deps, |elts|, star, extra)
  {
    hide Binds, StoresUpTo, OneStar;
    stores := [];
    StarIsAt(elts, star, star);
    NoStores(deps, |elts|, star, extra);
    var savedStarred: Option<nat> := None;
    var savedStarredDeps: seq<Option<Dep>> := [];
    var matched, ok := MatchContainer(|deps|, elts);
    ghost var back := Back(|deps|, |elts|, star);
    for i := 0 to |deps|
      invariant stores == StoresUpTo(deps, |elts|, star, extra, i)
      invariant savedStarred == if i <= star then None else Some(star)
      invariant savedStarredDeps == if i <= star then [] else deps[star..if i < back then i else back]
    {
      StarIsAt(elts, star, matched[i]);
      assert matched[i] == Matched(i, |deps|, |elts|, star);
      OneMoreStore(deps, |elts|, star, extra, i);
      if elts[matched[i]].Starred? {
        savedStarred := Some(matched[i]);
        savedStarredDeps := savedStarredDeps + [deps[i]];
      } else {
        stores := stores + [Bind(matched[i], DepSet(deps[i], extra))];
      }
    }
    if savedStarred.Some? {
      stores := stores + [Gather(savedStarred.value, savedStarredDeps)];
    }
  }
}
