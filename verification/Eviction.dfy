/** The greedy eviction loop, written four ways in the cache modules, for an arbitrary key and an
    arbitrary cap test. `over(s)` says that the entries `s` break a cap. */
module Eviction {
  import opened Ordering

  /** "While over a cap and not empty, delete the first entry with the least key." */
  function Evict<T>(s: seq<T>, le: (T, T) -> bool, over: seq<T> -> bool): (r: seq<T>)
    ensures |r| <= |s|
    ensures r == [] || !over(r)
    decreases |s|
  {
    if s != [] && over(s) then Evict(RemoveAt(s, FirstMin(s, le)), le, over) else s
  }

  lemma EvictStep<T>(s: seq<T>, le: (T, T) -> bool, over: seq<T> -> bool)
    requires s != [] && over(s)
    ensures Evict(s, le, over) == Evict(RemoveAt(s, FirstMin(s, le)), le, over)
  {
  }

  /** How many elements must go from the front of `t` before no cap is broken. */
  function ShortestCut<T>(t: seq<T>, over: seq<T> -> bool): (k: nat)
    ensures k <= |t|
    ensures k == |t| || !over(t[k..])
    ensures forall j :: 0 <= j < k ==> over(t[j..])
    decreases |t|
  {
    if t != [] && over(t) then
      var k := 1 + ShortestCut(t[1..], over);
      assert t[1..][k - 1..] == t[k..];
      assert forall j :: 0 < j < k ==> t[1..][j - 1..] == t[j..];
      assert t[0..] == t;
      k
    else
      assert t[0..] == t;
      0
  }

  /** A cap test that looks only at which entries are kept, not at their order in the dict. */
  ghost predicate OrderBlind<T(!new)>(over: seq<T> -> bool, le: (T, T) -> bool)
  {
    forall s :: over(Sort(s, le)) == over(s)
  }

  /** Greedy min-deletion = stable sort by key, then drop the shortest prefix that satisfies the caps. */
  lemma {:induction false} EvictIsSortAndCut<T(!new)>(s: seq<T>, le: (T, T) -> bool, over: seq<T> -> bool)
    requires OrderBlind(over, le)
    ensures var t := Sort(s, le);
            Sort(Evict(s, le, over), le) == t[ShortestCut(t, over)..]
    decreases |s|
  {
    var t := Sort(s, le);
    SortMultiset(s, le);
    assert over(t) == over(s);
    if s != [] && over(s) {
      var s' := RemoveAt(s, FirstMin(s, le));
      FirstMinIsSortHead(s, le);
      assert t[1..] == Sort(s', le);
      EvictIsSortAndCut(s', le, over);
      assert t[1..][ShortestCut(t[1..], over)..] == t[ShortestCut(t, over)..];
    }
  }

  /** The deleted entries, in the order the loop deletes them. */
  function Victims<T>(s: seq<T>, le: (T, T) -> bool, over: seq<T> -> bool): (v: seq<T>)
  {
    var t := Sort(s, le);
    assert |t| == |s| by { SortMultiset(s, le); }
    t[..ShortestCut(t, over)]
  }

  /** Nothing is invented or lost: the input is the victims and the survivors. */
  lemma EvictConserves<T(!new)>(s: seq<T>, le: (T, T) -> bool, over: seq<T> -> bool)
    requires OrderBlind(over, le)
    ensures var r := Evict(s, le, over); var v := Victims(s, le, over);
            && multiset(v) + multiset(r) == multiset(s)
            && |v| + |r| == |s|
            && Sort(s, le) == v + Sort(r, le)
  {
    var t := Sort(s, le);
    var r := Evict(s, le, over);
    var k := ShortestCut(t, over);
    assert t[k..] == Sort(r, le) by { EvictIsSortAndCut(s, le, over); }
    SortMultiset(s, le);
    SortMultiset(r, le);
    CutApart(t, k);
  }

  lemma CutApart<T>(t: seq<T>, k: nat)
    requires k <= |t|
    ensures t == t[..k] + t[k..] && multiset(t) == multiset(t[..k]) + multiset(t[k..]) && |t| == k + |t[k..]|
  {
    assert t == t[..k] + t[k..];
  }

  /** The survivors fit or none is left, none has a smaller key than a victim, and putting the last
      victims back breaks a cap. */
  lemma EvictGuarantees<T(!new)>(s: seq<T>, le: (T, T) -> bool, over: seq<T> -> bool)
    requires TotalPreorder(le) && OrderBlind(over, le)
    ensures var r := Evict(s, le, over); var v := Victims(s, le, over);
            && (r == [] || !over(r))
            && (forall x, y :: x in v && y in r ==> le(x, y))
            && (forall j :: 0 <= j < |v| ==> over(v[j..] + Sort(r, le)))
  {
    var t := Sort(s, le);
    var r := Evict(s, le, over);
    var v := Victims(s, le, over);
    var k := |v|;
    assert v == t[..k] && k <= |t| by { SortMultiset(s, le); }
    assert Sorted(t, le) by { SortIsStable(s, le); }
    assert t == v + Sort(r, le) by { EvictConserves(s, le, over); }
    assert multiset(r) == multiset(t[k..]) by {
      assert t[k..] == Sort(r, le);
      SortMultiset(r, le);
    }
    CutIsOrdered(t, le, k, r);
    assert k == ShortestCut(t, over) by { SortMultiset(s, le); }
    forall j | 0 <= j < k ensures over(v[j..] + Sort(r, le)) {
      assert v[j..] + Sort(r, le) == t[j..];
    }
  }

  lemma CutIsOrdered<T(!new)>(t: seq<T>, le: (T, T) -> bool, k: nat, r: seq<T>)
    requires Sorted(t, le) && k <= |t| && multiset(r) == multiset(t[k..])
    ensures forall x, y :: x in t[..k] && y in r ==> le(x, y)
  {
    forall x, y | x in t[..k] && y in r ensures le(x, y) {
      assert y in multiset(r);
      assert y in t[k..];
      var i :| 0 <= i < k && t[..k][i] == x;
      var j :| 0 <= j < |t[k..]| && t[k..][j] == y;
      assert le(t[i], t[k + j]);
    }
  }

  lemma {:induction false} SurvivorsAreOld<T>(s: seq<T>, le: (T, T) -> bool, over: seq<T> -> bool, y: T)
    requires y in Evict(s, le, over)
    ensures y in s
    decreases |s|
  {
    if s != [] && over(s) { SurvivorsAreOld(RemoveAt(s, FirstMin(s, le)), le, over, y); }
  }

  /** For any cap test at all: what was deleted is not above what was kept. */
  lemma {:induction false} EvictedNotAbove<T(!new)>(s: seq<T>, le: (T, T) -> bool, over: seq<T> -> bool, x: T, y: T)
    requires TotalPreorder(le) && x in s && x !in Evict(s, le, over) && y in Evict(s, le, over)
    ensures le(x, y)
    decreases |s|
  {
    var m := FirstMin(s, le);
    SurvivorsAreOld(s, le, over, y);
    if x == s[m] {
      FirstMinIsFirst(s, le);
      var j :| 0 <= j < |s| && s[j] == y;
    } else {
      OthersStay(s, m, x);
      EvictedNotAbove(RemoveAt(s, m), le, over, x, y);
    }
  }

  /** Survivors keep their dict order: position by position they form a subsequence of the input. */
  ghost predicate Subsequence<T>(r: seq<T>, s: seq<T>)
  {
    if r == [] then true
    else s != [] && (if r[0] == s[0] then Subsequence(r[1..], s[1..]) else Subsequence(r, s[1..]))
  }

  lemma {:induction false} SubsequenceSkip<T>(r: seq<T>, s: seq<T>, x: T)
    requires Subsequence(r, s)
    ensures Subsequence(r, [x] + s)
    decreases |s|, 1
  {
    assert ([x] + s)[1..] == s;
    if r != [] && r[0] == x {
      SubsequenceTail(r, s);
    }
  }

  lemma {:induction false} SubsequenceTail<T>(r: seq<T>, s: seq<T>)
    requires r != [] && Subsequence(r, s)
    ensures Subsequence(r[1..], s)
    decreases |s|, 0
  {
    assert s == [s[0]] + s[1..];
    if r[0] == s[0] {
      SubsequenceSkip(r[1..], s[1..], s[0]);
    } else {
      SubsequenceTail(r, s[1..]);
      SubsequenceSkip(r[1..], s[1..], s[0]);
    }
  }

  lemma {:induction false} SubsequenceRemove<T>(r: seq<T>, s: seq<T>, i: nat)
    requires i < |s| && Subsequence(r, RemoveAt(s, i))
    ensures Subsequence(r, s)
    decreases |s|
  {
    assert s == [s[0]] + s[1..];
    if i == 0 {
      assert RemoveAt(s, 0) == s[1..];
      SubsequenceSkip(r, s[1..], s[0]);
    } else {
      var q := RemoveAt(s, i);
      assert q[0] == s[0] && q[1..] == RemoveAt(s[1..], i - 1);
      if r != [] {
        if r[0] == s[0] {
          SubsequenceRemove(r[1..], s[1..], i - 1);
        } else {
          SubsequenceRemove(r, s[1..], i - 1);
        }
      }
    }
  }

  lemma {:induction false} SubsequenceRefl<T>(s: seq<T>)
    ensures Subsequence(s, s)
  {
    if s != [] { SubsequenceRefl(s[1..]); }
  }

  lemma {:induction false} EvictKeepsOrder<T>(s: seq<T>, le: (T, T) -> bool, over: seq<T> -> bool)
    ensures Subsequence(Evict(s, le, over), s)
    decreases |s|
  {
    if s != [] && over(s) {
      EvictKeepsOrder(RemoveAt(s, FirstMin(s, le)), le, over);
      SubsequenceRemove(Evict(s, le, over), s, FirstMin(s, le));
    } else {
      SubsequenceRefl(s);
    }
  }

  /** Deleting an entry never breaks a cap that held. */
  ghost predicate Shrinking<T(!new)>(over: seq<T> -> bool)
  {
    forall s, i :: 0 <= i < |s| && over(RemoveAt(s, i)) ==> over(s)
  }

  /** One loop with the guard `a || b` leaves what a loop on `a` followed by a loop on `b` leaves. */
  lemma {:induction false} TwoPhaseIsOnePhase<T(!new)>(s: seq<T>, le: (T, T) -> bool,
                                                        a: seq<T> -> bool, b: seq<T> -> bool)
    requires Shrinking(a)
    ensures Evict(Evict(s, le, a), le, b) == Evict(s, le, x => a(x) || b(x))
    decreases |s|
  {
    if s != [] {
      var s' := RemoveAt(s, FirstMin(s, le));
      if a(s) {
        TwoPhaseIsOnePhase(s', le, a, b);
      } else if b(s) {
        assert !a(s');
        TwoPhaseIsOnePhase(s', le, a, b);
        assert Evict(s', le, a) == s';
      }
    }
  }

  // ----- a key that may change from pass to pass

  /** The loop when the key is computed afresh in every pass: pass `n` orders by `le(n)`. */
  function EvictClocked<T>(s: seq<T>, le: nat -> (T, T) -> bool, over: seq<T> -> bool, n: nat): (r: seq<T>)
    decreases |s|
  {
    if s != [] && over(s) then EvictClocked(RemoveAt(s, FirstMin(s, le(n))), le, over, n + 1) else s
  }

  lemma OthersStay<T(!new)>(s: seq<T>, m: nat, x: T)
    requires m < |s|
    ensures x in RemoveAt(s, m) ==> x in s
    ensures x in s && x != s[m] ==> x in RemoveAt(s, m)
  {
    assert s == s[..m] + [s[m]] + s[m + 1..];
  }

  /** The least element is not one that is above some survivor. */
  lemma LeastIsNot<T(!new)>(s: seq<T>, le: (T, T) -> bool, x: T, y: T)
    requires TotalPreorder(le) && s != [] && !le(y, x) && y in s && x in RemoveAt(s, FirstMin(s, le))
    ensures y in RemoveAt(s, FirstMin(s, le))
  {
    var m := FirstMin(s, le);
    FirstMinIsFirst(s, le);
    OthersStay(s, m, x);
    OthersStay(s, m, y);
  }

  /** If `x` is strictly below `y` in every pass, the loop never keeps `x` while it deletes `y`. */
  lemma {:induction false} DominatedGoesFirst<T(!new)>(s: seq<T>, le: nat -> (T, T) -> bool, over: seq<T> -> bool,
                                                 n: nat, x: T, y: T)
    requires forall i :: TotalPreorder(le(i))
    requires forall i :: !le(i)(y, x)
    requires y in s
    requires x in EvictClocked(s, le, over, n)
    ensures y in EvictClocked(s, le, over, n)
    decreases |s|
  {
    if s != [] && over(s) {
      var s' := RemoveAt(s, FirstMin(s, le(n)));
      ClockedSubset(s', le, over, n + 1, x);
      LeastIsNot(s, le(n), x, y);
      DominatedGoesFirst(s', le, over, n + 1, x, y);
    }
  }

  /** What was deleted was not above what was kept in the pass that deleted it. */
  lemma {:induction false} ClockedNotAbove<T(!new)>(s: seq<T>, le: nat -> (T, T) -> bool, over: seq<T> -> bool,
                                               n: nat, x: T, y: T) returns (i: nat)
    requires forall k :: TotalPreorder(le(k))
    requires x in s && x !in EvictClocked(s, le, over, n) && y in EvictClocked(s, le, over, n)
    ensures le(i)(x, y)
    decreases |s|
  {
    var m := FirstMin(s, le(n));
    ClockedSubset(s, le, over, n, y);
    if x == s[m] {
      FirstMinIsFirst(s, le(n));
      var j :| 0 <= j < |s| && s[j] == y;
      return n;
    }
    OthersStay(s, m, x);
    i := ClockedNotAbove(RemoveAt(s, m), le, over, n + 1, x, y);
  }

  lemma {:induction false} ClockedFits<T>(s: seq<T>, le: nat -> (T, T) -> bool, over: seq<T> -> bool, n: nat)
    ensures var r := EvictClocked(s, le, over, n); (r == [] || !over(r)) && (!over(s) ==> r == s)
    decreases |s|
  {
    if s != [] && over(s) { ClockedFits(RemoveAt(s, FirstMin(s, le(n))), le, over, n + 1); }
  }

  lemma {:induction false} ClockedSubset<T>(s: seq<T>, le: nat -> (T, T) -> bool, over: seq<T> -> bool, n: nat, x: T)
    requires x in EvictClocked(s, le, over, n)
    ensures x in s
    decreases |s|
  {
    if s != [] && over(s) {
      ClockedSubset(RemoveAt(s, FirstMin(s, le(n))), le, over, n + 1, x);
    }
  }
}
