/** Selection and stable sorting under a key, as Python's `min(..., key=)` and `sorted(..., key=)`
    use it: both prefer the element that comes first when keys are equal. */
module Ordering {

  ghost predicate TotalPreorder<T(!new)>(le: (T, T) -> bool)
  {
    && (forall a, b :: le(a, b) || le(b, a))
    && (forall a, b, c :: le(a, b) && le(b, c) ==> le(a, c))
  }

  function RemoveAt<T>(s: seq<T>, i: nat): (r: seq<T>)
    requires i < |s|
    ensures |r| == |s| - 1
  {
    s[..i] + s[i + 1..]
  }

  /** The position of the first least element. */
  function FirstMin<T>(s: seq<T>, le: (T, T) -> bool): (i: nat)
    requires s != []
    ensures i < |s|
  {
    if |s| == 1 then 0
    else
      var j := FirstMin(s[1..], le) + 1;
      if le(s[0], s[j]) then 0 else j
  }

  ghost predicate IsFirstMin<T>(s: seq<T>, le: (T, T) -> bool, i: int)
  {
    && 0 <= i < |s|
    && (forall j :: 0 <= j < |s| ==> le(s[i], s[j]))
    && (forall j :: 0 <= j < i ==> !le(s[j], s[i]))
  }

  lemma {:induction false} FirstMinIsFirst<T(!new)>(s: seq<T>, le: (T, T) -> bool)
    requires s != [] && TotalPreorder(le)
    ensures IsFirstMin(s, le, FirstMin(s, le))
  {
    if |s| > 1 {
      FirstMinIsFirst(s[1..], le);
      var j := FirstMin(s[1..], le);
      assert forall k :: 0 < k < |s| ==> s[k] == s[1..][k - 1];
    } else {
      assert le(s[0], s[0]);
    }
  }

  lemma FirstMinUnique<T(!new)>(s: seq<T>, le: (T, T) -> bool, i: int)
    requires s != [] && TotalPreorder(le) && IsFirstMin(s, le, i)
    ensures i == FirstMin(s, le)
  {
    FirstMinIsFirst(s, le);
  }

  /** `min(keys, key=...)`: the scan keeps the current best unless a later key is strictly smaller. */
  method SelectMin<T(!new)>(s: seq<T>, le: (T, T) -> bool) returns (best: nat)
    requires s != [] && TotalPreorder(le)
    ensures best == FirstMin(s, le)
    ensures best < |s|
  {
    best := 0;
    assert le(s[0], s[0]);
    for i := 1 to |s|
      invariant IsFirstMin(s[..i], le, best)
    {
      assert s[..i + 1] == s[..i] + [s[i]];
      if !le(s[best], s[i]) {
        best := i;
      }
      assert le(s[i], s[i]);
    }
    assert s[..|s|] == s;
    FirstMinUnique(s, le, best);
  }

  // ----- stable sort

  function Insert<T>(x: T, s: seq<T>, le: (T, T) -> bool): (r: seq<T>)
  {
    if s == [] || le(x, s[0]) then [x] + s
    else [s[0]] + Insert(x, s[1..], le)
  }

  function Sort<T>(s: seq<T>, le: (T, T) -> bool): (r: seq<T>)
  {
    if s == [] then [] else Insert(s[0], Sort(s[1..], le), le)
  }

  ghost predicate Sorted<T>(s: seq<T>, le: (T, T) -> bool)
  {
    forall i, j :: 0 <= i < j < |s| ==> le(s[i], s[j])
  }

  /** The elements of `s` whose key equals that of `x`, in order. */
  ghost function Class<T>(s: seq<T>, le: (T, T) -> bool, x: T): seq<T>
  {
    if s == [] then []
    else (if le(s[0], x) && le(x, s[0]) then [s[0]] else []) + Class(s[1..], le, x)
  }

  /** What Python documents for `sorted`: ordered by key, equal keys in their original order. */
  ghost predicate StableSortOf<T(!new)>(t: seq<T>, s: seq<T>, le: (T, T) -> bool)
  {
    Sorted(t, le) && forall x :: Class(t, le, x) == Class(s, le, x)
  }

  lemma {:induction false} InsertMultiset<T>(x: T, s: seq<T>, le: (T, T) -> bool)
    ensures multiset(Insert(x, s, le)) == multiset([x]) + multiset(s)
    ensures |Insert(x, s, le)| == |s| + 1
  {
    if s == [] || le(x, s[0]) {
    } else {
      InsertMultiset(x, s[1..], le);
      assert s == [s[0]] + s[1..];
    }
  }

  lemma {:induction false} SortMultiset<T>(s: seq<T>, le: (T, T) -> bool)
    ensures multiset(Sort(s, le)) == multiset(s)
    ensures |Sort(s, le)| == |s|
  {
    if s != [] {
      SortMultiset(s[1..], le);
      InsertMultiset(s[0], Sort(s[1..], le), le);
      assert s == [s[0]] + s[1..];
    }
  }

  lemma {:induction false} InsertSorted<T(!new)>(x: T, s: seq<T>, le: (T, T) -> bool)
    requires TotalPreorder(le) && Sorted(s, le)
    ensures Sorted(Insert(x, s, le), le)
  {
    if s == [] || le(x, s[0]) {
    } else {
      InsertSorted(x, s[1..], le);
      var r := Insert(x, s[1..], le);
      InsertMultiset(x, s[1..], le);
      forall j | 0 <= j < |r| ensures le(s[0], r[j]) {
        assert r[j] in multiset(r);
        assert r[j] == x || r[j] in s[1..];
      }
    }
  }

  lemma {:induction false} InsertClass<T(!new)>(x: T, s: seq<T>, le: (T, T) -> bool, y: T)
    requires TotalPreorder(le) && Sorted(s, le)
    ensures Class(Insert(x, s, le), le, y) == Class([x] + s, le, y)
  {
    if s == [] || le(x, s[0]) {
    } else {
      InsertClass(x, s[1..], le, y);
      assert ([x] + s[1..])[1..] == s[1..] && ([x] + s)[1..] == s;
      var r := Insert(x, s, le);
      assert r[1..] == Insert(x, s[1..], le);
    }
  }

  /** The insertion sort of the model is the stable sort. */
  lemma {:induction false} SortIsStable<T(!new)>(s: seq<T>, le: (T, T) -> bool)
    requires TotalPreorder(le)
    ensures StableSortOf(Sort(s, le), s, le)
  {
    if s != [] {
      SortIsStable(s[1..], le);
      InsertSorted(s[0], Sort(s[1..], le), le);
      forall x ensures Class(Sort(s, le), le, x) == Class(s, le, x) {
        InsertClass(s[0], Sort(s[1..], le), le, x);
        assert ([s[0]] + Sort(s[1..], le))[1..] == Sort(s[1..], le);
      }
    }
  }

  lemma {:induction false} ClassNonempty<T>(s: seq<T>, le: (T, T) -> bool, x: T)
    ensures Class(s, le, x) != [] ==> exists i :: 0 <= i < |s| && le(s[i], x) && le(x, s[i])
  {
    if s != [] && !(le(s[0], x) && le(x, s[0])) {
      ClassNonempty(s[1..], le, x);
      if i :| 0 <= i < |s[1..]| && le(s[1..][i], x) && le(x, s[1..][i]) {
        assert s[i + 1] == s[1..][i];
      }
    }
  }

  /** A stable sort is unique, so any two computations that keep the promise agree. */
  lemma {:induction false} StableSortUnique<T(!new)>(t: seq<T>, u: seq<T>, s: seq<T>, le: (T, T) -> bool)
    requires TotalPreorder(le)
    requires StableSortOf(t, s, le) && StableSortOf(u, s, le)
    ensures t == u
  {
    forall x ensures Class(t, le, x) == Class(u, le, x) {
      assert Class(t, le, x) == Class(s, le, x) == Class(u, le, x);
    }
    SameClasses(t, u, le);
  }

  lemma {:induction false} SameClasses<T(!new)>(t: seq<T>, u: seq<T>, le: (T, T) -> bool)
    requires TotalPreorder(le) && Sorted(t, le) && Sorted(u, le)
    requires forall x :: Class(t, le, x) == Class(u, le, x)
    ensures t == u
    decreases |t|
  {
    if t != [] {
      var a := t[0];
      assert le(a, a);
      assert Class(t, le, a) == Class(u, le, a);
      assert Class(t, le, a)[0] == a;
      ClassNonempty(u, le, a);
      var i :| 0 <= i < |u| && le(u[i], a) && le(a, u[i]);
      assert le(u[0], a) by { if i > 0 { assert le(u[0], u[i]); } }
      var b := u[0];
      assert le(b, b);
      assert Class(t, le, b) == Class(u, le, b);
      ClassNonempty(t, le, b);
      var j :| 0 <= j < |t| && le(t[j], b) && le(b, t[j]);
      assert le(a, b) by { if j > 0 { assert le(t[0], t[j]); } }
      assert Class(u, le, a)[0] == b;
      forall x ensures Class(t[1..], le, x) == Class(u[1..], le, x) {
        assert Class(t, le, x) == Class(u, le, x);
        var h := if le(a, x) && le(x, a) then [a] else [];
        assert Class(t, le, x) == h + Class(t[1..], le, x);
        assert Class(u, le, x) == h + Class(u[1..], le, x);
        assert Class(t[1..], le, x) == Class(t, le, x)[|h|..];
        assert Class(u[1..], le, x) == Class(u, le, x)[|h|..];
      }
      SameClasses(t[1..], u[1..], le);
      assert t == [a] + t[1..] && u == [b] + u[1..];
    }
  }

  /** Taking the first minimum out peels the head off the stable sort. */
  lemma {:induction false} FirstMinIsSortHead<T>(s: seq<T>, le: (T, T) -> bool)
    requires s != []
    ensures Sort(s, le) == [s[FirstMin(s, le)]] + Sort(RemoveAt(s, FirstMin(s, le)), le)
  {
    if |s| == 1 {
      assert RemoveAt(s, 0) == [];
    } else {
      var rest := s[1..];
      FirstMinIsSortHead(rest, le);
      var j := FirstMin(rest, le);
      if le(s[0], s[j + 1]) {
        assert RemoveAt(s, 0) == rest;
      } else {
        var removed := RemoveAt(s, j + 1);
        assert removed[0] == s[0] && removed[1..] == RemoveAt(rest, j);
        assert ([rest[j]] + Sort(RemoveAt(rest, j), le))[1..] == Sort(RemoveAt(rest, j), le);
      }
    }
  }
}
