/** Sorting by a strict order, and why a sorted listing of distinct elements is unique. */
module Sorting {

  /** `less` orders the elements of `s` strictly and totally. */
  ghost predicate Orders<T(!new)>(less: (T, T) -> bool, s: set<T>) {
    && (forall x :: x in s ==> !less(x, x))
    && (forall x, y, z :: x in s && y in s && z in s && less(x, y) && less(y, z) ==> less(x, z))
    && (forall x, y :: x in s && y in s && x != y ==> less(x, y) || less(y, x))
  }

  ghost predicate Ascending<T(!new)>(less: (T, T) -> bool, s: seq<T>) {
    forall i, j :: 0 <= i < j < |s| ==> less(s[i], s[j])
  }

  ghost predicate Distinct<T(!new)>(s: seq<T>) {
    forall i, j :: 0 <= i < j < |s| ==> s[i] != s[j]
  }

  ghost function Elements<T>(s: seq<T>): set<T> {
    set x | x in s
  }

  function Take<T>(s: seq<T>, n: nat): seq<T> {
    if |s| <= n then s else s[..n]
  }

  /** Before the first element that does not come before `x`, so that sorting is stable. */
  function Insert<T>(less: (T, T) -> bool, x: T, s: seq<T>): seq<T> {
    if s == [] || !less(s[0], x) then [x] + s else [s[0]] + Insert(less, x, s[1..])
  }

  function Sort<T>(less: (T, T) -> bool, s: seq<T>): seq<T> {
    if s == [] then [] else Insert(less, s[0], Sort(less, s[1..]))
  }

  lemma {:induction false} InsertElements<T>(less: (T, T) -> bool, x: T, s: seq<T>)
    ensures Elements(Insert(less, x, s)) == {x} + Elements(s)
    ensures |Insert(less, x, s)| == |s| + 1
  {
    if s == [] || !less(s[0], x) {
    } else {
      InsertElements(less, x, s[1..]);
      assert Elements(s) == {s[0]} + Elements(s[1..]) by { assert s == [s[0]] + s[1..]; }
      assert Elements(Insert(less, x, s)) == {s[0]} + Elements(Insert(less, x, s[1..]));
    }
  }

  lemma {:induction false} HeadAndTail<T>(s: seq<T>)
    requires s != []
    ensures Elements(s) == {s[0]} + Elements(s[1..])
  {
    assert s == [s[0]] + s[1..];
  }

  lemma {:induction false} AscendingCons<T(!new)>(less: (T, T) -> bool, x: T, s: seq<T>)
    requires Ascending(less, s) && forall y :: y in Elements(s) ==> less(x, y)
    ensures Ascending(less, [x] + s)
  {
    var r := [x] + s;
    forall i, j | 0 <= i < j < |r|
      ensures less(r[i], r[j])
    {
      assert r[j] == s[j - 1] && s[j - 1] in Elements(s);
      if i > 0 {
        assert r[i] == s[i - 1];
      }
    }
  }

  lemma {:induction false} HeadIsLeast<T(!new)>(less: (T, T) -> bool, s: seq<T>)
    requires s != [] && Ascending(less, s)
    ensures Ascending(less, s[1..]) && forall y :: y in Elements(s[1..]) ==> less(s[0], y)
  {
    forall y | y in Elements(s[1..])
      ensures less(s[0], y)
    {
      var k :| 0 <= k < |s[1..]| && s[1..][k] == y;
      assert s[k + 1] == y;
    }
  }

  lemma {:induction false} InsertAscends<T(!new)>(less: (T, T) -> bool, x: T, s: seq<T>)
    requires Ascending(less, s) && x !in s
    requires Orders(less, {x} + Elements(s))
    ensures Ascending(less, Insert(less, x, s))
  {
    if s == [] {
    } else {
      HeadIsLeast(less, s);
      HeadAndTail(s);
      if !less(s[0], x) {
        assert less(x, s[0]);
        AscendingCons(less, x, s);
      } else {
        InsertAscends(less, x, s[1..]);
        InsertElements(less, x, s[1..]);
        AscendingCons(less, s[0], Insert(less, x, s[1..]));
      }
    }
  }

  lemma {:induction false} SortElements<T>(less: (T, T) -> bool, s: seq<T>)
    ensures Elements(Sort(less, s)) == Elements(s)
    ensures |Sort(less, s)| == |s|
  {
    if s != [] {
      SortElements(less, s[1..]);
      InsertElements(less, s[0], Sort(less, s[1..]));
      assert Elements(s) == {s[0]} + Elements(s[1..]) by { assert s == [s[0]] + s[1..]; }
    }
  }

  lemma {:induction false} SortMembers<T>(less: (T, T) -> bool, s: seq<T>, x: T)
    ensures x in Sort(less, s) <==> x in s
  {
    SortElements(less, s);
    assert x in s <==> x in Elements(s);
    assert x in Sort(less, s) <==> x in Elements(Sort(less, s));
  }

  lemma {:induction false} SortAscends<T(!new)>(less: (T, T) -> bool, s: seq<T>)
    requires Distinct(s) && Orders(less, Elements(s))
    ensures Ascending(less, Sort(less, s))
  {
    if s != [] {
      HeadAndTail(s);
      SortAscends(less, s[1..]);
      SortElements(less, s[1..]);
      assert s[0] !in Elements(s[1..]) by {
        assert forall k :: 0 <= k < |s[1..]| ==> s[1..][k] == s[k + 1] != s[0];
      }
      assert s[0] !in Sort(less, s[1..]) by {
        assert s[0] !in Elements(Sort(less, s[1..]));
      }
      InsertAscends(less, s[0], Sort(less, s[1..]));
    }
  }

  lemma {:induction false} HeadsAgree<T(!new)>(less: (T, T) -> bool, a: seq<T>, b: seq<T>)
    requires Ascending(less, a) && Ascending(less, b) && Orders(less, Elements(b))
    requires b != [] && b[0] in a && Elements(a) <= Elements(b)
    ensures a[0] == b[0]
    ensures Elements(a[1..]) <= Elements(b[1..])
  {
    var i :| 0 <= i < |a| && a[i] == b[0];
    assert a[0] in Elements(a);
    var j :| 0 <= j < |b| && b[j] == a[0];
    assert b[0] in Elements(b) && b[j] in Elements(b);
    assert a[0] == b[0];
    HeadIsLeast(less, a);
    HeadAndTail(a);
    HeadAndTail(b);
  }

  /** `a` lists some of `b`'s elements, and at least the first m of them: the first m agree. */
  lemma {:induction false} SamePrefix<T(!new)>(less: (T, T) -> bool, a: seq<T>, b: seq<T>, m: nat)
    requires Ascending(less, a) && Ascending(less, b)
    requires Orders(less, Elements(b))
    requires m <= |b| && Elements(b[..m]) <= Elements(a) <= Elements(b)
    ensures m <= |a| && a[..m] == b[..m]
    decreases m
  {
    if m > 0 {
      assert b[..m][0] == b[0];
      assert b[0] in Elements(b[..m]);
      HeadsAgree(less, a, b);
      HeadAndTail(a);
      HeadAndTail(b);
      HeadIsLeast(less, b);
      HeadIsLeast(less, a);
      assert b[1..][..m - 1] == b[..m][1..];
      assert Elements(b[1..][..m - 1]) <= Elements(a[1..]) by {
        HeadAndTail(b[..m]);
        HeadIsLeast(less, b[..m]);
        assert b[0] in Elements(b);
      }
      SamePrefix(less, a[1..], b[1..], m - 1);
      assert a[..m] == [a[0]] + a[1..][..m - 1];
      assert b[..m] == [b[0]] + b[1..][..m - 1];
    }
  }

  /** Two ascending listings of the same elements are equal. */
  lemma {:induction false} AscendingIsUnique<T(!new)>(less: (T, T) -> bool, a: seq<T>, b: seq<T>)
    requires Ascending(less, a) && Ascending(less, b) && Elements(a) == Elements(b)
    requires Orders(less, Elements(b))
    ensures a == b
  {
    assert b[..|b|] == b && a[..|a|] == a;
    SamePrefix(less, a, b, |b|);
    SamePrefix(less, b, a, |a|);
  }

  /** What stands behind position n - 1 is what comes after the element there. */
  lemma {:induction false} SuffixMembers<T(!new)>(less: (T, T) -> bool, s: seq<T>, n: nat, x: T)
    requires Ascending(less, s) && Orders(less, Elements(s)) && 0 < n <= |s|
    ensures x in s[n..] <==> x in s && less(s[n - 1], x)
  {
    if x in s {
      var k :| 0 <= k < |s| && s[k] == x;
      assert s[n - 1] in Elements(s) && s[k] in Elements(s);
      assert less(s[n - 1], s[k]) <==> n <= k by {
        assert !less(s[n - 1], s[n - 1]);
        assert less(s[n - 1], s[k]) ==> !less(s[k], s[n - 1]);
      }
      if n <= k {
        assert s[n..][k - n] == x;
      }
      assert forall i :: 0 <= i < |s[n..]| ==> s[n..][i] == s[n + i] && less(s[n - 1], s[n + i]);
    }
  }

  /** In an ascending part of an ascending whole, no element sits later than in the whole. */
  lemma {:induction false} PartIndex<T(!new)>(less: (T, T) -> bool, part: seq<T>, whole: seq<T>, j: nat, k: nat)
    requires Ascending(less, part) && Ascending(less, whole)
    requires Elements(part) <= Elements(whole) && Orders(less, Elements(whole))
    requires j < |part| && k < |whole| && part[j] == whole[k]
    ensures j <= k
    decreases j
  {
    if j > 0 {
      assert less(part[j - 1], part[j]);
      assert part[j - 1] in Elements(part);
      var i :| 0 <= i < |whole| && whole[i] == part[j - 1];
      assert whole[i] in Elements(whole) && whole[k] in Elements(whole);
      assert !less(whole[k], whole[i]) && !less(whole[i], whole[i]);
      PartIndex(less, part, whole, j - 1, i);
    }
  }
}
