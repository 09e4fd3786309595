/**
 * A stable sort by an integer key. `Array.prototype.sort` is stable, so a
 * comparator that returns `key(a) - key(b)` (or only its sign) yields exactly
 * the stable order by that key; the timesheet's two entry orders
 * (app.js:567-584 and app.js:655-664) and the comment ranking (app.js:145-146)
 * are instances.
 */
module StableSort {

  /** Places `x` after every element of `t` whose key is not larger than its own. */
  function Insert<T>(x: T, t: seq<T>, key: T -> int): (r: seq<T>)
    ensures |r| == |t| + 1
    ensures multiset(r) == multiset(t) + multiset{x}
  {
    if |t| == 0 then [x]
    else if key(x) < key(t[0]) then [x] + t
    else
      assert t == [t[0]] + t[1..];
      [t[0]] + Insert(x, t[1..], key)
  }

  /** Insertion sort: each element in turn goes after the equal-keyed ones already placed. */
  function SortByKey<T>(s: seq<T>, key: T -> int): (r: seq<T>)
    ensures |r| == |s|
    ensures multiset(r) == multiset(s)
  {
    if |s| == 0 then []
    else
      assert s == s[..|s| - 1] + [s[|s| - 1]];
      Insert(s[|s| - 1], SortByKey(s[..|s| - 1], key), key)
  }

  /** Keys never decrease along the sequence. */
  ghost predicate Ordered<T>(s: seq<T>, key: T -> int)
  {
    forall i, j :: 0 <= i < j < |s| ==> key(s[i]) <= key(s[j])
  }

  /** The elements with key `k`, in their order of appearance. */
  function WithKey<T>(s: seq<T>, key: T -> int, k: int): seq<T>
  {
    if |s| == 0 then [] else (if key(s[0]) == k then [s[0]] else []) + WithKey(s[1..], key, k)
  }

  lemma {:induction false} WithKeyAppend<T>(a: seq<T>, b: seq<T>, key: T -> int, k: int)
    ensures WithKey(a + b, key, k) == WithKey(a, key, k) + WithKey(b, key, k)
  {
    if |a| > 0 {
      assert (a + b)[1..] == a[1..] + b;
      WithKeyAppend(a[1..], b, key, k);
    } else {
      assert a + b == b;
    }
  }

  lemma {:induction false} WithKeyNone<T>(t: seq<T>, key: T -> int, k: int)
    requires forall y :: y in t ==> key(y) != k
    ensures WithKey(t, key, k) == []
  {
    if |t| > 0 {
      assert t[0] in t;
      assert forall y :: y in t[1..] ==> y in t;
      WithKeyNone(t[1..], key, k);
    }
  }

  lemma {:induction false} InsertOrdered<T>(x: T, t: seq<T>, key: T -> int)
    requires Ordered(t, key)
    ensures Ordered(Insert(x, t, key), key)
  {
    if |t| > 0 && key(x) >= key(t[0]) {
      InsertOrdered(x, t[1..], key);
      var r := Insert(x, t[1..], key);
      forall k | 0 <= k < |r| ensures key(t[0]) <= key(r[k]) {
        assert r[k] in multiset(t[1..]) + multiset{x};
        if r[k] != x {
          var j :| 0 <= j < |t[1..]| && t[1..][j] == r[k];
          assert t[j + 1] == r[k];
        }
      }
    }
  }

  lemma {:induction false} InsertWithKey<T>(x: T, t: seq<T>, key: T -> int, k: int)
    requires Ordered(t, key)
    ensures WithKey(Insert(x, t, key), key, k) == WithKey(t, key, k) + (if key(x) == k then [x] else [])
  {
    var own := if key(x) == k then [x] else [];
    if |t| == 0 {
      assert WithKey([x], key, k) == own + WithKey([x][1..], key, k);
    } else if key(x) < key(t[0]) {
      if key(x) == k {
        forall y | y in t ensures key(y) != k {
          var j :| 0 <= j < |t| && t[j] == y;
          assert key(t[0]) <= key(t[j]);
        }
        WithKeyNone(t, key, k);
      }
      WithKeyAppend([x], t, key, k);
      assert WithKey([x], key, k) == own + WithKey([x][1..], key, k);
    } else {
      var tail := t[1..];
      assert Ordered(tail, key);
      InsertWithKey(x, tail, key, k);
      var r := Insert(x, t, key);
      var head := if key(t[0]) == k then [t[0]] else [];
      assert r == [t[0]] + Insert(x, tail, key);
      assert r[0] == t[0] && r[1..] == Insert(x, tail, key);
      calc {
        WithKey(r, key, k);
        head + WithKey(Insert(x, tail, key), key, k);
        head + (WithKey(tail, key, k) + own);
        (head + WithKey(tail, key, k)) + own;
        WithKey(t, key, k) + own;
      }
    }
  }

  /** The sort produces a key-ordered sequence. */
  lemma {:induction false} SortOrdered<T>(s: seq<T>, key: T -> int)
    ensures Ordered(SortByKey(s, key), key)
  {
    if |s| > 0 {
      SortOrdered(s[..|s| - 1], key);
      InsertOrdered(s[|s| - 1], SortByKey(s[..|s| - 1], key), key);
    }
  }

  /** Stability: the elements sharing a key keep their relative order. */
  lemma {:induction false} SortStable<T>(s: seq<T>, key: T -> int, k: int)
    ensures WithKey(SortByKey(s, key), key, k) == WithKey(s, key, k)
  {
    if |s| > 0 {
      var init, last := s[..|s| - 1], s[|s| - 1];
      var sorted := SortByKey(init, key);
      assert SortByKey(s, key) == Insert(last, sorted, key);
      SortStable(init, key, k);
      SortOrdered(init, key);
      InsertWithKey(last, sorted, key, k);
      WithKeySnoc(s, key, k);
    }
  }

  lemma WithKeySnoc<T>(s: seq<T>, key: T -> int, k: int)
    requires |s| > 0
    ensures WithKey(s, key, k) == WithKey(s[..|s| - 1], key, k) + (if key(s[|s| - 1]) == k then [s[|s| - 1]] else [])
  {
    var last := s[|s| - 1];
    assert s == s[..|s| - 1] + [last];
    WithKeyAppend(s[..|s| - 1], [last], key, k);
    assert [last][1..] == [];
  }

  /** An already ordered sequence is left as it is. */
  lemma {:induction false} SortOfOrdered<T>(s: seq<T>, key: T -> int)
    requires Ordered(s, key)
    ensures SortByKey(s, key) == s
  {
    if |s| > 0 {
      var init, last := s[..|s| - 1], s[|s| - 1];
      assert Ordered(init, key);
      SortOfOrdered(init, key);
      InsertAtEnd(last, init, key);
      Snoc(s);
    }
  }

  /** A non-empty sequence is its front followed by its last element. */
  lemma Snoc<T>(s: seq<T>)
    requires |s| > 0
    ensures s[..|s| - 1] + [s[|s| - 1]] == s
  {
  }

  lemma {:induction false} InsertAtEnd<T>(x: T, t: seq<T>, key: T -> int)
    requires forall i :: 0 <= i < |t| ==> key(t[i]) <= key(x)
    ensures Insert(x, t, key) == t + [x]
  {
    if |t| > 0 {
      InsertAtEnd(x, t[1..], key);
      assert t == [t[0]] + t[1..];
    }
  }

  /** Sorting twice is sorting once. */
  lemma SortIdempotent<T>(s: seq<T>, key: T -> int)
    ensures SortByKey(SortByKey(s, key), key) == SortByKey(s, key)
  {
    SortOrdered(s, key);
    SortOfOrdered(SortByKey(s, key), key);
  }

  /**
   * Two different positions of a rearranged sequence hold elements found at two
   * different positions of the original.
   */
  lemma PermutationPositions<T>(s: seq<T>, r: seq<T>, i: nat, j: nat) returns (i': nat, j': nat)
    requires multiset(r) == multiset(s) && i < |r| && j < |r| && i != j
    ensures i' < |s| && j' < |s| && i' != j' && s[i'] == r[i] && s[j'] == r[j]
  {
    assert r[i] in multiset(s);
    i' :| 0 <= i' < |s| && s[i'] == r[i];
    var rest := Without(s, i');
    var rr := Without(r, i);
    WithoutCount(s, i');
    WithoutCount(r, i);
    assert r[j] in multiset(rest) by {
      var m := if j < i then j else j - 1;
      assert rr[m] == r[j];
      assert multiset(rr) == multiset(rest);
    }
    var k :| 0 <= k < |rest| && rest[k] == r[j];
    j' := if k < i' then k else k + 1;
    assert s[j'] == rest[k];
  }

  /** `s` with position `i` removed. */
  function Without<T>(s: seq<T>, i: nat): (r: seq<T>)
    requires i < |s|
    ensures |r| == |s| - 1
    ensures forall k :: 0 <= k < i ==> r[k] == s[k]
    ensures forall k :: i <= k < |r| ==> r[k] == s[k + 1]
  {
    s[..i] + s[i + 1..]
  }

  lemma WithoutCount<T>(s: seq<T>, i: nat)
    requires i < |s|
    ensures multiset(Without(s, i)) == multiset(s) - multiset{s[i]}
  {
    assert s == s[..i] + [s[i]] + s[i + 1..];
  }
}
