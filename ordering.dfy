/**
 * Python's `list.sort`: a stable sort under a total preorder. The post
 * list is sorted by creation date, newest first; the humor gallery by
 * file name.
 */
module Ordering {
  /** `le(a, b)`: `a` may come before `b`. */
  ghost predicate TotalPreorder<T(!new)>(le: (T, T) -> bool) {
    (forall a, b :: le(a, b) || le(b, a))
    && (forall a, b, c :: le(a, b) && le(b, c) ==> le(a, c))
  }

  predicate Sorted<T>(s: seq<T>, le: (T, T) -> bool) {
    forall i, j :: 0 <= i < j < |s| ==> le(s[i], s[j])
  }

  /** `x` goes after every element that may come before it. */
  function Insert<T>(r: seq<T>, x: T, le: (T, T) -> bool): (q: seq<T>)
    ensures multiset(q) == multiset(r) + multiset{x}
  {
    if r == [] || !le(r[0], x) then [x] + r
    else
      assert r == [r[0]] + r[1..];
      [r[0]] + Insert(r[1..], x, le)
  }

  /** Each element in turn is inserted into the sorted prefix before it. */
  function Sort<T>(s: seq<T>, le: (T, T) -> bool): (r: seq<T>)
    ensures multiset(r) == multiset(s)
    decreases |s|
  {
    if s == [] then []
    else
      assert s == s[..|s| - 1] + [s[|s| - 1]];
      Insert(Sort(s[..|s| - 1], le), s[|s| - 1], le)
  }

  lemma {:induction false} InsertSorted<T(!new)>(r: seq<T>, x: T, le: (T, T) -> bool)
    requires TotalPreorder(le) && Sorted(r, le)
    ensures Sorted(Insert(r, x, le), le)
  {
    if r == [] {
    } else if !le(r[0], x) {
      assert le(x, r[0]);
    } else {
      var rest := Insert(r[1..], x, le);
      InsertSorted(r[1..], x, le);
      forall j | 0 <= j < |rest| ensures le(r[0], rest[j]) {
        assert rest[j] in multiset(rest);
        if rest[j] != x {
          assert rest[j] in multiset(r[1..]);
          var k :| 0 <= k < |r[1..]| && r[1..][k] == rest[j];
          assert r[1..][k] == r[k + 1];
        }
      }
      var q := [r[0]] + rest;
      forall i, j | 0 <= i < j < |q| ensures le(q[i], q[j]) {
        if i > 0 {
          assert q[i] == rest[i - 1] && q[j] == rest[j - 1];
        } else {
          assert q[j] == rest[j - 1];
        }
      }
    }
  }

  /** The result is ordered. */
  lemma {:induction false} SortSorted<T(!new)>(s: seq<T>, le: (T, T) -> bool)
    requires TotalPreorder(le)
    ensures Sorted(Sort(s, le), le)
    decreases |s|
  {
    if s != [] {
      SortSorted(s[..|s| - 1], le);
      InsertSorted(Sort(s[..|s| - 1], le), s[|s| - 1], le);
    }
  }

  /** The elements of `s` that tie with `x`, in their order in `s`. */
  function Ties<T>(s: seq<T>, x: T, le: (T, T) -> bool): (r: seq<T>)
    ensures |r| <= |s|
  {
    if s == [] then []
    else (if le(s[0], x) && le(x, s[0]) then [s[0]] else []) + Ties(s[1..], x, le)
  }

  lemma {:induction false} TiesAppend<T>(a: seq<T>, b: seq<T>, x: T, le: (T, T) -> bool)
    ensures Ties(a + b, x, le) == Ties(a, x, le) + Ties(b, x, le)
  {
    if a == [] {
      assert a + b == b;
    } else {
      assert (a + b)[0] == a[0] && (a + b)[1..] == a[1..] + b;
      TiesAppend(a[1..], b, x, le);
    }
  }

  lemma {:induction false} TiesNone<T>(s: seq<T>, x: T, le: (T, T) -> bool)
    requires forall i :: 0 <= i < |s| ==> !(le(s[i], x) && le(x, s[i]))
    ensures Ties(s, x, le) == []
  {
    if s != [] {
      TiesNone(s[1..], x, le);
    }
  }

  /**
   * Inserting `y` into a sorted sequence puts it after everything that
   * ties with it.
   */
  lemma {:induction false} InsertTies<T(!new)>(r: seq<T>, y: T, x: T, le: (T, T) -> bool)
    requires TotalPreorder(le) && Sorted(r, le)
    ensures Ties(Insert(r, y, le), x, le) == Ties(r, x, le) + Ties([y], x, le)
  {
    if r == [] {
    } else if !le(r[0], y) {
      assert Insert(r, y, le) == [y] + r;
      TiesAppend([y], r, x, le);
      if le(y, x) && le(x, y) {
        assert forall i :: 0 <= i < |r| ==> le(r[0], r[i]);
        TiesNone(r, x, le);
      }
    } else {
      InsertTies(r[1..], y, x, le);
    }
  }

  /** Stability: elements that tie keep the order they had in the input. */
  lemma {:induction false} SortStable<T(!new)>(s: seq<T>, x: T, le: (T, T) -> bool)
    requires TotalPreorder(le)
    ensures Ties(Sort(s, le), x, le) == Ties(s, x, le)
    decreases |s|
  {
    if s != [] {
      var init := s[..|s| - 1];
      SortStable(init, x, le);
      SortSorted(init, le);
      InsertTies(Sort(init, le), s[|s| - 1], x, le);
      assert s == init + [s[|s| - 1]];
      TiesAppend(init, [s[|s| - 1]], x, le);
    }
  }
}
