/**
 * Orders used by ORDER BY and by pandas' sort_values: the lexicographic order on
 * team names and a generic stable insertion sort by a total preorder.
 */
module Ordering {

  /** Lexicographic order on strings by character code (Python's str comparison). */
  predicate StrLe(a: string, b: string)
  {
    |a| == 0 || (|b| > 0 && (a[0] < b[0] || (a[0] == b[0] && StrLe(a[1..], b[1..]))))
  }

  lemma {:induction false} StrLeTotal(a: string, b: string)
    ensures StrLe(a, b) || StrLe(b, a)
  {
    if |a| > 0 && |b| > 0 && a[0] == b[0] {
      StrLeTotal(a[1..], b[1..]);
    }
  }

  lemma {:induction false} StrLeAntisymmetric(a: string, b: string)
    requires StrLe(a, b) && StrLe(b, a)
    ensures a == b
  {
    if |a| > 0 && |b| > 0 {
      StrLeAntisymmetric(a[1..], b[1..]);
      assert a == [a[0]] + a[1..] && b == [b[0]] + b[1..];
    }
  }

  lemma {:induction false} StrLeTransitive(a: string, b: string, c: string)
    requires StrLe(a, b) && StrLe(b, c)
    ensures StrLe(a, c)
  {
    if |a| > 0 && |b| > 0 && |c| > 0 && a[0] == b[0] && b[0] == c[0] {
      StrLeTransitive(a[1..], b[1..], c[1..]);
    }
  }

  /** A non-empty sequence is its head followed by its tail. */
  lemma HeadTail<T>(a: seq<T>, b: seq<T>)
    requires |a| > 0
    ensures a == [a[0]] + a[1..]
    ensures a + b == [a[0]] + (a[1..] + b)
  {
  }

  /** le is total and transitive: a sort key possibly with ties. */
  ghost predicate TotalPreorder<T(!new)>(le: (T, T) -> bool)
  {
    && (forall a, b :: le(a, b) || le(b, a))
    && (forall a, b, c :: le(a, b) && le(b, c) ==> le(a, c))
  }

  /** No element of s is later in the order than one that follows it. */
  predicate Sorted<T>(s: seq<T>, le: (T, T) -> bool)
  {
    forall i, j :: 0 <= i < j < |s| ==> le(s[i], s[j])
  }

  /** Ties in the order are resolved only between equal elements of s. */
  ghost predicate NoTiesIn<T>(s: seq<T>, le: (T, T) -> bool)
  {
    forall a, b | a in s && b in s :: le(a, b) && le(b, a) ==> a == b
  }

  /** Places x before the first element it does not follow (before all its equals). */
  function Insert<T>(x: T, s: seq<T>, le: (T, T) -> bool): (r: seq<T>)
    ensures multiset(r) == multiset(s) + multiset{x}
  {
    if s == [] || le(x, s[0]) then [x] + s
    else
      assert s == [s[0]] + s[1..];
      [s[0]] + Insert(x, s[1..], le)
  }

  /**
   * Stable insertion sort: an element that comes earlier in s stays ahead of the
   * elements it ties with.
   */
  function SortBy<T>(s: seq<T>, le: (T, T) -> bool): (r: seq<T>)
    ensures multiset(r) == multiset(s)
  {
    if s == [] then []
    else
      assert s == [s[0]] + s[1..];
      Insert(s[0], SortBy(s[1..], le), le)
  }

  /** le ties a and b: neither comes strictly before the other. */
  predicate Tied<T>(le: (T, T) -> bool, a: T, b: T)
  {
    le(a, b) && le(b, a)
  }

  /** The elements of s that tie with c, in the order of s. */
  function TiesWith<T>(s: seq<T>, le: (T, T) -> bool, c: T): seq<T>
  {
    if s == [] then []
    else (if Tied(le, s[0], c) then [s[0]] else []) + TiesWith(s[1..], le, c)
  }

  lemma TiesWithCons<T>(y: T, s: seq<T>, le: (T, T) -> bool, c: T)
    ensures TiesWith([y] + s, le, c) == (if Tied(le, y, c) then [y] else []) + TiesWith(s, le, c)
  {
    assert ([y] + s)[1..] == s;
  }

  /** Two elements that tie with the same c tie with each other. */
  lemma TiedTogether<T(!new)>(x: T, y: T, le: (T, T) -> bool, c: T)
    requires TotalPreorder(le)
    ensures Tied(le, x, c) && Tied(le, y, c) ==> le(x, y)
  {
    if Tied(le, x, c) && Tied(le, y, c) {
      assert le(x, c) && le(c, y);
    }
  }

  /** Inserting x adds x to the elements tied with c when it ties with c, in front of them. */
  lemma {:induction false} InsertTies<T(!new)>(x: T, s: seq<T>, le: (T, T) -> bool, c: T)
    requires TotalPreorder(le)
    ensures TiesWith(Insert(x, s, le), le, c) == (if Tied(le, x, c) then [x] else []) + TiesWith(s, le, c)
  {
    if s == [] || le(x, s[0]) {
      TiesWithCons(x, s, le, c);
    } else {
      var y, rest := s[0], s[1..];
      assert s == [y] + rest;
      assert Insert(x, s, le) == [y] + Insert(x, rest, le);
      InsertTies(x, rest, le, c);
      TiesWithCons(y, Insert(x, rest, le), le, c);
      TiesWithCons(y, rest, le, c);
      TiedTogether(x, y, le, c);
    }
  }

  /**
   * The sort is stable: the elements that tie with any c come out in the order
   * they had in s.
   */
  lemma {:induction false} SortByStable<T(!new)>(s: seq<T>, le: (T, T) -> bool, c: T)
    requires TotalPreorder(le)
    ensures TiesWith(SortBy(s, le), le, c) == TiesWith(s, le, c)
  {
    if s != [] {
      SortByStable(s[1..], le, c);
      InsertTies(s[0], SortBy(s[1..], le), le, c);
    }
  }

  lemma {:induction false} InsertSorted<T(!new)>(x: T, s: seq<T>, le: (T, T) -> bool)
    requires TotalPreorder(le) && Sorted(s, le)
    ensures Sorted(Insert(x, s, le), le)
  {
    if s != [] && !le(x, s[0]) {
      var rest := Insert(x, s[1..], le);
      InsertSorted(x, s[1..], le);
      assert le(s[0], x);
      forall y | y in rest ensures le(s[0], y) {
        assert y in multiset(rest);
        if y != x {
          assert y in multiset(s[1..]);
          var k :| 0 <= k < |s[1..]| && s[1..][k] == y;
          assert s[k + 1] == y;
        }
      }
      var r := [s[0]] + rest;
      forall i, j | 0 <= i < j < |r| ensures le(r[i], r[j]) {
        if i == 0 {
          assert r[j] == rest[j - 1];
        } else {
          assert r[i] == rest[i - 1] && r[j] == rest[j - 1];
        }
      }
    }
  }

  /** The sort yields a permutation that is ordered by le. */
  lemma {:induction false} SortBySorted<T(!new)>(s: seq<T>, le: (T, T) -> bool)
    requires TotalPreorder(le)
    ensures Sorted(SortBy(s, le), le)
    ensures multiset(SortBy(s, le)) == multiset(s)
  {
    if s != [] {
      SortBySorted(s[1..], le);
      InsertSorted(s[0], SortBy(s[1..], le), le);
    }
  }

  /** Sorting a sequence that is already in order changes nothing. */
  lemma {:induction false} SortByOfSorted<T>(s: seq<T>, le: (T, T) -> bool)
    requires Sorted(s, le)
    ensures SortBy(s, le) == s
  {
    if s != [] {
      assert Sorted(s[1..], le);
      SortByOfSorted(s[1..], le);
      assert s == [s[0]] + s[1..];
    }
  }

  lemma SortedTail<T>(s: seq<T>, le: (T, T) -> bool)
    requires |s| > 0 && Sorted(s, le)
    ensures Sorted(s[1..], le)
  {
    forall i, j | 0 <= i < j < |s[1..]| ensures le(s[1..][i], s[1..][j]) {
      assert s[1..][i] == s[i + 1] && s[1..][j] == s[j + 1];
    }
  }

  lemma NoTiesInTail<T>(s: seq<T>, le: (T, T) -> bool)
    requires |s| > 0 && NoTiesIn(s, le)
    ensures NoTiesIn(s[1..], le)
  {
    forall a | a in s[1..] ensures a in s {
      var i :| 0 <= i < |s[1..]| && s[1..][i] == a;
      assert s[i + 1] == a;
    }
  }

  /** Two ordered permutations of the same non-empty elements start alike when there are no ties. */
  lemma SortedSameHead<T>(s: seq<T>, t: seq<T>, le: (T, T) -> bool)
    requires s != [] && Sorted(s, le) && Sorted(t, le)
    requires multiset(s) == multiset(t)
    requires NoTiesIn(s, le)
    ensures t != [] && s[0] == t[0]
  {
    assert s[0] in multiset(t);
    var j :| 0 <= j < |t| && t[j] == s[0];
    assert t[0] in multiset(s);
    var i :| 0 <= i < |s| && s[i] == t[0];
    if i != 0 && j != 0 {
      assert le(s[0], s[i]);
      assert le(t[0], t[j]);
    }
  }

  /**
   * Two ordered permutations of the same elements coincide when the order has no
   * ties among them: the sort result does not depend on the sorting algorithm.
   */
  lemma {:induction false} SortedUnique<T>(s: seq<T>, t: seq<T>, le: (T, T) -> bool)
    requires Sorted(s, le) && Sorted(t, le)
    requires multiset(s) == multiset(t)
    requires NoTiesIn(s, le)
    ensures s == t
  {
    if s == [] {
      assert |t| == |multiset(t)| == 0;
    } else {
      SortedSameHead(s, t, le);
      var s', t' := s[1..], t[1..];
      assert s == [s[0]] + s' && t == [t[0]] + t';
      assert multiset(s') == multiset(t') by {
        calc {
          multiset(s');
          multiset(s) - multiset{s[0]};
          multiset(t) - multiset{t[0]};
          multiset(t');
        }
      }
      SortedTail(s, le);
      SortedTail(t, le);
      NoTiesInTail(s, le);
      SortedUnique(s', t', le);
    }
  }
}
