/**
 * GROUP BY and the aggregates COUNT(*) and SUM(...) over rows of the `base` CTE:
 * sums do not depend on the order of the rows, and summing every group of a
 * grouping gives the sum over all rows.
 */
module Tallies {
  import opened Matches
  import opened Ordering

  /** COUNT(*), SUM(points), SUM(goals_for) and SUM(goals_against) of a set of rows. */
  datatype Tally = Tally(matches: nat, points: nat, goalsFor: nat, goalsAgainst: nat)

  const Zero := Tally(0, 0, 0, 0)

  function Plus(a: Tally, b: Tally): Tally
  {
    Tally(a.matches + b.matches, a.points + b.points, a.goalsFor + b.goalsFor, a.goalsAgainst + b.goalsAgainst)
  }

  /** What one row contributes to the aggregates. */
  function RowTally(r: TeamRow): Tally
  {
    Tally(1, r.points, r.goalsFor, r.goalsAgainst)
  }

  /** The aggregates over all rows. */
  function SumAll(rows: seq<TeamRow>): Tally
  {
    SumOf(rows, RowTally)
  }

  /** The sum of the weights w of the elements of s. */
  function SumOf<T>(s: seq<T>, w: T -> Tally): Tally
  {
    if |s| == 0 then Zero else Plus(w(s[0]), SumOf(s[1..], w))
  }

  /** The rows whose key is k, in their original order: one group of a GROUP BY, or a WHERE filter. */
  function Where<K(==)>(rows: seq<TeamRow>, key: TeamRow -> K, k: K): (r: seq<TeamRow>)
    ensures forall x :: x in r <==> x in rows && key(x) == k
    ensures |r| <= |rows|
  {
    if |rows| == 0 then []
    else
      assert rows == [rows[0]] + rows[1..];
      (if key(rows[0]) == k then [rows[0]] else []) + Where(rows[1..], key, k)
  }

  /** The grouping column of the standings query. */
  function RowTeam(r: TeamRow): string
  {
    r.team
  }

  predicate Distinct<K(==)>(ks: seq<K>)
  {
    forall i, j :: 0 <= i < j < |ks| ==> ks[i] != ks[j]
  }

  /** The groups of a GROUP BY: every key that occurs, once each. */
  function Keys<K(==)>(rows: seq<TeamRow>, key: TeamRow -> K): (ks: seq<K>)
    ensures Distinct(ks)
    ensures forall r :: r in rows ==> key(r) in ks
    ensures forall k :: k in ks ==> Where(rows, key, k) != []
  {
    if rows == [] then []
    else
      var rest := Keys(rows[1..], key);
      assert forall k :: k in rest ==> Where(rows[1..], key, k) != [] ==> Where(rows, key, k) != [];
      assert Where(rows, key, key(rows[0])) != [];
      if key(rows[0]) in rest then rest else [key(rows[0])] + rest
  }

  /** The aggregates of the groups ks, added up. */
  function SumOverKeys<K(==)>(rows: seq<TeamRow>, key: TeamRow -> K, ks: seq<K>): Tally
  {
    if |ks| == 0 then Zero else Plus(SumAll(Where(rows, key, ks[0])), SumOverKeys(rows, key, ks[1..]))
  }

  lemma PlusZero(k: Tally)
    ensures Plus(Zero, k) == k && Plus(k, Zero) == k
  {
  }

  lemma PlusAssoc(x: Tally, y: Tally, z: Tally)
    ensures Plus(x, Plus(y, z)) == Plus(Plus(x, y), z)
  {
  }

  lemma PlusComm(x: Tally, y: Tally)
    ensures Plus(x, y) == Plus(y, x)
  {
  }

  lemma SumOfCons<T>(x: T, s: seq<T>, w: T -> Tally)
    ensures SumOf([x] + s, w) == Plus(w(x), SumOf(s, w))
  {
    assert ([x] + s)[1..] == s;
  }

  lemma SumAllCons(r: TeamRow, rows: seq<TeamRow>)
    ensures SumAll([r] + rows) == Plus(RowTally(r), SumAll(rows))
  {
    SumOfCons(r, rows, RowTally);
  }

  /** COUNT(*) is the number of rows. */
  lemma {:induction false} SumAllMatches(rows: seq<TeamRow>)
    ensures SumAll(rows).matches == |rows|
  {
    if |rows| > 0 {
      SumAllMatches(rows[1..]);
    }
  }

  lemma {:induction false} SumOfConcat<T>(a: seq<T>, b: seq<T>, w: T -> Tally)
    ensures SumOf(a + b, w) == Plus(SumOf(a, w), SumOf(b, w))
  {
    if |a| == 0 {
      assert a + b == b;
      PlusZero(SumOf(b, w));
    } else {
      SumOfConcat(a[1..], b, w);
      HeadTail(a, b);
      SumOfCons(a[0], a[1..] + b, w);
      SumOfCons(a[0], a[1..], w);
      PlusAssoc(w(a[0]), SumOf(a[1..], w), SumOf(b, w));
    }
  }

  /** A sum sees a bag: reordering the elements changes no total (SUM and COUNT are order-free). */
  lemma {:induction false} SumOfPermutation<T>(a: seq<T>, b: seq<T>, w: T -> Tally)
    requires multiset(a) == multiset(b)
    ensures SumOf(a, w) == SumOf(b, w)
  {
    if |a| == 0 {
      assert |b| == |multiset(b)| == 0;
    } else {
      var x := a[0];
      assert x in multiset(b);
      var j :| 0 <= j < |b| && b[j] == x;
      var left, right := b[..j], b[j + 1..];
      assert b == left + ([x] + right);
      HeadTail(a, []);
      assert multiset(a[1..]) == multiset(left + right) by {
        calc {
          multiset(a[1..]);
          multiset(a) - multiset{x};
          multiset(b) - multiset{x};
          multiset(left) + multiset(right);
          multiset(left + right);
        }
      }
      SumOfPermutation(a[1..], left + right, w);
      SumOfConcat(left, right, w);
      SumOfConcat(left, [x] + right, w);
      SumOfCons(x, right, w);
      SumOfCons(x, a[1..], w);
      PlusAssoc(SumOf(left, w), w(x), SumOf(right, w));
      PlusComm(SumOf(left, w), w(x));
      PlusAssoc(w(x), SumOf(left, w), SumOf(right, w));
    }
  }

  /** Sums of two sequences agree when their elements weigh the same, position by position. */
  lemma {:induction false} SumOfPointwise<T, U>(a: seq<T>, wa: T -> Tally, b: seq<U>, wb: U -> Tally)
    requires |a| == |b|
    requires forall i :: 0 <= i < |a| ==> wa(a[i]) == wb(b[i])
    ensures SumOf(a, wa) == SumOf(b, wb)
  {
    if |a| > 0 {
      SumOfPointwise(a[1..], wa, b[1..], wb);
    }
  }

  lemma SumAllPermutation(a: seq<TeamRow>, b: seq<TeamRow>)
    requires multiset(a) == multiset(b)
    ensures SumAll(a) == SumAll(b)
  {
    SumOfPermutation(a, b, RowTally);
  }

  /** A sequence without repetitions holds each of its elements once. */
  lemma {:induction false} DistinctCount<K>(s: seq<K>, x: K)
    requires Distinct(s)
    ensures multiset(s)[x] == if x in s then 1 else 0
  {
    if |s| > 0 {
      HeadTail(s, []);
      assert Distinct(s[1..]);
      DistinctCount(s[1..], x);
    }
  }

  /** A group holds every copy of each row with that key and nothing else. */
  lemma {:induction false} WhereCount<K>(s: seq<TeamRow>, key: TeamRow -> K, k: K, x: TeamRow)
    ensures multiset(Where(s, key, k))[x] == if key(x) == k then multiset(s)[x] else 0
  {
    if s != [] {
      WhereCount(s[1..], key, k, x);
      assert s == [s[0]] + s[1..];
    }
  }

  /** Grouping a reordering of the rows gives a reordering of each group. */
  lemma WherePermutation<K>(a: seq<TeamRow>, b: seq<TeamRow>, key: TeamRow -> K, k: K)
    requires multiset(a) == multiset(b)
    ensures multiset(Where(a, key, k)) == multiset(Where(b, key, k))
  {
    forall x ensures multiset(Where(a, key, k))[x] == multiset(Where(b, key, k))[x] {
      WhereCount(a, key, k, x);
      WhereCount(b, key, k, x);
    }
  }

  lemma {:induction false} SumOverNoRows<K>(key: TeamRow -> K, ks: seq<K>)
    ensures SumOverKeys([], key, ks) == Zero
  {
    if |ks| > 0 {
      SumOverNoRows(key, ks[1..]);
      var empty: seq<TeamRow> := [];
      assert Where(empty, key, ks[0]) == empty;
      assert SumAll(empty) == Zero;
      PlusZero(Zero);
    }
  }

  /** What a row contributes to the group with key k. */
  function TallyIf<K(==)>(r: TeamRow, key: TeamRow -> K, k: K): Tally
  {
    if key(r) == k then RowTally(r) else Zero
  }

  lemma WhereCons<K>(r: TeamRow, rest: seq<TeamRow>, key: TeamRow -> K, k: K)
    ensures SumAll(Where([r] + rest, key, k)) == Plus(TallyIf(r, key, k), SumAll(Where(rest, key, k)))
  {
    assert ([r] + rest)[1..] == rest;
    assert ([r] + rest)[0] == r;
    if key(r) == k {
      SumAllCons(r, Where(rest, key, k));
    } else {
      assert [] + Where(rest, key, k) == Where(rest, key, k);
      PlusZero(SumAll(Where(rest, key, k)));
    }
  }

  /** One more row adds its tally to exactly the one group its key names, if that group is listed. */
  lemma {:induction false} SumOverKeysCons<K>(r: TeamRow, rest: seq<TeamRow>, key: TeamRow -> K, ks: seq<K>)
    requires Distinct(ks)
    ensures SumOverKeys([r] + rest, key, ks) == Plus(if key(r) in ks then RowTally(r) else Zero, SumOverKeys(rest, key, ks))
  {
    if |ks| == 0 {
      PlusZero(Zero);
    } else {
      var ks' := ks[1..];
      assert Distinct(ks');
      SumOverKeysCons(r, rest, key, ks');
      WhereCons(r, rest, key, ks[0]);
      assert key(r) in ks <==> key(r) == ks[0] || key(r) in ks';
    }
  }

  /** Adding up the groups of a grouping gives the aggregate over all rows. */
  lemma {:induction false} Partition<K>(rows: seq<TeamRow>, key: TeamRow -> K, ks: seq<K>)
    requires Distinct(ks)
    requires forall r :: r in rows ==> key(r) in ks
    ensures SumOverKeys(rows, key, ks) == SumAll(rows)
  {
    if |rows| == 0 {
      assert rows == [];
      SumOverNoRows(key, ks);
    } else {
      Partition(rows[1..], key, ks);
      HeadTail(rows, []);
      SumOverKeysCons(rows[0], rows[1..], key, ks);
      SumAllCons(rows[0], rows[1..]);
    }
  }
}
