/**
 * sortStandingsDf: re-orders a copy of the standings by the column the user picks
 * and regenerates positions 1..N; and the champion / relegation highlight rule of
 * buildStandingsHtml.
 */
module Resort {
  import opened Optional
  import opened Ordering
  import opened Standings

  /** The numeric columns reachable through colMap. */
  datatype Column = Points | PointsPerGame | MatchesPlayed | GoalsFor | GoalsAgainst | GoalDifference

  /** The choices of the "Sort by" box. */
  datatype SortKey = OfficialPosition | TeamName | ByColumn(column: Column)

  /** colMap[sortBy] raises KeyError for a label it does not know. */
  datatype SortError = UnknownSortKey(sortBy: string)

  /** The label under which the dashboard offers each sort key. */
  function Label(key: SortKey): string
  {
    match key
    case OfficialPosition => "Official position"
    case TeamName => "Team"
    case ByColumn(Points) => "Points"
    case ByColumn(PointsPerGame) => "Points per game (PPG)"
    case ByColumn(MatchesPlayed) => "Matches played"
    case ByColumn(GoalsFor) => "Goals for"
    case ByColumn(GoalsAgainst) => "Goals against"
    case ByColumn(GoalDifference) => "Goal difference"
  }

  /** The two string tests of sortStandingsDf followed by the colMap lookup. */
  function ParseSortKey(text: string): (key: Option<SortKey>)
    ensures key.Some? ==> Label(key.value) == text
  {
    if text == "Official position" then Some(OfficialPosition)
    else if text == "Team" then Some(TeamName)
    else if text == "Points" then Some(ByColumn(Points))
    else if text == "Points per game (PPG)" then Some(ByColumn(PointsPerGame))
    else if text == "Matches played" then Some(ByColumn(MatchesPlayed))
    else if text == "Goals for" then Some(ByColumn(GoalsFor))
    else if text == "Goals against" then Some(ByColumn(GoalsAgainst))
    else if text == "Goal difference" then Some(ByColumn(GoalDifference))
    else None
  }

  /** Exactly the eight labels are recognised, each naming its own sort key. */
  lemma ParseSortKeyLabels(text: string, key: SortKey)
    ensures ParseSortKey(Label(key)) == Some(key)
    ensures ParseSortKey(text) == Some(key) <==> text == Label(key)
  {
  }

  /** The value of a column, as pandas compares it; a NULL points-per-game is NaN. */
  function ColumnValue(r: Standing, c: Column): Option<real>
  {
    match c
    case Points => Some(r.points as real)
    case PointsPerGame => r.pointsPerGame
    case MatchesPlayed => Some(r.matches as real)
    case GoalsFor => Some(r.goalsFor as real)
    case GoalsAgainst => Some(r.goalsAgainst as real)
    case GoalDifference => Some(r.goalDiff as real)
  }

  /** x sorts strictly before y on the primary column; NaN goes last in both directions. */
  predicate PrimaryBefore(x: Option<real>, y: Option<real>, descending: bool)
  {
    x.Some? && (y.None? || (if descending then x.value > y.value else x.value < y.value))
  }

  /** sort_values([col, "team"], ascending=[not descending, True]). */
  predicate ColumnLe(c: Column, descending: bool, a: Standing, b: Standing)
  {
    PrimaryBefore(ColumnValue(a, c), ColumnValue(b, c), descending)
    || (ColumnValue(a, c) == ColumnValue(b, c) && StrLe(a.team, b.team))
  }

  predicate PositionLe(a: Standing, b: Standing)
  {
    a.position <= b.position
  }

  predicate TeamAscLe(a: Standing, b: Standing)
  {
    StrLe(a.team, b.team)
  }

  predicate TeamDescLe(a: Standing, b: Standing)
  {
    StrLe(b.team, a.team)
  }

  /** The order each branch of sortStandingsDf asks of sort_values. */
  function OrderOf(key: SortKey, descending: bool): (Standing, Standing) -> bool
  {
    match key
    case OfficialPosition => PositionLe
    case TeamName => if descending then TeamDescLe else TeamAscLe
    case ByColumn(c) => (a, b) => ColumnLe(c, descending, a, b)
  }

  lemma OrderOfTotalPreorder(key: SortKey, descending: bool)
    ensures TotalPreorder(OrderOf(key, descending))
  {
    var le := OrderOf(key, descending);
    forall a, b ensures le(a, b) || le(b, a) {
      StrLeTotal(a.team, b.team);
    }
    forall a, b, c | le(a, b) && le(b, c) ensures le(a, c) {
      if key.TeamName? {
        if descending {
          StrLeTransitive(c.team, b.team, a.team);
        } else {
          StrLeTransitive(a.team, b.team, c.team);
        }
      } else if key.ByColumn? && StrLe(a.team, b.team) && StrLe(b.team, c.team) {
        StrLeTransitive(a.team, b.team, c.team);
      }
    }
  }

  /** The sort_values call: a reordering of the rows that follows the chosen order. */
  function Arrange(rows: seq<Standing>, key: SortKey, descending: bool): (r: seq<Standing>)
    ensures multiset(r) == multiset(rows)
    ensures Sorted(r, OrderOf(key, descending))
  {
    OrderOfTotalPreorder(key, descending);
    SortBySorted(rows, OrderOf(key, descending));
    SortBy(rows, OrderOf(key, descending))
  }

  /**
   * sortStandingsDf(standingsDf, sortBy, descending): fails exactly on an unknown
   * label; otherwise the arranged rows with positions regenerated as 1..N.
   */
  function SortStandings(rows: seq<Standing>, sortBy: string, descending: bool): (r: Result<seq<Standing>, SortError>)
    ensures r.Success? <==> ParseSortKey(sortBy).Some?
    ensures r.Failure? ==> r.error == UnknownSortKey(sortBy)
    ensures r.Success? ==> |r.value| == |rows|
    ensures r.Success? ==> forall i :: 0 <= i < |r.value| ==> r.value[i].position == i + 1
    ensures r.Success? ==> r.value == Renumber(Arrange(rows, ParseSortKey(sortBy).value, descending))
  {
    match ParseSortKey(sortBy)
    case None => Failure(UnknownSortKey(sortBy))
    case Some(key) =>
      assert |multiset(Arrange(rows, key, descending))| == |multiset(rows)|;
      Success(Renumber(Arrange(rows, key, descending)))
  }

  /**
   * Flipping `descending` reverses the primary column only: between two rows with
   * different values the order turns round, between two with the same value the
   * team name decides, ascending, in both directions.
   */
  lemma DirectionFlipsOnlyPrimary(c: Column, a: Standing, b: Standing)
    requires ColumnValue(a, c).Some? && ColumnValue(b, c).Some?
    ensures ColumnValue(a, c) != ColumnValue(b, c) ==>
      (OrderOf(ByColumn(c), true)(a, b) <==> OrderOf(ByColumn(c), false)(b, a))
    ensures ColumnValue(a, c) == ColumnValue(b, c) ==>
      && (OrderOf(ByColumn(c), true)(a, b) <==> StrLe(a.team, b.team))
      && (OrderOf(ByColumn(c), false)(a, b) <==> StrLe(a.team, b.team))
  {
  }

  /** A NULL value sorts after every number in both directions (na_position="last"). */
  lemma NullSortsLast(c: Column, descending: bool, a: Standing, b: Standing)
    requires ColumnValue(a, c).None? && ColumnValue(b, c).Some?
    ensures OrderOf(ByColumn(c), descending)(b, a)
    ensures !OrderOf(ByColumn(c), descending)(a, b)
  {
  }

  /**
   * In a table sorted by a numeric column, rows that tie on the column are listed
   * by team name ascending, whichever direction was chosen.
   */
  lemma ResortTieBreak(rows: seq<Standing>, sortBy: string, descending: bool, c: Column, i: int, j: int)
    requires ParseSortKey(sortBy) == Some(ByColumn(c))
    requires 0 <= i < j < |rows|
    requires ColumnValue(SortStandings(rows, sortBy, descending).value[i], c)
          == ColumnValue(SortStandings(rows, sortBy, descending).value[j], c)
    ensures StrLe(SortStandings(rows, sortBy, descending).value[i].team,
                  SortStandings(rows, sortBy, descending).value[j].team)
  {
    var s := Arrange(rows, ByColumn(c), descending);
    assert OrderOf(ByColumn(c), descending)(s[i], s[j]);
  }

  /** The rows without their position column. */
  function Unpositioned(s: seq<Standing>): seq<Standing>
  {
    seq(|s|, i requires 0 <= i < |s| => s[i].(position := 0))
  }

  lemma UnpositionedConcat(a: seq<Standing>, b: seq<Standing>)
    ensures Unpositioned(a + b) == Unpositioned(a) + Unpositioned(b)
  {
  }

  /** Taking one copy of `x` out of a permutation of `b` leaves a permutation of `b` without it. */
  lemma RemoveFromPermutation(a: seq<Standing>, left: seq<Standing>, x: Standing, right: seq<Standing>)
    requires |a| > 0 && a[0] == x
    requires multiset(a) == multiset(left + [x] + right)
    ensures multiset(a[1..]) == multiset(left + right)
  {
    HeadTail(a, []);
    calc {
      multiset(a[1..]);
      multiset(a) - multiset{x};
      multiset(left + [x] + right) - multiset{x};
      multiset(left) + multiset(right);
      multiset(left + right);
    }
  }

  lemma {:induction false} UnpositionedPermutation(a: seq<Standing>, b: seq<Standing>)
    requires multiset(a) == multiset(b)
    ensures multiset(Unpositioned(a)) == multiset(Unpositioned(b))
  {
    if |a| == 0 {
      assert |b| == |multiset(b)| == 0;
    } else {
      var x := a[0];
      assert x in multiset(b);
      var j :| 0 <= j < |b| && b[j] == x;
      var left, right := b[..j], b[j + 1..];
      assert b == left + [x] + right;
      RemoveFromPermutation(a, left, x, right);
      UnpositionedPermutation(a[1..], left + right);
      HeadTail(a, []);
      UnpositionedConcat([x], a[1..]);
      UnpositionedConcat(left + [x], right);
      UnpositionedConcat(left, [x]);
      UnpositionedConcat(left, right);
    }
  }

  /**
   * Whatever the key, the sorted table holds the same rows as its input, every column
   * but the position unchanged; for every key but the official position it is in the
   * chosen order (the official position orders by the positions it then overwrites).
   */
  lemma ResortPermutation(rows: seq<Standing>, sortBy: string, descending: bool)
    requires ParseSortKey(sortBy).Some?
    ensures multiset(Unpositioned(SortStandings(rows, sortBy, descending).value)) == multiset(Unpositioned(rows))
    ensures ParseSortKey(sortBy) != Some(OfficialPosition) ==>
      Sorted(SortStandings(rows, sortBy, descending).value, OrderOf(ParseSortKey(sortBy).value, descending))
  {
    var key := ParseSortKey(sortBy).value;
    var s := Arrange(rows, key, descending);
    var r := SortStandings(rows, sortBy, descending).value;
    assert Unpositioned(r) == Unpositioned(s);
    UnpositionedPermutation(s, rows);
    if key != OfficialPosition {
      forall i, j | 0 <= i < j < |r| ensures OrderOf(key, descending)(r[i], r[j]) {
        assert OrderOf(key, descending)(s[i], s[j]);
      }
    }
  }

  /** No two rows share a team. */
  predicate UniqueTeams(rows: seq<Standing>)
  {
    forall i, j :: 0 <= i < j < |rows| ==> rows[i].team != rows[j].team
  }

  /** No two rows share a position. */
  predicate UniquePositions(rows: seq<Standing>)
  {
    forall i, j :: 0 <= i < j < |rows| ==> rows[i].position != rows[j].position
  }

  /** Under the same uniqueness, two rows of the input that tie in the order are the same row. */
  lemma OnlyTiesAreEqual(rows: seq<Standing>, key: SortKey, descending: bool, a: Standing, b: Standing)
    requires UniqueTeams(rows)
    requires key == OfficialPosition ==> UniquePositions(rows)
    requires a in rows && b in rows
    requires OrderOf(key, descending)(a, b) && OrderOf(key, descending)(b, a)
    ensures a == b
  {
    var i :| 0 <= i < |rows| && rows[i] == a;
    var j :| 0 <= j < |rows| && rows[j] == b;
    if key != OfficialPosition {
      StrLeAntisymmetric(a.team, b.team);
      assert a.team == b.team;
    }
    assert i == j;
  }

  /**
   * With distinct team names (and, for the official position, distinct positions)
   * the chosen order has no ties, so any sort that follows it returns these very rows:
   * the result does not depend on which sorting algorithm pandas runs.
   */
  lemma ArrangeUnique(rows: seq<Standing>, key: SortKey, descending: bool, other: seq<Standing>)
    requires UniqueTeams(rows)
    requires key == OfficialPosition ==> UniquePositions(rows)
    requires multiset(other) == multiset(rows)
    requires Sorted(other, OrderOf(key, descending))
    ensures other == Arrange(rows, key, descending)
  {
    var s := Arrange(rows, key, descending);
    var le := OrderOf(key, descending);
    forall a, b | a in s && b in s && le(a, b) && le(b, a) ensures a == b {
      assert a in multiset(rows) && b in multiset(rows);
      OnlyTiesAreEqual(rows, key, descending, a, b);
    }
    SortedUnique(s, other, le);
  }

  /**
   * Sorting the standings by official position gives back the canonical table,
   * whichever direction is ticked.
   */
  lemma OfficialPositionRestoresTable(rows: seq<Matches.TeamRow>, descending: bool)
    ensures SortStandings(Table(rows), "Official position", descending) == Success(Table(rows))
  {
    var t := Table(rows);
    TableRows(rows);
    assert Sorted(t, PositionLe);
    SortByOfSorted(t, PositionLe);
    assert Renumber(t) == t;
  }

  /** The CSS class of a row: position 1 is the champion, positions from the threshold on are relegated. */
  datatype RowClass = Champion | Relegation | Plain

  function RowClassOf(position: int, relegationFromPos: int): (c: RowClass)
    ensures c == Champion <==> position == 1
    ensures c == Relegation <==> position != 1 && position >= relegationFromPos
  {
    if position == 1 then Champion
    else if position >= relegationFromPos then Relegation
    else Plain
  }

  /**
   * In a table with positions 1..N, exactly the first row is the champion and
   * the relegation zone is every later row at or past the threshold.
   */
  lemma TableRowClasses(table: seq<Standing>, relegationFromPos: int, i: int)
    requires forall k :: 0 <= k < |table| ==> table[k].position == k + 1
    requires 0 <= i < |table|
    ensures RowClassOf(table[i].position, relegationFromPos) == Champion <==> i == 0
    ensures RowClassOf(table[i].position, relegationFromPos) == Relegation <==> 0 < i && i + 1 >= relegationFromPos
  {
  }
}
