/**
 * loadTeamMonthlyGoalsDf: the goals one team scored and conceded in each calendar
 * month of the season, months ascending.
 */
module MonthlyGoals {
  import opened Calendar
  import opened Ordering
  import opened Matches
  import opened Tallies
  import opened Standings

  /** One row of the result: month, goals_scored, goals_conceded. */
  datatype MonthGoals = MonthGoals(month: Date, goalsScored: nat, goalsConceded: nat)

  /** The grouping column DATE_TRUNC('month', match_date). */
  function RowMonth(r: TeamRow): Date
  {
    MonthStart(r.date)
  }

  lemma DateLeTotalPreorder()
    ensures TotalPreorder(DateLe)
  {
    forall a, b, c ensures DateLe(a, b) || DateLe(b, a) ensures DateLe(a, b) && DateLe(b, c) ==> DateLe(a, c) {
      DateLeTotalOrder(a, b, c);
    }
  }

  /** The months in which the rows fall, once each, ascending: GROUP BY 1 ORDER BY 1. */
  function MonthsOf(rows: seq<TeamRow>): seq<Date>
  {
    SortBy(Keys(rows, RowMonth), DateLe)
  }

  /** The row of the result for month m. */
  function MonthRow(rows: seq<TeamRow>, m: Date): MonthGoals
  {
    var k := SumAll(Where(rows, RowMonth, m));
    MonthGoals(m, k.goalsFor, k.goalsAgainst)
  }

  /** One row per month of the rows, months ascending. */
  function Monthly(rows: seq<TeamRow>): seq<MonthGoals>
  {
    var months := MonthsOf(rows);
    seq(|months|, i requires 0 <= i < |months| => MonthRow(rows, months[i]))
  }

  /** The rows of the team in the season: WHERE team = %s over the base rows. */
  function TeamRowsOf(ms: seq<Match>, seasonStart: Date, seasonEnd: Date, team: string): seq<TeamRow>
  {
    Where(Base(Season(ms, seasonStart, seasonEnd)), RowTeam, team)
  }

  /** loadTeamMonthlyGoalsDf(team, seasonStart, seasonEnd). */
  function TeamMonthlyGoals(ms: seq<Match>, seasonStart: Date, seasonEnd: Date, team: string): seq<MonthGoals>
  {
    Monthly(TeamRowsOf(ms, seasonStart, seasonEnd, team))
  }

  /**
   * The months listed are strictly ascending; they are exactly the months in which
   * the rows fall, so a month without a match is absent and every listed month has one.
   */
  lemma MonthsOfFacts(rows: seq<TeamRow>)
    ensures forall i, j :: 0 <= i < j < |MonthsOf(rows)| ==> DateLt(MonthsOf(rows)[i], MonthsOf(rows)[j])
    ensures forall m :: m in MonthsOf(rows) <==> exists r :: r in rows && RowMonth(r) == m
    ensures forall m :: m in MonthsOf(rows) ==> m.day == 1 && Where(rows, RowMonth, m) != []
  {
    var keys := Keys(rows, RowMonth);
    var months := MonthsOf(rows);
    DateLeTotalPreorder();
    SortBySorted(keys, DateLe);
    DistinctPermutation(keys, months);
    forall m ensures m in months <==> m in keys {
      assert m in months <==> m in multiset(months);
    }
    forall m | m in keys ensures exists r :: r in rows && RowMonth(r) == m {
      var g := Where(rows, RowMonth, m);
      assert g[0] in g;
    }
  }

  lemma MonthlyMonths(rows: seq<TeamRow>)
    ensures |Monthly(rows)| == |MonthsOf(rows)|
    ensures forall i :: 0 <= i < |Monthly(rows)| ==> Monthly(rows)[i] == MonthRow(rows, MonthsOf(rows)[i])
  {
  }

  /**
   * The result lists strictly ascending month starts, each with at least one of
   * the rows, and every row's month is listed.
   */
  lemma MonthlyShape(rows: seq<TeamRow>)
    ensures forall i, j :: 0 <= i < j < |Monthly(rows)| ==> DateLt(Monthly(rows)[i].month, Monthly(rows)[j].month)
    ensures forall i :: 0 <= i < |Monthly(rows)| ==>
      Monthly(rows)[i].month.day == 1 && Where(rows, RowMonth, Monthly(rows)[i].month) != []
    ensures forall r :: r in rows ==> exists i :: 0 <= i < |Monthly(rows)| && Monthly(rows)[i].month == RowMonth(r)
  {
    var months := MonthsOf(rows);
    var result := Monthly(rows);
    MonthsOfFacts(rows);
    MonthlyMonths(rows);
    forall i, j | 0 <= i < j < |result| ensures DateLt(result[i].month, result[j].month) {
      assert result[i].month == months[i] && result[j].month == months[j];
    }
    forall i | 0 <= i < |result| ensures result[i].month.day == 1 && Where(rows, RowMonth, result[i].month) != [] {
      assert result[i].month == months[i];
      assert months[i] in months;
    }
    forall r | r in rows ensures exists i :: 0 <= i < |result| && result[i].month == RowMonth(r) {
      assert RowMonth(r) in months;
      var i :| 0 <= i < |months| && months[i] == RowMonth(r);
      assert result[i].month == RowMonth(r);
    }
  }

  /** A team that played no match in the season has no monthly rows, and only such a team. */
  lemma UnknownTeamIsEmpty(ms: seq<Match>, seasonStart: Date, seasonEnd: Date, team: string)
    ensures TeamMonthlyGoals(ms, seasonStart, seasonEnd, team) == []
        <==> forall r :: r in Base(Season(ms, seasonStart, seasonEnd)) ==> r.team != team
  {
    var rows := TeamRowsOf(ms, seasonStart, seasonEnd, team);
    MonthsOfFacts(rows);
    if rows != [] {
      assert rows[0] in rows;
      assert RowMonth(rows[0]) in MonthsOf(rows);
    }
  }

  /** The goal columns of a tally, with nothing else. */
  function GoalsOf(k: Tally): Tally
  {
    Tally(0, 0, k.goalsFor, k.goalsAgainst)
  }

  /** The goals of one result row, as a tally, so that they can be added up. */
  function MonthTally(g: MonthGoals): Tally
  {
    Tally(0, 0, g.goalsScored, g.goalsConceded)
  }

  lemma {:induction false} SumOfGoals<T>(s: seq<T>, w: T -> Tally, g: T -> Tally)
    requires forall x :: g(x) == GoalsOf(w(x))
    ensures SumOf(s, g) == GoalsOf(SumOf(s, w))
  {
    if |s| > 0 {
      SumOfGoals(s[1..], w, g);
    }
  }

  lemma {:induction false} SumOverKeysIsSumOf<K>(rows: seq<TeamRow>, key: TeamRow -> K, ks: seq<K>, w: K -> Tally)
    requires forall k :: w(k) == SumAll(Where(rows, key, k))
    ensures SumOverKeys(rows, key, ks) == SumOf(ks, w)
  {
    if |ks| > 0 {
      SumOverKeysIsSumOf(rows, key, ks[1..], w);
    }
  }

  /** The goals of the months add up to the goals of all the rows. */
  lemma MonthsAddUp(rows: seq<TeamRow>)
    ensures SumOf(Monthly(rows), MonthTally) == GoalsOf(SumAll(rows))
  {
    var keys := Keys(rows, RowMonth);
    var months := MonthsOf(rows);
    var result := Monthly(rows);
    var w := (m: Date) => SumAll(Where(rows, RowMonth, m));
    var g := (m: Date) => GoalsOf(SumAll(Where(rows, RowMonth, m)));
    DateLeTotalPreorder();
    SortBySorted(keys, DateLe);
    SumOfPointwise(result, MonthTally, months, g);
    SumOfGoals(months, w, g);
    SumOfPermutation(months, keys, w);
    SumOverKeysIsSumOf(rows, RowMonth, keys, w);
    Partition(rows, RowMonth, keys);
  }

  /**
   * The monthly goals of a team add up to the goals for and against of its row in
   * the standings of the same season.
   */
  lemma MonthlyMatchesStandings(ms: seq<Match>, seasonStart: Date, seasonEnd: Date, i: int)
    requires 0 <= i < |LoadStandings(ms, seasonStart, seasonEnd)|
    ensures var s := LoadStandings(ms, seasonStart, seasonEnd)[i];
      var total := SumOf(TeamMonthlyGoals(ms, seasonStart, seasonEnd, s.team), MonthTally);
      total.goalsFor == s.goalsFor && total.goalsAgainst == s.goalsAgainst
  {
    var base := Base(Season(ms, seasonStart, seasonEnd));
    var s := LoadStandings(ms, seasonStart, seasonEnd)[i];
    TableRows(base);
    MonthsAddUp(Where(base, RowTeam, s.team));
  }
}
