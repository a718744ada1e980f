/**
 * The cumulative points-per-game series of loadPpgTimeSeriesDf: every team-match row
 * of the season, in (date, team) order, carries the team's points per game over all
 * its rows up to and including this one.
 */
module PpgSeries {
  import opened Optional
  import opened Calendar
  import opened Ordering
  import opened Matches
  import opened Tallies
  import opened Standings

  /** One row of the result: match_date, team, points_per_game. */
  datatype PpgPoint = PpgPoint(date: Date, team: string, pointsPerGame: Option<real>)

  /** ORDER BY match_date, team. */
  predicate RowBefore(a: TeamRow, b: TeamRow)
  {
    DateLt(a.date, b.date) || (a.date == b.date && StrLe(a.team, b.team))
  }

  lemma RowBeforeTotalPreorder()
    ensures TotalPreorder(RowBefore)
  {
    forall a, b ensures RowBefore(a, b) || RowBefore(b, a) {
      DateLeTotalOrder(a.date, b.date, b.date);
      StrLeTotal(a.team, b.team);
    }
    forall a, b, c | RowBefore(a, b) && RowBefore(b, c) ensures RowBefore(a, c) {
      DateLeTotalOrder(a.date, b.date, c.date);
      DateLeTotalOrder(a.date, c.date, b.date);
      if a.date == b.date == c.date {
        StrLeTransitive(a.team, b.team, c.team);
      }
    }
  }

  /** The running totals recorded for team t so far; a team not met yet has none. */
  function Lookup(seen: map<string, Tally>, t: string): Tally
  {
    if t in seen then seen[t] else Zero
  }

  /** The output row for r, given its team's running totals including r. */
  function PointOf(r: TeamRow, running: Tally): PpgPoint
  {
    PpgPoint(r.date, r.team, PerGame(running.points, running.matches))
  }

  /**
   * The window SUM(points) and COUNT(*) OVER (PARTITION BY team ROWS BETWEEN
   * UNBOUNDED PRECEDING AND CURRENT ROW), evaluated as one pass over the ordered rows
   * that keeps each team's running totals.
   */
  function Cumulate(rows: seq<TeamRow>, seen: map<string, Tally>): (series: seq<PpgPoint>)
    ensures |series| == |rows|
  {
    if |rows| == 0 then []
    else
      var r := rows[0];
      var running := Plus(Lookup(seen, r.team), RowTally(r));
      [PointOf(r, running)] + Cumulate(rows[1..], seen[r.team := running])
  }

  /** The team-match rows of the season in output order. */
  function Ordered(ms: seq<Match>, seasonStart: Date, seasonEnd: Date): (rows: seq<TeamRow>)
    ensures multiset(rows) == multiset(Base(Season(ms, seasonStart, seasonEnd)))
    ensures Sorted(rows, RowBefore)
  {
    RowBeforeTotalPreorder();
    SortBySorted(Base(Season(ms, seasonStart, seasonEnd)), RowBefore);
    SortBy(Base(Season(ms, seasonStart, seasonEnd)), RowBefore)
  }

  /** loadPpgTimeSeriesDf(seasonStart, seasonEnd). */
  function PpgTimeSeries(ms: seq<Match>, seasonStart: Date, seasonEnd: Date): (series: seq<PpgPoint>)
    ensures |series| == 2 * |Season(ms, seasonStart, seasonEnd)|
  {
    assert |multiset(Ordered(ms, seasonStart, seasonEnd))| == |multiset(Base(Season(ms, seasonStart, seasonEnd)))|;
    Cumulate(Ordered(ms, seasonStart, seasonEnd), map[])
  }

  /** The window frame of row i: the rows of its team from the first up to row i. */
  function Frame(rows: seq<TeamRow>, i: int): seq<TeamRow>
    requires 0 <= i < |rows|
  {
    Where(rows[..i + 1], RowTeam, rows[i].team)
  }

  lemma {:induction false} WhereConcat(a: seq<TeamRow>, b: seq<TeamRow>, t: string)
    ensures Where(a + b, RowTeam, t) == Where(a, RowTeam, t) + Where(b, RowTeam, t)
  {
    if |a| == 0 {
      assert a + b == b;
    } else {
      var x, rest := a[0], a[1..];
      assert (a + b)[0] == x;
      assert (a + b)[1..] == rest + b;
      WhereConcat(rest, b, t);
      var h := if x.team == t then [x] else [];
      assert Where(a + b, RowTeam, t) == h + Where(rest + b, RowTeam, t);
      assert Where(a, RowTeam, t) == h + Where(rest, RowTeam, t);
      assert h + (Where(rest, RowTeam, t) + Where(b, RowTeam, t)) == (h + Where(rest, RowTeam, t)) + Where(b, RowTeam, t);
    }
  }

  lemma WhereSnoc(a: seq<TeamRow>, r: TeamRow, t: string)
    ensures SumAll(Where(a + [r], RowTeam, t)) == Plus(SumAll(Where(a, RowTeam, t)), TallyIf(r, RowTeam, t))
  {
    WhereConcat(a, [r], t);
    assert Where([r], RowTeam, t) == (if r.team == t then [r] else []) + Where([], RowTeam, t);
    SumOfConcat(Where(a, RowTeam, t), Where([r], RowTeam, t), RowTally);
    if r.team == t {
      SumAllCons(r, []);
      PlusZero(RowTally(r));
    }
  }

  /** Running totals that agree with the rows already consumed. */
  ghost predicate Agrees(seen: map<string, Tally>, done: seq<TeamRow>)
  {
    forall t :: Lookup(seen, t) == SumAll(Where(done, RowTeam, t))
  }

  lemma AgreesStepAt(seen: map<string, Tally>, done: seq<TeamRow>, r: TeamRow, t: string)
    requires Lookup(seen, t) == SumAll(Where(done, RowTeam, t))
    ensures Lookup(seen[r.team := Plus(Lookup(seen, r.team), RowTally(r))], t) == SumAll(Where(done + [r], RowTeam, t))
  {
    WhereSnoc(done, r, t);
    PlusZero(SumAll(Where(done, RowTeam, t)));
  }

  lemma AgreesStep(seen: map<string, Tally>, done: seq<TeamRow>, r: TeamRow)
    requires Agrees(seen, done)
    ensures Agrees(seen[r.team := Plus(Lookup(seen, r.team), RowTally(r))], done + [r])
  {
    forall t ensures Lookup(seen[r.team := Plus(Lookup(seen, r.team), RowTally(r))], t) == SumAll(Where(done + [r], RowTeam, t)) {
      AgreesStepAt(seen, done, r, t);
    }
  }

  /**
   * The pass computes the SQL window: the point of row k is its team's points over
   * matches within the frame of row k.
   */
  lemma PrefixThrough<T>(done: seq<T>, rows: seq<T>)
    requires |rows| > 0
    ensures (done + rows)[|done|] == rows[0]
    ensures (done + rows)[..|done| + 1] == done + [rows[0]]
  {
    var s, t := (done + rows)[..|done| + 1], done + [rows[0]];
    assert |s| == |t|;
    forall i | 0 <= i < |s| ensures s[i] == t[i] {
      if i < |done| {
        assert s[i] == done[i];
      }
    }
  }

  /** The frame of the first row after `done`: the rows of its team in `done`, and itself. */
  lemma FrameNext(done: seq<TeamRow>, rows: seq<TeamRow>)
    requires |rows| > 0
    ensures Frame(done + rows, |done|) == Where(done + [rows[0]], RowTeam, rows[0].team)
  {
    PrefixThrough(done, rows);
  }

  lemma CumulateWindowFirst(done: seq<TeamRow>, rows: seq<TeamRow>, seen: map<string, Tally>)
    requires Agrees(seen, done)
    requires |rows| > 0
    ensures Cumulate(rows, seen)[0] == PointOf(rows[0], SumAll(Frame(done + rows, |done|)))
  {
    var r := rows[0];
    CumulateCons(rows, seen);
    FrameNext(done, rows);
    WhereSnoc(done, r, r.team);
    assert Lookup(seen, r.team) == SumAll(Where(done, RowTeam, r.team));
  }

  lemma {:induction false} CumulateWindow(done: seq<TeamRow>, rows: seq<TeamRow>, seen: map<string, Tally>, k: int)
    requires Agrees(seen, done)
    requires 0 <= k < |rows|
    ensures Cumulate(rows, seen)[k] == PointOf(rows[k], SumAll(Frame(done + rows, |done| + k)))
    decreases |rows|
  {
    if k == 0 {
      CumulateWindowFirst(done, rows, seen);
    } else {
      var r, rest := rows[0], rows[1..];
      var seen' := seen[r.team := Plus(Lookup(seen, r.team), RowTally(r))];
      CumulateCons(rows, seen);
      AgreesStep(seen, done, r);
      HeadTail(rows, []);
      assert (done + [r]) + rest == done + rows;
      CumulateWindow(done + [r], rest, seen', k - 1);
      assert rest[k - 1] == rows[k];
    }
  }

  /** Every row of the season yields its window value: SQL's frame, computed in one pass. */
  lemma SeriesIsWindow(ms: seq<Match>, seasonStart: Date, seasonEnd: Date, k: int)
    requires 0 <= k < |PpgTimeSeries(ms, seasonStart, seasonEnd)|
    ensures PpgTimeSeries(ms, seasonStart, seasonEnd)[k]
         == PointOf(Ordered(ms, seasonStart, seasonEnd)[k], SumAll(Frame(Ordered(ms, seasonStart, seasonEnd), k)))
  {
    var rows := Ordered(ms, seasonStart, seasonEnd);
    assert Agrees(map[], []);
    assert [] + rows == rows;
    CumulateWindow([], rows, map[], k);
  }

  /** The points of team t, in series order. */
  function TeamSeries(series: seq<PpgPoint>, t: string): seq<PpgPoint>
  {
    if |series| == 0 then []
    else
      (if series[0].team == t then [series[0]] else []) + TeamSeries(series[1..], t)
  }

  /**
   * One team's running points per game, starting from the totals `before`: a
   * reference definition that reads the team's own rows only.
   */
  function Running(team: seq<TeamRow>, before: Tally): (r: seq<PpgPoint>)
    ensures |r| == |team|
  {
    if |team| == 0 then []
    else
      var now := Plus(before, RowTally(team[0]));
      [PointOf(team[0], now)] + Running(team[1..], now)
  }

  lemma TeamSeriesCons(p: PpgPoint, rest: seq<PpgPoint>, t: string)
    ensures TeamSeries([p] + rest, t) == (if p.team == t then [p] else []) + TeamSeries(rest, t)
  {
    assert ([p] + rest)[1..] == rest;
  }

  lemma WhereCons1(r: TeamRow, rest: seq<TeamRow>, t: string)
    ensures Where([r] + rest, RowTeam, t) == (if r.team == t then [r] else []) + Where(rest, RowTeam, t)
  {
    assert ([r] + rest)[1..] == rest;
  }

  lemma RunningCons(r: TeamRow, rest: seq<TeamRow>, before: Tally)
    ensures Running([r] + rest, before) == [PointOf(r, Plus(before, RowTally(r)))] + Running(rest, Plus(before, RowTally(r)))
  {
    assert ([r] + rest)[1..] == rest;
  }

  lemma CumulateCons(rows: seq<TeamRow>, seen: map<string, Tally>)
    requires |rows| > 0
    ensures Cumulate(rows, seen) == [PointOf(rows[0], Plus(Lookup(seen, rows[0].team), RowTally(rows[0])))]
      + Cumulate(rows[1..], seen[rows[0].team := Plus(Lookup(seen, rows[0].team), RowTally(rows[0]))])
  {
  }

  /** The pass yields one point per row, with that row's date and team. */
  lemma {:induction false} CumulateRows(rows: seq<TeamRow>, seen: map<string, Tally>, i: int)
    requires 0 <= i < |rows|
    ensures Cumulate(rows, seen)[i].date == rows[i].date && Cumulate(rows, seen)[i].team == rows[i].team
  {
    CumulateCons(rows, seen);
    if i > 0 {
      CumulateRows(rows[1..], seen[rows[0].team := Plus(Lookup(seen, rows[0].team), RowTally(rows[0]))], i - 1);
    }
  }

  /** Picking one team's points out of the pass is running that team's rows alone. */
  lemma {:induction false} CumulateTeam(rows: seq<TeamRow>, seen: map<string, Tally>, t: string)
    ensures TeamSeries(Cumulate(rows, seen), t) == Running(Where(rows, RowTeam, t), Lookup(seen, t))
  {
    if |rows| > 0 {
      var r := rows[0];
      var running := Plus(Lookup(seen, r.team), RowTally(r));
      var seen' := seen[r.team := running];
      var tail := Cumulate(rows[1..], seen');
      var rest := Where(rows[1..], RowTeam, t);
      CumulateCons(rows, seen);
      HeadTail(rows, []);
      WhereCons1(r, rows[1..], t);
      TeamSeriesCons(PointOf(r, running), tail, t);
      CumulateTeam(rows[1..], seen', t);
      if r.team == t {
        assert Lookup(seen', t) == running;
        RunningCons(r, rest, Lookup(seen, t));
      } else {
        assert Lookup(seen', t) == Lookup(seen, t);
        assert [] + rest == rest;
        assert [] + TeamSeries(tail, t) == TeamSeries(tail, t);
      }
    }
  }

  /** The k-th point of a running series: the totals before plus the first k + 1 rows. */
  lemma {:induction false} RunningAt(team: seq<TeamRow>, before: Tally, k: int)
    requires 0 <= k < |team|
    ensures Running(team, before)[k] == PointOf(team[k], Plus(before, SumAll(team[..k + 1])))
  {
    var now := Plus(before, RowTally(team[0]));
    if k == 0 {
      assert team[..1] == [team[0]] + [];
      SumAllCons(team[0], []);
      PlusZero(RowTally(team[0]));
    } else {
      RunningAt(team[1..], now, k - 1);
      assert team[..k + 1] == [team[0]] + team[1..][..k];
      SumAllCons(team[0], team[1..][..k]);
      PlusAssoc(before, RowTally(team[0]), SumAll(team[1..][..k]));
    }
  }

  /** A filter keeps the order of a sorted sequence. */
  lemma {:induction false} WhereSorted(s: seq<TeamRow>, t: string, le: (TeamRow, TeamRow) -> bool)
    requires Sorted(s, le)
    ensures Sorted(Where(s, RowTeam, t), le)
  {
    if |s| > 0 {
      WhereSorted(s[1..], t, le);
      var rest := Where(s[1..], RowTeam, t);
      forall y | y in rest ensures le(s[0], y) {
        var j :| 0 <= j < |s[1..]| && s[1..][j] == y;
        assert s[j + 1] == y;
      }
    }
  }

  /** The rows of team t in output order: one per match the team played, by date. */
  function TeamRows(ms: seq<Match>, seasonStart: Date, seasonEnd: Date, t: string): seq<TeamRow>
  {
    Where(Ordered(ms, seasonStart, seasonEnd), RowTeam, t)
  }

  /**
   * The series has one point per team-match row, and it is in (date, team) order.
   */
  lemma SeriesShape(ms: seq<Match>, seasonStart: Date, seasonEnd: Date)
    ensures |PpgTimeSeries(ms, seasonStart, seasonEnd)| == 2 * |Season(ms, seasonStart, seasonEnd)|
    ensures multiset(Ordered(ms, seasonStart, seasonEnd)) == multiset(Base(Season(ms, seasonStart, seasonEnd)))
    ensures forall i, j :: 0 <= i < j < |PpgTimeSeries(ms, seasonStart, seasonEnd)| ==>
      var p, q := PpgTimeSeries(ms, seasonStart, seasonEnd)[i], PpgTimeSeries(ms, seasonStart, seasonEnd)[j];
      DateLt(p.date, q.date) || (p.date == q.date && StrLe(p.team, q.team))
  {
    var base := Base(Season(ms, seasonStart, seasonEnd));
    var rows := Ordered(ms, seasonStart, seasonEnd);
    RowBeforeTotalPreorder();
    SortBySorted(base, RowBefore);
    assert |rows| == |multiset(rows)| == |multiset(base)| == |base|;
    var series := PpgTimeSeries(ms, seasonStart, seasonEnd);
    forall i, j | 0 <= i < j < |series|
      ensures DateLt(series[i].date, series[j].date) || (series[i].date == series[j].date && StrLe(series[i].team, series[j].team))
    {
      CumulateRows(rows, map[], i);
      CumulateRows(rows, map[], j);
      assert RowBefore(rows[i], rows[j]);
    }
  }

  /** The formula for one point, on any ordered rows. */
  lemma TeamPointAt(rows: seq<TeamRow>, t: string, k: int)
    requires 0 <= k < |Where(rows, RowTeam, t)|
    ensures |TeamSeries(Cumulate(rows, map[]), t)| == |Where(rows, RowTeam, t)|
    ensures TeamSeries(Cumulate(rows, map[]), t)[k]
         == PpgPoint(Where(rows, RowTeam, t)[k].date, t,
                     Some(SumAll(Where(rows, RowTeam, t)[..k + 1]).points as real / (k + 1) as real))
  {
    var team := Where(rows, RowTeam, t);
    var prefix := team[..k + 1];
    CumulateTeam(rows, map[], t);
    assert Lookup(map[], t) == Zero;
    RunningAt(team, Zero, k);
    PlusZero(SumAll(prefix));
    SumAllMatches(prefix);
    assert team[k] in team;
    assert team[k].team == t;
  }

  /**
   * The rows of each team in output order are exactly its team-match rows of the
   * season, in date order.
   */
  lemma TeamRowsByDate(ms: seq<Match>, seasonStart: Date, seasonEnd: Date, t: string)
    ensures multiset(TeamRows(ms, seasonStart, seasonEnd, t)) == multiset(Where(Base(Season(ms, seasonStart, seasonEnd)), RowTeam, t))
    ensures forall i, j :: 0 <= i < j < |TeamRows(ms, seasonStart, seasonEnd, t)| ==>
      DateLe(TeamRows(ms, seasonStart, seasonEnd, t)[i].date, TeamRows(ms, seasonStart, seasonEnd, t)[j].date)
  {
    var base := Base(Season(ms, seasonStart, seasonEnd));
    var rows := Ordered(ms, seasonStart, seasonEnd);
    var team := TeamRows(ms, seasonStart, seasonEnd, t);
    RowBeforeTotalPreorder();
    SortBySorted(base, RowBefore);
    WherePermutation(rows, base, RowTeam, t);
    WhereSorted(rows, t, RowBefore);
    forall i, j | 0 <= i < j < |team| ensures DateLe(team[i].date, team[j].date) {
      assert RowBefore(team[i], team[j]);
    }
  }

  /** Two rows tie in the (date, team) order exactly when they share date and team. */
  lemma RowBeforeTied(a: TeamRow, b: TeamRow)
    ensures Tied(RowBefore, a, b) <==> a.date == b.date && a.team == b.team
  {
    DateLeTotalOrder(a.date, b.date, a.date);
    StrLeTotal(a.team, b.team);
    if a.date == b.date && StrLe(a.team, b.team) && StrLe(b.team, a.team) {
      StrLeAntisymmetric(a.team, b.team);
    }
  }

  /**
   * The order the window leaves open, between rows of one team on one date, is the
   * order of the base rows: the sort into (date, team) order is stable.
   */
  lemma SameDayOrder(ms: seq<Match>, seasonStart: Date, seasonEnd: Date, r: TeamRow)
    ensures TiesWith(Ordered(ms, seasonStart, seasonEnd), RowBefore, r)
         == TiesWith(Base(Season(ms, seasonStart, seasonEnd)), RowBefore, r)
  {
    RowBeforeTotalPreorder();
    SortByStable(Base(Season(ms, seasonStart, seasonEnd)), RowBefore, r);
  }

  /**
   * For each team, there is one point per row of the team, and the k-th is the
   * points of its first k + 1 matches over k + 1: SQL's NULLIF never applies.
   */
  lemma TeamSeriesFormula(ms: seq<Match>, seasonStart: Date, seasonEnd: Date, t: string, k: int)
    requires 0 <= k < |TeamRows(ms, seasonStart, seasonEnd, t)|
    ensures |TeamSeries(PpgTimeSeries(ms, seasonStart, seasonEnd), t)| == |TeamRows(ms, seasonStart, seasonEnd, t)|
    ensures TeamSeries(PpgTimeSeries(ms, seasonStart, seasonEnd), t)[k]
         == PpgPoint(TeamRows(ms, seasonStart, seasonEnd, t)[k].date, t,
                     Some(SumAll(TeamRows(ms, seasonStart, seasonEnd, t)[..k + 1]).points as real / (k + 1) as real))
  {
    TeamPointAt(Ordered(ms, seasonStart, seasonEnd), t, k);
  }

  /** The last point of one team, on any ordered rows. */
  lemma LastPointAt(rows: seq<TeamRow>, t: string)
    requires |Where(rows, RowTeam, t)| > 0
    ensures var points := TeamSeries(Cumulate(rows, map[]), t);
      && |points| == |Where(rows, RowTeam, t)|
      && points[|points| - 1].pointsPerGame == PerGame(SumAll(Where(rows, RowTeam, t)).points, |Where(rows, RowTeam, t)|)
  {
    var team := Where(rows, RowTeam, t);
    TeamPointAt(rows, t, |team| - 1);
    assert team[..|team|] == team;
  }

  /** The standings row of a team, read back from its group of rows. */
  lemma StandingOfGroup(base: seq<TeamRow>, i: int)
    requires 0 <= i < |Table(base)|
    ensures Table(base)[i].matches == |Where(base, RowTeam, Table(base)[i].team)| > 0
    ensures Table(base)[i].pointsPerGame
         == PerGame(SumAll(Where(base, RowTeam, Table(base)[i].team)).points, |Where(base, RowTeam, Table(base)[i].team)|)
  {
    TableRows(base);
  }

  /** The last point of a team, on rows in any order, is that of its group. */
  lemma LastPointOfGroup(base: seq<TeamRow>, rows: seq<TeamRow>, t: string)
    requires multiset(rows) == multiset(base)
    requires Where(base, RowTeam, t) != []
    ensures var points := TeamSeries(Cumulate(rows, map[]), t);
      && |points| == |Where(base, RowTeam, t)| > 0
      && points[|points| - 1].pointsPerGame == PerGame(SumAll(Where(base, RowTeam, t)).points, |Where(base, RowTeam, t)|)
  {
    var group := Where(base, RowTeam, t);
    var team := Where(rows, RowTeam, t);
    WherePermutation(rows, base, RowTeam, t);
    assert |team| == |multiset(team)| == |multiset(group)| == |group|;
    SumAllPermutation(team, group);
    LastPointAt(rows, t);
  }

  /** The last point of the team of each row of a table, on its rows in any order. */
  lemma LastPointOfTable(base: seq<TeamRow>, rows: seq<TeamRow>, i: int)
    requires multiset(rows) == multiset(base)
    requires 0 <= i < |Table(base)|
    ensures var points := TeamSeries(Cumulate(rows, map[]), Table(base)[i].team);
      && |points| == Table(base)[i].matches > 0
      && points[|points| - 1].pointsPerGame == Table(base)[i].pointsPerGame
  {
    StandingOfGroup(base, i);
    LastPointOfGroup(base, rows, Table(base)[i].team);
  }

  /**
   * The last point of every team in the standings is its points per game in the
   * standings of the same season.
   */
  lemma LastPointIsStandingsPpg(ms: seq<Match>, seasonStart: Date, seasonEnd: Date, i: int)
    requires 0 <= i < |LoadStandings(ms, seasonStart, seasonEnd)|
    ensures var s := LoadStandings(ms, seasonStart, seasonEnd)[i];
      var points := TeamSeries(PpgTimeSeries(ms, seasonStart, seasonEnd), s.team);
      && |points| == s.matches > 0
      && points[|points| - 1].pointsPerGame == s.pointsPerGame
  {
    LastPointOfTable(Base(Season(ms, seasonStart, seasonEnd)), Ordered(ms, seasonStart, seasonEnd), i);
  }
}
