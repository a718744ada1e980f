/**
 * loadStandingsDf: the `agg` CTE groups the rows of the `base` CTE by team, the
 * final SELECT ranks the groups by points, goal difference, goals for and team
 * name, and positions 1..N are inserted in that order.
 */
module Standings {
  import opened Optional
  import opened Ordering
  import opened Matches
  import opened Tallies

  /** One row of the standings table. */
  datatype Standing = Standing(
    position: nat,
    team: string,
    matches: nat,
    points: nat,
    goalsFor: nat,
    goalsAgainst: nat,
    goalDiff: int,
    pointsPerGame: Option<real>)

  /** (points * 1.0) / NULLIF(matches, 0): NULL rather than a division by zero. */
  function PerGame(points: nat, matches: nat): (ppg: Option<real>)
    ensures ppg.None? <==> matches == 0
    ensures ppg.Some? ==> ppg.value * matches as real == points as real && ppg.value >= 0.0
  {
    if matches == 0 then None else Some(points as real / matches as real)
  }

  /** The aggregates of one team's group. */
  function TeamTotals(rows: seq<TeamRow>, team: string): Tally
  {
    SumAll(Where(rows, RowTeam, team))
  }

  /** One row of the `agg` CTE; its position is assigned after ranking. */
  function TeamStanding(rows: seq<TeamRow>, team: string): Standing
  {
    var k := TeamTotals(rows, team);
    Standing(0, team, k.matches, k.points, k.goalsFor, k.goalsAgainst,
             k.goalsFor - k.goalsAgainst, PerGame(k.points, k.matches))
  }

  function AggregateOver(rows: seq<TeamRow>, teams: seq<string>): seq<Standing>
  {
    seq(|teams|, i requires 0 <= i < |teams| => TeamStanding(rows, teams[i]))
  }

  /** The `agg` CTE: GROUP BY team, one row per team that occurs in the rows. */
  function Aggregate(rows: seq<TeamRow>): seq<Standing>
  {
    AggregateOver(rows, Keys(rows, RowTeam))
  }

  /** ORDER BY points DESC, goal_diff DESC, goals_for DESC, team ASC: a may precede b. */
  predicate CanonLe(a: Standing, b: Standing)
  {
    a.points > b.points || (a.points == b.points &&
    (a.goalDiff > b.goalDiff || (a.goalDiff == b.goalDiff &&
    (a.goalsFor > b.goalsFor || (a.goalsFor == b.goalsFor && StrLe(a.team, b.team))))))
  }

  /** Positions 1..N in table order; every other column is kept. */
  function Renumber(s: seq<Standing>): (r: seq<Standing>)
    ensures |r| == |s|
    ensures forall i :: 0 <= i < |r| ==> r[i].position == i + 1
    ensures forall i :: 0 <= i < |r| ==> r[i] == s[i].(position := i + 1)
  {
    seq(|s|, i requires 0 <= i < |s| => s[i].(position := i + 1))
  }

  /** The ranked standings of a set of base rows. */
  function Table(rows: seq<TeamRow>): seq<Standing>
  {
    Renumber(SortBy(Aggregate(rows), CanonLe))
  }

  /** loadStandingsDf(seasonStart, seasonEnd) over the match table ms. */
  function LoadStandings(ms: seq<Match>, seasonStart: Calendar.Date, seasonEnd: Calendar.Date): seq<Standing>
  {
    Table(Base(Season(ms, seasonStart, seasonEnd)))
  }

  /** The canonical ranking is a total preorder. */
  lemma CanonLeTotalPreorder()
    ensures TotalPreorder(CanonLe)
  {
    forall a, b ensures CanonLe(a, b) || CanonLe(b, a) {
      StrLeTotal(a.team, b.team);
    }
    forall a, b, c | CanonLe(a, b) && CanonLe(b, c) ensures CanonLe(a, c) {
      if StrLe(a.team, b.team) && StrLe(b.team, c.team) {
        StrLeTransitive(a.team, b.team, c.team);
      }
    }
  }

  /** The canonical ranking ties two rows only when they are of the same team. */
  lemma CanonTie(a: Standing, b: Standing)
    requires CanonLe(a, b) && CanonLe(b, a)
    ensures a.team == b.team
  {
    StrLeAntisymmetric(a.team, b.team);
  }

  /** Each group row carries its team's aggregates and the derived columns. */
  lemma TeamStandingFacts(rows: seq<TeamRow>, team: string)
    requires Where(rows, RowTeam, team) != []
    ensures TeamStanding(rows, team).matches >= 1
    ensures TeamStanding(rows, team).matches == |Where(rows, RowTeam, team)|
    ensures TeamStanding(rows, team).goalDiff == TeamStanding(rows, team).goalsFor - TeamStanding(rows, team).goalsAgainst
    ensures TeamStanding(rows, team).pointsPerGame ==
      Some(TeamStanding(rows, team).points as real / TeamStanding(rows, team).matches as real)
  {
    SumAllMatches(Where(rows, RowTeam, team));
  }

  lemma {:induction false} TwoCopies<T>(s: seq<T>, i: int, j: int)
    requires 0 <= i < j < |s| && s[i] == s[j]
    ensures multiset(s)[s[i]] >= 2
  {
    assert s == s[..j] + s[j..];
    assert s[..j][i] == s[i];
    assert s[j..][0] == s[i];
  }

  /** A reordering of a sequence without repetitions has none either. */
  lemma DistinctPermutation<T>(a: seq<T>, b: seq<T>)
    requires multiset(a) == multiset(b) && Distinct(a)
    ensures Distinct(b)
  {
    forall i, j | 0 <= i < j < |b| ensures b[i] != b[j] {
      if b[i] == b[j] {
        TwoCopies(b, i, j);
        DistinctCount(a, b[i]);
        assert false;
      }
    }
  }

  /** The rows of the `agg` CTE: one per team, no two alike, none tied in the ranking. */
  lemma AggregateFacts(rows: seq<TeamRow>)
    ensures Distinct(Aggregate(rows))
    ensures NoTiesIn(Aggregate(rows), CanonLe)
    ensures forall x :: x in Aggregate(rows) ==> x == TeamStanding(rows, x.team) && x.team in Keys(rows, RowTeam)
  {
    var ts := Keys(rows, RowTeam);
    var agg := Aggregate(rows);
    forall x | x in agg ensures x == TeamStanding(rows, x.team) && x.team in ts {
      var i :| 0 <= i < |agg| && agg[i] == x;
      assert x == TeamStanding(rows, ts[i]);
    }
    forall i, j | 0 <= i < j < |agg| ensures agg[i] != agg[j] {
      assert agg[i].team == ts[i] && agg[j].team == ts[j];
    }
    forall a, b | a in agg && b in agg && CanonLe(a, b) && CanonLe(b, a) ensures a == b {
      CanonTie(a, b);
    }
  }

  /** The ranked rows before positions are inserted: ordered, one per team, nothing lost. */
  lemma RankedFacts(rows: seq<TeamRow>)
    ensures Sorted(SortBy(Aggregate(rows), CanonLe), CanonLe)
    ensures multiset(SortBy(Aggregate(rows), CanonLe)) == multiset(Aggregate(rows))
    ensures Distinct(SortBy(Aggregate(rows), CanonLe))
    ensures NoTiesIn(SortBy(Aggregate(rows), CanonLe), CanonLe)
  {
    var agg := Aggregate(rows);
    var s := SortBy(agg, CanonLe);
    CanonLeTotalPreorder();
    SortBySorted(agg, CanonLe);
    AggregateFacts(rows);
    DistinctPermutation(agg, s);
    forall x | x in s ensures x in agg {
      assert x in multiset(s);
    }
  }

  /** Every ranked row is a row of the `agg` CTE. */
  lemma RankedRows(rows: seq<TeamRow>)
    ensures |SortBy(Aggregate(rows), CanonLe)| == |Keys(rows, RowTeam)|
    ensures forall x :: x in SortBy(Aggregate(rows), CanonLe) ==>
      x == TeamStanding(rows, x.team) && Where(rows, RowTeam, x.team) != []
  {
    var agg := Aggregate(rows);
    var s := SortBy(agg, CanonLe);
    AggregateFacts(rows);
    assert |s| == |agg| by {
      assert |multiset(s)| == |multiset(agg)|;
    }
    forall x | x in s ensures x in agg {
      assert x in multiset(s);
    }
  }

  /**
   * The standings table has positions 1..N, one row per team that played, and each
   * row holds that team's COUNT and SUMs with goal_diff = goals_for - goals_against
   * and points_per_game = points / matches, never NULL.
   */
  lemma TableRows(rows: seq<TeamRow>)
    ensures |Table(rows)| == |Keys(rows, RowTeam)|
    ensures forall i :: 0 <= i < |Table(rows)| ==> Table(rows)[i].position == i + 1
    ensures forall i :: 0 <= i < |Table(rows)| ==>
      Table(rows)[i] == TeamStanding(rows, Table(rows)[i].team).(position := i + 1)
    ensures forall i :: 0 <= i < |Table(rows)| ==>
      && Table(rows)[i].matches >= 1
      && Table(rows)[i].matches == |Where(rows, RowTeam, Table(rows)[i].team)|
      && Table(rows)[i].goalDiff == Table(rows)[i].goalsFor - Table(rows)[i].goalsAgainst
      && Table(rows)[i].pointsPerGame == Some(Table(rows)[i].points as real / Table(rows)[i].matches as real)
  {
    var s := SortBy(Aggregate(rows), CanonLe);
    var table := Table(rows);
    RankedRows(rows);
    forall i | 0 <= i < |table|
      ensures table[i] == TeamStanding(rows, table[i].team).(position := i + 1)
      ensures table[i].matches >= 1 && table[i].matches == |Where(rows, RowTeam, table[i].team)|
      ensures table[i].goalDiff == table[i].goalsFor - table[i].goalsAgainst
      ensures table[i].pointsPerGame == Some(table[i].points as real / table[i].matches as real)
    {
      assert s[i] in s;
      TeamStandingFacts(rows, s[i].team);
    }
  }

  /**
   * The table is ranked strictly: every row comes before the next by points, then
   * goal difference, then goals for, then team name, and no two rows share a team.
   */
  lemma TableRanked(rows: seq<TeamRow>)
    ensures forall i, j :: 0 <= i < j < |Table(rows)| ==>
      CanonLe(Table(rows)[i], Table(rows)[j]) && !CanonLe(Table(rows)[j], Table(rows)[i])
    ensures forall i, j :: 0 <= i < j < |Table(rows)| ==> Table(rows)[i].team != Table(rows)[j].team
  {
    var s := SortBy(Aggregate(rows), CanonLe);
    var table := Table(rows);
    RankedFacts(rows);
    RankedRows(rows);
    forall i, j | 0 <= i < j < |table|
      ensures CanonLe(table[i], table[j]) && !CanonLe(table[j], table[i])
      ensures table[i].team != table[j].team
    {
      assert CanonLe(s[i], s[j]);
      assert s[i] in s && s[j] in s && s[i] != s[j];
    }
  }

  /** Every team that appears in the rows has a row in the table. */
  lemma TableCoversTeams(rows: seq<TeamRow>, r: TeamRow)
    requires r in rows
    ensures exists i :: 0 <= i < |Table(rows)| && Table(rows)[i].team == r.team
  {
    var agg := Aggregate(rows);
    var s := SortBy(agg, CanonLe);
    var ts := Keys(rows, RowTeam);
    var k :| 0 <= k < |ts| && ts[k] == r.team;
    assert agg[k] in multiset(s);
    var i :| 0 <= i < |s| && s[i] == agg[k];
    assert Table(rows)[i].team == r.team;
  }

  /** The columns of a standings row that add up across the table. */
  function StandingTally(r: Standing): Tally
  {
    Tally(r.matches, r.points, r.goalsFor, r.goalsAgainst)
  }

  lemma AggregateOverCons(rows: seq<TeamRow>, ts: seq<string>)
    requires |ts| > 0
    ensures AggregateOver(rows, ts) == [TeamStanding(rows, ts[0])] + AggregateOver(rows, ts[1..])
  {
    var a, b := AggregateOver(rows, ts), [TeamStanding(rows, ts[0])] + AggregateOver(rows, ts[1..]);
    assert |a| == |b|;
    forall i | 0 <= i < |a| ensures a[i] == b[i] {
      if i > 0 {
        assert b[i] == AggregateOver(rows, ts[1..])[i - 1];
      }
    }
  }

  lemma {:induction false} AggregateOverSum(rows: seq<TeamRow>, ts: seq<string>)
    ensures SumOf(AggregateOver(rows, ts), StandingTally) == SumOverKeys(rows, RowTeam, ts)
  {
    if |ts| > 0 {
      var x, rest := TeamStanding(rows, ts[0]), AggregateOver(rows, ts[1..]);
      AggregateOverSum(rows, ts[1..]);
      AggregateOverCons(rows, ts);
      SumOfCons(x, rest, StandingTally);
      assert StandingTally(x) == SumAll(Where(rows, RowTeam, ts[0]));
    }
  }

  /** Adding up the table's columns gives COUNT(*) and the SUMs over all rows. */
  lemma TableSum(rows: seq<TeamRow>)
    ensures SumOf(Table(rows), StandingTally) == SumAll(rows)
  {
    var agg := Aggregate(rows);
    var s := SortBy(agg, CanonLe);
    SumOfPointwise(Table(rows), StandingTally, s, StandingTally);
    SumOfPermutation(s, agg, StandingTally);
    AggregateOverSum(rows, Keys(rows, RowTeam));
    Partition(rows, RowTeam, Keys(rows, RowTeam));
  }

  /** Both rows of every match: twice as many rows as matches, every goal once for and once against. */
  lemma {:induction false} BaseTotals(ms: seq<Match>)
    ensures SumAll(Base(ms)).matches == 2 * |ms|
    ensures SumAll(Base(ms)).goalsFor == Goals(ms) == SumAll(Base(ms)).goalsAgainst
    ensures SumAll(Base(ms)).points + Draws(ms) == 3 * |ms|
  {
    if |ms| > 0 {
      var h, a, rest := HomeRow(ms[0]), AwayRow(ms[0]), Base(ms[1..]);
      BaseTotals(ms[1..]);
      ClassifyMatch(ms[0]);
      assert Base(ms) == [h] + ([a] + rest);
      SumAllCons(h, [a] + rest);
      SumAllCons(a, rest);
    }
  }

  /**
   * Across the whole table, matches played add up to twice the number of matches
   * in the season, goals for equal goals against, and each match hands out 3 points
   * (2 when drawn).
   */
  lemma StandingsTotals(ms: seq<Match>, seasonStart: Calendar.Date, seasonEnd: Calendar.Date)
    ensures SumOf(LoadStandings(ms, seasonStart, seasonEnd), StandingTally).matches
      == 2 * |Season(ms, seasonStart, seasonEnd)|
    ensures SumOf(LoadStandings(ms, seasonStart, seasonEnd), StandingTally).goalsFor
      == SumOf(LoadStandings(ms, seasonStart, seasonEnd), StandingTally).goalsAgainst
    ensures SumOf(LoadStandings(ms, seasonStart, seasonEnd), StandingTally).points
      + Draws(Season(ms, seasonStart, seasonEnd)) == 3 * |Season(ms, seasonStart, seasonEnd)|
  {
    var season := Season(ms, seasonStart, seasonEnd);
    TableSum(Base(season));
    BaseTotals(season);
  }

  lemma TeamTotalsPermutation(rows1: seq<TeamRow>, rows2: seq<TeamRow>, team: string)
    requires multiset(rows1) == multiset(rows2)
    ensures TeamStanding(rows1, team) == TeamStanding(rows2, team)
  {
    WherePermutation(rows1, rows2, RowTeam, team);
    SumAllPermutation(Where(rows1, RowTeam, team), Where(rows2, RowTeam, team));
  }

  lemma AggregateMember(rows1: seq<TeamRow>, rows2: seq<TeamRow>, x: Standing)
    requires multiset(rows1) == multiset(rows2)
    requires x in Aggregate(rows1)
    ensures x in Aggregate(rows2)
  {
    AggregateFacts(rows1);
    var t := x.team;
    assert x == TeamStanding(rows1, t) && t in Keys(rows1, RowTeam);
    var group := Where(rows1, RowTeam, t);
    assert group != [];
    var r := group[0];
    assert r in group;
    assert r in rows1 && r.team == t;
    assert r in multiset(rows2);
    var ts2 := Keys(rows2, RowTeam);
    assert RowTeam(r) in ts2;
    var k :| 0 <= k < |ts2| && ts2[k] == t;
    TeamTotalsPermutation(rows1, rows2, t);
    assert Aggregate(rows2)[k] == TeamStanding(rows2, t);
  }

  /**
   * GROUP BY and the total ORDER BY make the table independent of the order in
   * which the rows arrive: recomputing it from any reordering gives the same table.
   */
  lemma TableOrderIndependent(rows1: seq<TeamRow>, rows2: seq<TeamRow>)
    requires multiset(rows1) == multiset(rows2)
    ensures Table(rows1) == Table(rows2)
  {
    var agg1, agg2 := Aggregate(rows1), Aggregate(rows2);
    AggregateFacts(rows1);
    AggregateFacts(rows2);
    forall x ensures multiset(agg1)[x] == multiset(agg2)[x] {
      DistinctCount(agg1, x);
      DistinctCount(agg2, x);
      if x in agg1 { AggregateMember(rows1, rows2, x); }
      if x in agg2 { AggregateMember(rows2, rows1, x); }
    }
    assert multiset(agg1) == multiset(agg2);
    RankedFacts(rows1);
    RankedFacts(rows2);
    SortedUnique(SortBy(agg1, CanonLe), SortBy(agg2, CanonLe), CanonLe);
  }

  /** The ranking has no ties, so any correct sort of the `agg` rows yields this very table. */
  lemma TableUnique(rows: seq<TeamRow>, other: seq<Standing>)
    requires Sorted(other, CanonLe)
    requires multiset(other) == multiset(Aggregate(rows))
    ensures Renumber(other) == Table(rows)
  {
    RankedFacts(rows);
    SortedUnique(SortBy(Aggregate(rows), CanonLe), other, CanonLe);
  }
}
