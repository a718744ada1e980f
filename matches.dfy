/**
 * The match table and the `base` CTE shared by the three queries of the dashboard:
 * every match becomes one row from the home team's point of view and one from the
 * away team's, scored 3 for a win, 1 for a draw and 0 for a defeat.
 */
module Matches {
  import opened Calendar

  /** One row of the match table. Goal counts are never NULL in this model. */
  datatype Match = Match(date: Date, homeTeam: string, awayTeam: string, homeGoals: nat, awayGoals: nat)

  /** One row of the `base` CTE: a match seen from one team. */
  datatype TeamRow = TeamRow(date: Date, team: string, goalsFor: nat, goalsAgainst: nat, points: nat)

  /** The CASE expression: 3 for more goals than the opponent, 1 for as many, else 0. */
  function Points(goalsFor: nat, goalsAgainst: nat): (p: nat)
    ensures p == 3 <==> goalsFor > goalsAgainst
    ensures p == 1 <==> goalsFor == goalsAgainst
    ensures p == 0 <==> goalsFor < goalsAgainst
  {
    if goalsFor > goalsAgainst then 3
    else if goalsFor == goalsAgainst then 1
    else 0
  }

  /** The first SELECT: the match seen by the home side. */
  function HomeRow(m: Match): (r: TeamRow)
    ensures r.date == m.date && r.team == m.homeTeam
    ensures r.goalsFor == m.homeGoals && r.goalsAgainst == m.awayGoals
    ensures r.points == Points(m.homeGoals, m.awayGoals)
  {
    TeamRow(m.date, m.homeTeam, m.homeGoals, m.awayGoals, Points(m.homeGoals, m.awayGoals))
  }

  /** The second SELECT: the same match seen by the away side, goals swapped. */
  function AwayRow(m: Match): (r: TeamRow)
    ensures r.date == m.date && r.team == m.awayTeam
    ensures r.goalsFor == HomeRow(m).goalsAgainst && r.goalsAgainst == HomeRow(m).goalsFor
    ensures r.points == Points(m.awayGoals, m.homeGoals)
  {
    TeamRow(m.date, m.awayTeam, m.awayGoals, m.homeGoals, Points(m.awayGoals, m.homeGoals))
  }

  predicate IsDraw(m: Match)
  {
    m.homeGoals == m.awayGoals
  }

  /**
   * The two rows of one match mirror each other: the goals of one are the goals
   * against the other, a win for one is a defeat for the other, and together they
   * hold 2 points for a draw and 3 otherwise.
   */
  lemma ClassifyMatch(m: Match)
    ensures HomeRow(m).goalsFor == AwayRow(m).goalsAgainst && HomeRow(m).goalsAgainst == AwayRow(m).goalsFor
    ensures HomeRow(m).points == 3 <==> m.homeGoals > m.awayGoals
    ensures HomeRow(m).points == 1 <==> IsDraw(m)
    ensures AwayRow(m).points == 3 <==> m.awayGoals > m.homeGoals
    ensures HomeRow(m).points == 3 <==> AwayRow(m).points == 0
    ensures HomeRow(m).points == 1 <==> AwayRow(m).points == 1
    ensures HomeRow(m).points + AwayRow(m).points == if IsDraw(m) then 2 else 3
  {
  }

  /** match_date BETWEEN seasonStart AND seasonEnd (both bounds inclusive). */
  predicate InSeason(m: Match, seasonStart: Date, seasonEnd: Date)
  {
    DateLe(seasonStart, m.date) && DateLe(m.date, seasonEnd)
  }

  /** The WHERE clause of each branch of the UNION ALL, keeping the order of the table. */
  function Season(ms: seq<Match>, seasonStart: Date, seasonEnd: Date): (r: seq<Match>)
    ensures forall m :: m in r <==> m in ms && InSeason(m, seasonStart, seasonEnd)
    ensures |r| <= |ms|
  {
    if ms == [] then []
    else
      assert ms == [ms[0]] + ms[1..];
      (if InSeason(ms[0], seasonStart, seasonEnd) then [ms[0]] else []) + Season(ms[1..], seasonStart, seasonEnd)
  }

  /**
   * The filter keeps every match of the season as often as the table holds it (the
   * UNION ALL has no DISTINCT) and drops every other match.
   */
  lemma {:induction false} SeasonCount(ms: seq<Match>, seasonStart: Date, seasonEnd: Date, m: Match)
    ensures multiset(Season(ms, seasonStart, seasonEnd))[m]
         == if InSeason(m, seasonStart, seasonEnd) then multiset(ms)[m] else 0
  {
    if ms != [] {
      SeasonCount(ms[1..], seasonStart, seasonEnd, m);
      assert ms == [ms[0]] + ms[1..];
    }
  }

  /**
   * The `base` CTE: both rows of each match, the home row first, in the order of
   * the match table (the order SQL leaves open is fixed to match order).
   */
  function Base(ms: seq<Match>): (rows: seq<TeamRow>)
    ensures |rows| == 2 * |ms|
    ensures forall i :: 0 <= i < |ms| ==> rows[2 * i] == HomeRow(ms[i]) && rows[2 * i + 1] == AwayRow(ms[i])
  {
    if ms == [] then [] else [HomeRow(ms[0]), AwayRow(ms[0])] + Base(ms[1..])
  }

  /** The first SELECT of the UNION ALL. */
  function HomeRows(ms: seq<Match>): seq<TeamRow>
  {
    if ms == [] then [] else [HomeRow(ms[0])] + HomeRows(ms[1..])
  }

  /** The second SELECT of the UNION ALL. */
  function AwayRows(ms: seq<Match>): seq<TeamRow>
  {
    if ms == [] then [] else [AwayRow(ms[0])] + AwayRows(ms[1..])
  }

  lemma BaseCons(ms: seq<Match>)
    requires |ms| > 0
    ensures Base(ms) == [HomeRow(ms[0]), AwayRow(ms[0])] + Base(ms[1..])
  {
  }

  /** As a bag of rows, the base CTE is exactly the UNION ALL of the home and away selects. */
  lemma {:induction false} BaseIsUnionAll(ms: seq<Match>)
    ensures multiset(Base(ms)) == multiset(HomeRows(ms) + AwayRows(ms))
  {
    if ms != [] {
      var h, a, rest := HomeRow(ms[0]), AwayRow(ms[0]), ms[1..];
      BaseIsUnionAll(rest);
      var base, home, away := Base(rest), HomeRows(rest), AwayRows(rest);
      BaseCons(ms);
      assert HomeRows(ms) + AwayRows(ms) == [h] + home + ([a] + away);
      calc {
        multiset(Base(ms));
        multiset([h, a]) + multiset(base);
        multiset([h]) + multiset(home) + (multiset([a]) + multiset(away));
        multiset([h] + home + ([a] + away));
      }
    }
  }

  /** The number of drawn matches. */
  function Draws(ms: seq<Match>): nat
  {
    if |ms| == 0 then 0 else (if IsDraw(ms[0]) then 1 else 0) + Draws(ms[1..])
  }

  /** All goals scored in the matches, by either side. */
  function Goals(ms: seq<Match>): nat
  {
    if |ms| == 0 then 0 else ms[0].homeGoals + ms[0].awayGoals + Goals(ms[1..])
  }
}
