# Football league dashboard: standings, PPG series and monthly goals

This project models the data logic of the football dashboard in `dashboard/app.py`.
That logic lives in three SQL queries over the match table `STG.MATCHES` and one pandas
re-sort. The model restates each of them in Dafny as functions over a sequence of
matches `(date, homeTeam, awayTeam, homeGoals, awayGoals)`, and proves what the
dashboard relies on.

- **Result classification** (`matches.dfy`). The `base` CTE turns each match of the
  season (`match_date BETWEEN start AND end`, both ends included) into a home row and an
  away row. A win scores 3 points, a draw 1 and a loss 0.
- **Standings** (`standings.dfy`, with the GROUP BY machinery in `tallies.dfy` and
  sorting in `ordering.dfy`). The `agg` CTE groups rows by team into matches, points,
  goals for, goals against, goal difference and points per game. The `NULLIF` guard
  becomes an `Option`. The table is ranked by points, goal difference and goals for (all
  descending), then team name ascending, and positions 1..N are inserted.
- **Re-sorting** (`resort.dfy`). `sortStandingsDf` recognises eight labels and fails
  with `KeyError` on any other. It sorts a copy by the chosen key and renumbers positions.
- **Row highlight** (`resort.dfy`). In `buildStandingsHtml`, position 1 is the
  champion, and any other position at or past the relegation threshold is relegated.
- **Cumulative PPG** (`ppg.dfy`). `loadPpgTimeSeriesDf` computes a running SUM and
  COUNT per team, ordered by date. The model evaluates it as one pass over the rows in
  `(date, team)` order. It proves that this pass equals the SQL window frame and the
  per-team prefix-average formula, and that it agrees with the standings.
- **Monthly goals** (`monthly.dfy`). `loadTeamMonthlyGoalsDf` keeps one team's rows,
  groups them by `DATE_TRUNC('month', …)` and lists the months in ascending order.

Points per game are exact rationals (`real`), not floats. Dates are
`(year, month, day)` in chronological order. Team names are compared code point by
code point.

## Model

| member | source | states |
|---|---|---|
| Matches.Points | dashboard/app.py:93-95 | The CASE expression: 3 exactly for more goals than the opponent, 1 exactly for as many, 0 exactly for fewer. |
| Matches.HomeRow | dashboard/app.py:88-95 | The home branch of the `base` CTE for one match. Its contract is stated by Matches.ClassifyMatch (points and goals mirrored with the away row) and Standings.BaseTotals (totals over all rows). |
| Matches.AwayRow | dashboard/app.py:101-108 | The away branch of the `base` CTE for one match. Its contract is stated by Matches.ClassifyMatch and Standings.BaseTotals. |
| Matches.ClassifyMatch | dashboard/app.py:87-111 | The home row scores 3 exactly when the home side scored more, and 1 exactly on a draw. The away row mirrors it. Goals for and against swap between the two rows. The two rows of one match total 2 points on a draw and 3 otherwise. |
| Matches.Season | dashboard/app.py:97 | A match is kept exactly when it is in the table and its date lies between the season bounds, both inclusive. Matches.SeasonCount gives the multiplicities. |
| Matches.SeasonCount | dashboard/app.py:97 | Each match of the season is kept exactly as many times as the table holds it, since there is no DISTINCT, and every other match is dropped. |
| Matches.Base | dashboard/app.py:87-111 | Every match yields exactly two rows, its home row and its away row, so there are twice as many rows as matches. |
| Matches.BaseIsUnionAll | dashboard/app.py:87-111 | The base rows are, as a multiset, the home-branch rows followed by the away-branch rows of the UNION ALL. |
| Tallies.Where | dashboard/app.py:251 | The filter keeps exactly the rows whose key matches, and never adds rows. |
| Tallies.Keys | dashboard/app.py:122 | GROUP BY yields every key that occurs, once each, and each listed key has at least one row. |
| Tallies.Partition | dashboard/app.py:112-122 | Adding up the per-group aggregates over all groups gives the aggregate of all rows: GROUP BY loses and duplicates nothing. |
| Tallies.SumAllPermutation | dashboard/app.py:115-118 | COUNT and SUM do not depend on the order of the rows. |
| Standings.TeamStandingFacts | dashboard/app.py:115-120 | A team's row has at least one match, as many matches as it has rows, goal_diff = goals_for − goals_against, and points_per_game = points / matches, never NULL. |
| Standings.PerGame | dashboard/app.py:120 | `NULLIF` gives NULL exactly for zero matches. Otherwise the value times the matches gives back the points, and it is never negative. |
| Standings.Aggregate | dashboard/app.py:112-123 | The `agg` CTE. Its contract is stated by Standings.AggregateFacts (one row per team, no ties in the ranking) and Standings.TeamStandingFacts (each row's columns). |
| Standings.CanonLe | dashboard/app.py:126 | The ORDER BY. Standings.CanonLeTotalPreorder shows it is total and transitive, and Standings.CanonTie that it ties only rows of one team. |
| Standings.Renumber | dashboard/app.py:132 | Inserts positions 1..N. Its contract is stated by Standings.TableRows, Resort.SortStandings, Resort.ResortPermutation and Resort.OfficialPositionRestoresTable. |
| Standings.Table | dashboard/app.py:112-132 | The ranked, numbered `agg` rows. Its contract is stated by Standings.TableRows, TableRanked, TableCoversTeams, TableSum and TableUnique. |
| Standings.LoadStandings | dashboard/app.py:70-133 | `loadStandingsDf`: the table of the season's base rows. Its contract is stated by Standings.StandingsTotals and, through Standings.Table, by the table lemmas. |
| Standings.TableRows | dashboard/app.py:112-132 | The table has one row per distinct team. Row i has position i + 1 and carries its team's aggregates, matches ≥ 1, the goal difference and points / matches. |
| Standings.TableRanked | dashboard/app.py:126 | Rows are in strict ORDER BY order: points desc, goal_diff desc, goals_for desc, team asc. No two rows share a team. |
| Standings.TableCoversTeams | dashboard/app.py:121-122 | Every team that has a base row has a row in the table. |
| Standings.CanonTie | dashboard/app.py:126 | The ranking ties two rows only when they belong to the same team, so ORDER BY fixes the order of the table. |
| Standings.CanonLeTotalPreorder | dashboard/app.py:126 | The ORDER BY of the standings is total and transitive. |
| Standings.AggregateFacts | dashboard/app.py:112-123 | The `agg` rows are pairwise distinct, never tie in the ranking, and each is its team's group totals for a team that occurs. |
| Standings.TableSum | dashboard/app.py:112-122 | The table's columns, summed over all teams, equal the totals of all base rows. |
| Standings.BaseTotals | dashboard/app.py:87-111 | Over the base rows: matches = 2 × number of matches, goals for = goals against = goals scored in all matches, and points + draws = 3 × number of matches. |
| Standings.StandingsTotals | dashboard/app.py:87-122 | Summed over the standings: matches = 2 × matches in the season, total goals_for = total goals_against, and points + draws = 3 × matches. |
| Standings.TableOrderIndependent | dashboard/app.py:112-132 | The table depends only on the multiset of base rows, not on the order the database returns them. |
| Standings.TableUnique | dashboard/app.py:124-132 | Any ordering of the `agg` rows that obeys the ORDER BY gives the same numbered table. |
| Ordering.SortBySorted | dashboard/app.py:126 | The sort returns a permutation of its input that is in the requested order. |
| Ordering.SortedUnique | dashboard/app.py:126 | Two sorted permutations of a sequence whose ties are all between equal elements are identical. |
| Ordering.SortByStable | dashboard/app.py:197 | The sort is stable: the elements that tie with any given element keep the order they had in the input. |
| Resort.ParseSortKeyLabels | dashboard/app.py:292-305 | Exactly the eight labels are recognised, and each names its own sort key. |
| Resort.ParseSortKey | dashboard/app.py:292-305 | The two string tests and the colMap lookup. A recognised label is exactly the label of the key it yields. Resort.ParseSortKeyLabels gives the converse. |
| Resort.OrderOfTotalPreorder | dashboard/app.py:292-306 | Every branch's order (position asc, team in either direction, column then team) is total and transitive. |
| Resort.OrderOf | dashboard/app.py:292-306 | The order each branch passes to sort_values. Resort.OrderOfTotalPreorder shows each is total and transitive. Resort.DirectionFlipsOnlyPrimary shows how `descending` acts. |
| Resort.ColumnLe | dashboard/app.py:306 | `sort_values([col, "team"], ascending=[not descending, True])`. Its contract is stated by Resort.DirectionFlipsOnlyPrimary and Resort.ResortTieBreak. |
| Resort.Arrange | dashboard/app.py:292-306 | The sorted rows are a permutation of the input in the order of the chosen branch. |
| Resort.SortStandings | dashboard/app.py:282-310 | The result fails, with the label, exactly when the label is unknown. Otherwise it has as many rows as the input, positions 1..N, and is the arranged rows renumbered. |
| Resort.DirectionFlipsOnlyPrimary | dashboard/app.py:306 | `descending` reverses the order of rows whose non-NULL column values differ. Rows with equal values are ordered by team name ascending in both directions. |
| Resort.NullSortsLast | dashboard/app.py:306 | A NULL points per game sorts after every number, whichever direction is chosen, as pandas places missing values last. |
| Resort.ResortTieBreak | dashboard/app.py:306 | In a table re-sorted by a numeric column, rows that tie on the column appear in ascending team-name order. |
| Resort.ResortPermutation | dashboard/app.py:290-309 | The result holds the input rows with every column except position unchanged. For every key except the official position, it is in the chosen order. |
| Resort.ArrangeUnique | dashboard/app.py:292-306 | With distinct teams (and, for the official position, distinct positions), any sort that follows the chosen order returns the same rows. |
| Resort.OfficialPositionRestoresTable | dashboard/app.py:292-293 | Sorting a standings table by official position gives it back unchanged, whatever `descending` says. |
| Resort.RowClassOf | dashboard/app.py:385-389 | The class is `champion` exactly for position 1. It is `relegation` exactly for any other position at or past the threshold. |
| Resort.TableRowClasses | dashboard/app.py:385-389 | In a table with positions 1..N, a row is the champion exactly when it is the first. It is relegated exactly when it is not the first and its position is at or past the threshold. |
| PpgSeries.RowBeforeTotalPreorder | dashboard/app.py:197 | ORDER BY match_date, team is a total preorder. |
| PpgSeries.RowBeforeTied | dashboard/app.py:197 | Two rows tie in the (match_date, team) order exactly when they share date and team. |
| PpgSeries.Ordered | dashboard/app.py:175-197 | The base rows of the season, as a permutation, sorted by match_date, then team. |
| PpgSeries.SameDayOrder | dashboard/app.py:181-183 | The rows of one team on one date, which the window's ORDER BY leaves unordered, keep the order of the base rows. |
| PpgSeries.Cumulate | dashboard/app.py:175-195 | One point per row. Its contract is stated by PpgSeries.CumulateRows, CumulateWindow, CumulateTeam and RunningAt. |
| PpgSeries.PpgTimeSeries | dashboard/app.py:137-204 | `loadPpgTimeSeriesDf`: one point per base row of the season, 2 × matches in the season. The rest of its contract is stated by PpgSeries.SeriesIsWindow, SeriesShape, TeamSeriesFormula and LastPointIsStandingsPpg. |
| PpgSeries.CumulateRows | dashboard/app.py:175-195 | The pass yields one point per row, carrying that row's date and team. |
| PpgSeries.CumulateWindow | dashboard/app.py:180-189 | If the running totals so far agree with the rows already seen, every point of the pass is its team's points over matches in its window frame: the team's rows from the first up to the current one. |
| PpgSeries.SeriesIsWindow | dashboard/app.py:175-197 | Every point of the series has the SUM/COUNT OVER (PARTITION BY team … ROWS UNBOUNDED PRECEDING TO CURRENT ROW) value of its row. |
| PpgSeries.CumulateTeam | dashboard/app.py:180-189 | One team's points from the pass equal the running series of that team's rows alone: the partition by team. |
| PpgSeries.RunningAt | dashboard/app.py:180-195 | The k-th point of a running series uses the starting totals plus the team's first k + 1 rows. |
| PpgSeries.SeriesShape | dashboard/app.py:153-197 | The series has 2 × (matches in the season) points, its rows are a permutation of the base rows, and it is ordered by date, then team. |
| PpgSeries.TeamRowsByDate | dashboard/app.py:181-183 | Each team's rows in the series are exactly its base rows, in date order. |
| PpgSeries.TeamSeriesFormula | dashboard/app.py:175-197 | A team has one point per match it played. Its k-th point is the points of its first k + 1 matches divided by k + 1, so NULLIF never applies. |
| PpgSeries.LastPointIsStandingsPpg | dashboard/app.py:175-197 | For every team in the standings, its series has as many points as the team has matches. Its last point equals the team's points_per_game in the standings. |
| MonthlyGoals.MonthsOfFacts | dashboard/app.py:247-253 | The months listed are strictly ascending month starts, exactly the months in which the rows fall, each with at least one row. |
| MonthlyGoals.Monthly | dashboard/app.py:246-253 | One row per month with its SUMs. Its contract is stated by MonthlyGoals.MonthlyShape and MonthsAddUp. |
| MonthlyGoals.TeamMonthlyGoals | dashboard/app.py:208-253 | `loadTeamMonthlyGoalsDf`: the monthly rows of the team's base rows. Its contract is stated by MonthlyGoals.UnknownTeamIsEmpty and MonthlyMatchesStandings. |
| MonthlyGoals.MonthlyShape | dashboard/app.py:246-253 | The result's months are strictly ascending first days of months. Each has at least one match, and every match's month is listed. |
| MonthlyGoals.UnknownTeamIsEmpty | dashboard/app.py:251 | The result is empty exactly when the team has no row in the season. |
| MonthlyGoals.MonthsAddUp | dashboard/app.py:246-252 | The monthly goals scored and conceded add up to the team's total goals for and against. |
| MonthlyGoals.MonthlyMatchesStandings | dashboard/app.py:246-253 | For every team in the standings, its monthly goals scored and conceded add up to its goals_for and goals_against in the standings of the same season. |
| Calendar.MonthStartMonotone | dashboard/app.py:247 | Truncation to the month keeps the order of dates, never moves a date with a valid day forward, and is idempotent. |

## Left out

- Snowflake connections, environment lookup and `pd.read_sql` are remote I/O. The
  match table is a parameter `ms: seq<Match>`.
- `st.cache_data(ttl=300)` is time-based caching in a library; it does not change results.
- Ingestion (`ingestion/`) and the CSV export are download, parsing and INSERT
  plumbing with no logic of their own. They are not part of this model.
- The Streamlit UI, charts, `main`, and the HTML/CSS string building and `:.2f` float
  formatting of `buildStandingsHtml` are presentation. Only the row-class rule is modelled.
- `pivotTimeSeries`, `normalizeColumns`, and `pd.to_datetime(errors="coerce")` with
  `dropna` are thin pandas wrappers. The model's dates are already well-formed values.
- NULL goal counts are not modelled: goals are `nat`. A missing score is not an error in
  the code: a NULL score falls into `ELSE 0` and is skipped by SUM. With `nat` goals this
  case does not arise.
- Date validity (month in 1..12, day within the month) is not constrained. Ordering and
  month truncation do not depend on it.
- Number formats: `(SUM(points) * 1.0) / NULLIF(COUNT(*), 0)` is computed by Snowflake as a
  fixed-scale decimal, with a limited number of decimal places, and pandas then reads it as
  a float. The model uses the exact `real` quotient. At a team's last point the PPG series
  divides the same points by the same matches with the same expression as the standings,
  so PpgSeries.LastPointIsStandingsPpg is unaffected.
- Snowflake's string collation is taken as code-point order, the same as Python's, for
  `team ASC` in SQL and in pandas.
- PpgSeries.Cumulate: the SQL window orders each team only by `match_date`, and the
  outer ORDER BY is `match_date, team`. So the order between two rows of the same team on
  the same date is left to the database. The model fixes it to the order of the base
  rows: each match's home row, then its away row, in match-table order.
  PpgSeries.SameDayOrder proves this through the stability of the sort
  (Ordering.SortByStable). PpgSeries.TeamSeriesFormula and
  PpgSeries.LastPointIsStandingsPpg hold under this fixed order. When a team has two rows
  on one date, for example from a duplicated match row, the database may order them
  otherwise, and its last emitted point need not be the full-season points per game.
- Resort.Arrange: pandas' single-column sort is not stable, and the model sorts stably.
  Resort.ArrangeUnique shows that this makes no difference when teams (and, for the
  official position, positions) are distinct, as they are in every standings table.
  With duplicated rows, the model's order among the duplicates is one of the orders
  pandas may produce.
- The input of `sortStandingsDf` is copied before it is sorted, so it is never changed.
  The model is pure, so this holds by construction and is not stated separately.
