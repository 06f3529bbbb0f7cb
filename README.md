# Golf leaderboard score engine, in Dafny

This project models the score engine of a live golf tournament app. Players
submit per-hole score records: a player id, a hole number, strokes and par.
The engine does four things:

- It folds the records into a summary per player: the holes played, stroke
  and par totals, the score relative to par, and optional front-nine and
  back-nine subtotals.
- It ranks the summaries into a leaderboard. The sort is stable, ascending
  by score, and ranks follow standard competition ranking ("1, 2, 2, 4").
- It renders scores as text ("E", "+3", "-2") and ranks as labels ("1st").
- Display helpers render, filter and group the leaderboard rows, and choose
  the podium colours.

Modules:

- `Types`: the records: score record, hole result, player summary, roster
  player and leaderboard row. Optional fields are `Option` values, and an
  absent subtotal is distinct from 0.
- `NumberText`: the decimal text of an integral number, as a template
  literal renders it, and a parser that inverts it.
- `ScoreSort`: the library's stable array sort under the comparator
  `a.score - b.score`. It is specified by a functional insertion sort,
  `SortByScore`. `StableSortIsSortByScore` shows that any sequence sorted by
  score that keeps each score's summaries in input order equals
  `SortByScore`. The result therefore does not depend on the sort algorithm.
- `CalculateScore`: aggregation, score classification, score rendering, the
  leaderboard, and rank labels.
- `FormatLeaderboard`: display rows, filters, grouping by rank, and podium
  colours.
- `Scenarios`: concrete rounds. They pin down kept duplicates, the
  position-based `lastHole`, the row of a player without scores, and
  "1, 2, 2, 4" ranking.

`CalculateLeaderboard` and `GroupLeaderboardByRank` are methods with loops,
as the source's `forEach` loops are. `CalculateLeaderboard` keeps a mutable
current rank and reads back the previous row's rank. `GroupLeaderboardByRank`
gets and sets entries of an insertion-ordered map. The other operations are
functions.

## Model

| member | source | states |
|---|---|---|
| CalculateScore.CalculatePlayerScore | utils/calculateScore.ts:6-48 | The summary carries the given id and name. `holes` is the player's records, in input order. Totals are the sums over `holes`, and the score is strokes minus par, which is also the sum of the per-hole values. Each half subtotal is present exactly when a hole of that half was played (hole number at most 9, or above 9), and then equals that half's relative sum. Two present halves add up to the score. A lone half equals the score. Both are absent exactly when no hole was played. |
| CalculateScore.PlayerHolesMembers | utils/calculateScore.ts:11-18 | A hole result is in `holes` exactly when some record of the player converts to it. |
| CalculateScore.PlayerHolesConsistent | utils/calculateScore.ts:13-18 | Every hole result's relative-to-par value is its strokes minus its par. |
| CalculateScore.PlayerHolesAppend | utils/calculateScore.ts:11-18 | The holes of two concatenated record lists are the concatenation of their holes, so the filter keeps input order. |
| CalculateScore.DuplicatesKept | utils/calculateScore.ts:11-18 | One more record for the player, even for a hole already played, adds exactly one hole result at the end. Nothing is de-duplicated. |
| CalculateScore.NoRecordsNoHoles | utils/calculateScore.ts:11-18 | A player with no matching record gets no holes. |
| CalculateScore.ZeroScorePlayer | utils/calculateScore.ts:20-36 | A player with no records gets totals and score 0, no holes and no half subtotals. |
| CalculateScore.RelativeSum | utils/calculateScore.ts:20-22 | Over consistent hole results, total strokes minus total par is the sum of the relative-to-par values. |
| CalculateScore.SplitSums | utils/calculateScore.ts:25-36 | The front-nine and back-nine strokes and pars add up to the totals, since every hole is in exactly one half. |
| CalculateScore.SplitCovers | utils/calculateScore.ts:25-26 | The two halves together hold as many holes as the whole list. |
| CalculateScore.HalvesNonEmpty | utils/calculateScore.ts:25-36 | A half is non-empty exactly when some hole falls in it. |
| CalculateScore.ConsistentSubsequences | utils/calculateScore.ts:25-26 | Each half keeps the relation "relative to par = strokes minus par". |
| CalculateScore.CalculateAllPlayerScores | utils/calculateScore.ts:53-60 | One summary per roster entry, in roster order. The i-th carries the i-th player's uid and name and is that player's summary. |
| CalculateScore.GetScoreDescription | utils/calculateScore.ts:65-71 | Each of the five names is returned exactly on its band: at most -2, -1, 0, 1, and at least 2. The bands cover every integer. |
| CalculateScore.ScoreClassMatchesDescription | utils/calculateScore.ts:76-79 | Two values get the same class string exactly when they get the same description. |
| CalculateScore.FormatScore | utils/calculateScore.ts:84-88 | "E" exactly for 0, "+" and the digits for a positive score, "-" and the digits of the magnitude for a negative one. |
| CalculateScore.FormatScoreRoundTrip | utils/calculateScore.ts:84-88 | The rendered score parses back to the score. |
| CalculateScore.FormatScoreInjective | utils/calculateScore.ts:84-88 | Distinct scores render as distinct text, and never as a bare "-". |
| CalculateScore.CalculateLeaderboard | utils/calculateScore.ts:93-125 | One row per summary. Row i is the i-th summary of the stable sort by score, with its `thru` (the number of holes) and its `lastHole` (the final hole result, absent when there is none). Scores never decrease down the board. Ranks follow the recurrence: rank 1 first, the previous rank on a tie, otherwise the position plus 1. Every rank is between 1 and its position plus 1, ranks never decrease, and each rank is 1 plus the number of players scoring strictly better. |
| CalculateScore.LeaderboardStep | utils/calculateScore.ts:101-121 | One loop iteration keeps the rows correct: entries of the sorted summaries, ranked by the recurrence and by the count of better scores. |
| CalculateScore.CompetitionRanksBounded | utils/calculateScore.ts:99-108 | Under the rank recurrence, every rank is between 1 and its position plus 1, and ranks never decrease. |
| CalculateScore.CountBelowAtStep | utils/calculateScore.ts:103-108 | In a sorted list, a row that starts a new score has exactly its index many better scores ahead of it. This is why `index + 1` is its competition rank. |
| CalculateScore.RanksAgainstInput | utils/calculateScore.ts:95-108 | Counting better scores in the sorted list gives the same rank as counting them in the unsorted input. |
| CalculateScore.RowsOfSorted | utils/calculateScore.ts:110-121 | Rows built in order from a sorted list are sorted by score and carry each summary's `thru` and `lastHole`. |
| ScoreSort.SortByScore | utils/calculateScore.ts:95 | The sorted copy has the input's length and is non-decreasing by score. |
| ScoreSort.SortByScorePermutes | utils/calculateScore.ts:95 | The sorted copy is a permutation of the input. |
| ScoreSort.SortByScoreIsStable | utils/calculateScore.ts:95 | For every score, the summaries with that score keep their input order. |
| ScoreSort.SortByScoreCountBelow | utils/calculateScore.ts:95 | Sorting does not change how many summaries score below a value. |
| ScoreSort.StableSortIsUnique | utils/calculateScore.ts:95 | Two score-sorted sequences that agree, score by score, on the order of their elements are equal. |
| ScoreSort.StableSortIsSortByScore | utils/calculateScore.ts:95 | Any stable sort by score of the input equals `SortByScore`. |
| ScoreSort.InsertSorted | utils/calculateScore.ts:95 | Inserting into a sorted list keeps it sorted and adds one element. |
| ScoreSort.InsertWithScore | utils/calculateScore.ts:95 | An inserted summary goes before every summary of the list with the same score, which is why the earliest input element stays first among equal scores. |
| ScoreSort.WithScoreMembers | utils/calculateScore.ts:95 | The summaries with score k are exactly the input's members with score k. |
| NumberText.IntToStringRoundTrip | utils/calculateScore.ts:86-87 | The decimal text of an integer parses back to it. |
| NumberText.ParseNatToString | utils/calculateScore.ts:86-87 | The digits of a natural number parse back to it. |
| NumberText.IntToStringInjective | utils/formatLeaderboard.ts:19-22 | Distinct integers have distinct decimal text. |
| CalculateScore.GetRankSuffix | utils/calculateScore.ts:130-135 | Rank 1 gets "1st", rank 2 "2nd" and rank 3 "3rd". Every other rank gets its decimal text followed by "th". The label always starts with the rank's text. |
| CalculateScore.RankSuffixOfTwentyFirst | utils/calculateScore.ts:130-135 | Rank 21 is labelled "21th", while its ordinal is "21st". |
| CalculateScore.OrdinalSuffix | utils/calculateScore.ts:127-135 | The English suffix by last digit: "st", "nd", "rd" for 1, 2, 3, and "th" otherwise and for 11 to 13. Each holds in both directions. |
| CalculateScore.RankOrdinal | utils/calculateScore.ts:127-135 | The corrected label: the rank's text followed by its English ordinal suffix. |
| CalculateScore.RankSuffixCorrectUpToTwenty | utils/calculateScore.ts:130-135 | For ranks 1 to 20 the label as written equals the correct ordinal. |
| FormatLeaderboard.FormatLeaderboardDisplay | utils/formatLeaderboard.ts:18-26 | One display row per entry, in the same order. Row i is entry i rendered. |
| FormatLeaderboard.DisplayReadsBack | utils/formatLeaderboard.ts:18-26 | A display row loses nothing. Rank, thru and score parse back to the entry's values, and the player name is kept. A half shows "-" exactly when it is absent, and a present half parses back to its value. |
| FormatLeaderboard.FilterLeaderboard | utils/formatLeaderboard.ts:32-46 | "all" returns the input itself. Every filter keeps exactly the entries it accepts: a present front-nine subtotal, a present back-nine subtotal, or `thru` equal to the fixed 18. Each accepted entry appears as often as in the input, duplicates included. The result is an order-preserving subsequence of the input. |
| FormatLeaderboard.KeepWhereMembers | utils/formatLeaderboard.ts:36-45 | An entry survives a filter exactly when it is in the input and the filter accepts it, and then as many times as it occurs in the input. |
| FormatLeaderboard.KeepWhereSubsequence | utils/formatLeaderboard.ts:36-45 | Filtering leaves out entries and keeps the rest in order. |
| FormatLeaderboard.FilterIdempotent | utils/formatLeaderboard.ts:36-45 | Applying a filter twice gives the same rows as applying it once. |
| FormatLeaderboard.KeepWhereIdempotent | utils/formatLeaderboard.ts:38-42 | Filtering an already filtered list changes nothing. |
| FormatLeaderboard.GroupLeaderboardByRank | utils/formatLeaderboard.ts:51-62 | The map's keys are the ranks that occur, each once, in order of first occurrence. Each group is the rows of its rank, in input order. The group sizes sum to the number of rows. Every group member is an input row with that rank, and every row is in its own rank's group. |
| FormatLeaderboard.GroupStep | utils/formatLeaderboard.ts:56-59 | Adding one row to its rank's group, or to a new group when the rank is absent, turns the grouping of a prefix into the grouping of the longer prefix. |
| FormatLeaderboard.DistinctRanksMembers | utils/formatLeaderboard.ts:56-59 | A rank is a key exactly when some row has it. |
| FormatLeaderboard.WithRankMembers | utils/formatLeaderboard.ts:56-59 | A row is in the group for rank r exactly when it is an input row of rank r. |
| FormatLeaderboard.GroupSizesUpdate | utils/formatLeaderboard.ts:58 | Replacing one group's rows changes the total size by the difference in that group's length. |
| FormatLeaderboard.GetRankColorClass | utils/formatLeaderboard.ts:67-78 | The default class is returned exactly for ranks other than 1, 2 and 3. |
| FormatLeaderboard.PodiumClassesDistinct | utils/formatLeaderboard.ts:69-74 | Ranks 1, 2 and 3 get three distinct classes. |
| Scenarios.BasicAggregation | utils/calculateScore.ts:6-48 | A bogey and a par on holes 1 and 2 give 8 strokes, par 7, +1, a front-nine subtotal of +1 and no back-nine subtotal. |
| Scenarios.FrontBackSplit | utils/calculateScore.ts:25-36 | Par on hole 1 and a bogey on hole 10 give a front nine of 0 and a back nine of +1. |
| Scenarios.LastHoleIsPositional | utils/calculateScore.ts:117-120 | For records for hole 3 and then hole 1, `lastHole` is hole 1: the last record, not the highest hole number. |
| Scenarios.DuplicateHoleCountedTwice | utils/calculateScore.ts:11-22 | Two records for hole 1 count as two holes and both enter the totals. |
| Scenarios.ZeroScoreRow | utils/calculateScore.ts:20-36 | A player without records, alone on the board, gets rank 1, score 0, thru 0, no half subtotals and no last hole. |
| Scenarios.FieldSorted | utils/calculateScore.ts:95 | Scores 0, -2, +1, 0 sort to -2, 0, 0, +1, with the two level players in input order. |
| Scenarios.TieRanking | utils/calculateScore.ts:99-108 | Scores 0, -2, +1, 0 are ranked 1, 2, 2, 4. |

## Left out

- Firebase reads, writes and listeners, authentication, the React
  components and pages, the course tables and the styling configuration are
  not part of this model. The engine takes its inputs as parameters.
- The inline filter in components/Leaderboard.tsx is presentation code and
  is not part of this model. It uses different thresholds from
  `filterLeaderboard`.
- Numbers are unbounded integers. The source's numbers are floating point.
  Scores, strokes and pars are small integers there, so rounding and
  non-integral values are not modelled.
- CalculateLeaderboard: the copy-then-sort of an array in place is modelled
  on values. The sorted copy is the sequence `SortByScore(playerScores)`, and
  the rows are a sequence the loop extends. Aliasing of the copied array is
  not captured.
- ScoreSort.SortByScore: the library's sort algorithm is not modelled.
  `SortByScore` specifies its result, and `StableSortIsSortByScore` shows
  that any stable sort yields that result.
- GroupLeaderboardByRank: the JavaScript `Map` is modelled as a value that
  pairs the key insertion order with a finite map. The method reassigns it,
  which does not capture aliasing of the map object.
- CalculateScore.GetScoreClass: it is only string concatenation. It has no
  row of its own; `ScoreClassMatchesDescription` states what it preserves.
- Four conventions of the code are easy to misread, and the model follows
  the code:
  - `holes` keeps the records' input order. It is not sorted by hole
    number.
  - "completed" means `thru` is the fixed 18. It is not the tournament's
    configured hole count.
  - The front nine is every hole number up to 9 and the back nine every
    hole number above 9. They are not limited to 1–9 and 10–18.
  - Tied players keep their input order, because the sort is stable.
- Duplicate records, timestamps and the order of the incoming feed are
  taken as given. The engine does no de-duplication.

## Findings

| source | as written | input that shows it | evidently intended | confidence | as-written member | corrected member |
|---|---|---|---|---|---|---|
| utils/calculateScore.ts:130-135 | every rank except 1, 2 and 3 gets "th" | rank 21 gives "21th" (likewise 22 gives "22th", 23 gives "23th") | the English ordinal, e.g. "21st", "22nd", "23rd", with "11th" to "13th" | medium (the leaderboard rarely has 21 players), not executed | CalculateScore.RankSuffixOfTwentyFirst | CalculateScore.RankOrdinal |
