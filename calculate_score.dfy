/**
 * Score aggregation and ranking: folds per-hole score records into player
 * summaries, classifies and renders relative-to-par values, and ranks the
 * summaries into a leaderboard with standard competition ranks ("1, 2, 2, 4").
 */
module CalculateScore {

  import opened Types
  import opened NumberText
  import opened ScoreSort

  // ---------------------------------------------------------------------
  // Aggregation
  // ---------------------------------------------------------------------

  function ToHoleScore(s: Score): HoleScore {
    HoleScore(s.hole, s.strokes, s.par, s.strokes - s.par)
  }

  /**
   * The holes of one player: the records whose `playerId` matches, in input
   * order, each turned into a hole result. Several records for the same hole
   * are all kept.
   */
  function PlayerHoles(playerId: string, scores: seq<Score>): seq<HoleScore> {
    if scores == [] then []
    else
      (if scores[0].playerId == playerId then [ToHoleScore(scores[0])] else [])
      + PlayerHoles(playerId, scores[1..])
  }

  function SumStrokes(holes: seq<HoleScore>): int {
    if holes == [] then 0 else holes[0].strokes + SumStrokes(holes[1..])
  }

  function SumPar(holes: seq<HoleScore>): int {
    if holes == [] then 0 else holes[0].par + SumPar(holes[1..])
  }

  /** The sum of the per-hole relative-to-par values. */
  function SumRelative(holes: seq<HoleScore>): int {
    if holes == [] then 0 else holes[0].relativeToPar + SumRelative(holes[1..])
  }

  /** Holes 1 to 9 (every hole number up to 9), in order. */
  function FrontNineHoles(holes: seq<HoleScore>): seq<HoleScore> {
    if holes == [] then []
    else (if holes[0].hole <= 9 then [holes[0]] else []) + FrontNineHoles(holes[1..])
  }

  /** Holes 10 and above, in order. */
  function BackNineHoles(holes: seq<HoleScore>): seq<HoleScore> {
    if holes == [] then []
    else (if holes[0].hole > 9 then [holes[0]] else []) + BackNineHoles(holes[1..])
  }

  /** A half's subtotal: strokes minus par, or absent when no hole of it was played. */
  function HalfScore(half: seq<HoleScore>): Option<int> {
    if |half| > 0 then Some(SumStrokes(half) - SumPar(half)) else None
  }

  predicate ConsistentHoles(holes: seq<HoleScore>) {
    forall i :: 0 <= i < |holes| ==> holes[i].relativeToPar == holes[i].strokes - holes[i].par
  }

  predicate HasFrontHole(holes: seq<HoleScore>) {
    exists i :: 0 <= i < |holes| && holes[i].hole <= 9
  }

  predicate HasBackHole(holes: seq<HoleScore>) {
    exists i :: 0 <= i < |holes| && holes[i].hole > 9
  }

  /** A player's summary, rebuilt from the whole score list. */
  function CalculatePlayerScore(playerId: string, playerName: string, scores: seq<Score>): (ps: PlayerScore)
    ensures ps.playerId == playerId && ps.playerName == playerName
    ensures ps.holes == PlayerHoles(playerId, scores)
    ensures ConsistentHoles(ps.holes)
    ensures ps.totalStrokes == SumStrokes(ps.holes) && ps.totalPar == SumPar(ps.holes)
    ensures ps.score == ps.totalStrokes - ps.totalPar == SumRelative(ps.holes)
    ensures ps.front9.Some? <==> HasFrontHole(ps.holes)
    ensures ps.back9.Some? <==> HasBackHole(ps.holes)
    ensures ps.front9.Some? ==> ps.front9.value == SumRelative(FrontNineHoles(ps.holes))
    ensures ps.back9.Some? ==> ps.back9.value == SumRelative(BackNineHoles(ps.holes))
    ensures ps.front9.Some? && ps.back9.Some? ==> ps.front9.value + ps.back9.value == ps.score
    ensures ps.front9.Some? && ps.back9.None? ==> ps.front9.value == ps.score
    ensures ps.front9.None? && ps.back9.Some? ==> ps.back9.value == ps.score
    ensures ps.front9.None? && ps.back9.None? <==> ps.holes == []
  {
    var holes := PlayerHoles(playerId, scores);
    var totalStrokes := SumStrokes(holes);
    var totalPar := SumPar(holes);
    var front := FrontNineHoles(holes);
    var back := BackNineHoles(holes);
    PlayerHolesConsistent(playerId, scores);
    SplitSums(holes);
    SplitCovers(holes);
    HalvesNonEmpty(holes);
    ConsistentSubsequences(holes);
    RelativeSum(holes);
    RelativeSum(front);
    RelativeSum(back);
    PlayerScore(playerId, playerName, totalStrokes, totalPar, totalStrokes - totalPar,
                holes, HalfScore(front), HalfScore(back))
  }

  lemma {:induction false} PlayerHolesConsistent(playerId: string, scores: seq<Score>)
    ensures ConsistentHoles(PlayerHoles(playerId, scores))
  {
    if scores != [] {
      PlayerHolesConsistent(playerId, scores[1..]);
    }
  }

  /** Strokes minus par over a list of holes is the sum of their relative-to-par values. */
  lemma {:induction false} RelativeSum(holes: seq<HoleScore>)
    requires ConsistentHoles(holes)
    ensures SumStrokes(holes) - SumPar(holes) == SumRelative(holes)
  {
    if holes != [] {
      RelativeSum(holes[1..]);
    }
  }

  /** Every hole is in exactly one half, so the halves' sums add up to the whole. */
  lemma {:induction false} SplitSums(holes: seq<HoleScore>)
    ensures SumStrokes(FrontNineHoles(holes)) + SumStrokes(BackNineHoles(holes)) == SumStrokes(holes)
    ensures SumPar(FrontNineHoles(holes)) + SumPar(BackNineHoles(holes)) == SumPar(holes)
  {
    if holes != [] {
      SplitSums(holes[1..]);
      var h := holes[0];
      if h.hole <= 9 {
        assert FrontNineHoles(holes) == [h] + FrontNineHoles(holes[1..]);
        assert BackNineHoles(holes) == BackNineHoles(holes[1..]);
      } else {
        assert FrontNineHoles(holes) == FrontNineHoles(holes[1..]);
        assert BackNineHoles(holes) == [h] + BackNineHoles(holes[1..]);
      }
    }
  }

  lemma {:induction false} SplitCovers(holes: seq<HoleScore>)
    ensures |FrontNineHoles(holes)| + |BackNineHoles(holes)| == |holes|
  {
    if holes != [] {
      SplitCovers(holes[1..]);
    }
  }

  lemma {:induction false} HalvesNonEmpty(holes: seq<HoleScore>)
    ensures |FrontNineHoles(holes)| > 0 <==> HasFrontHole(holes)
    ensures |BackNineHoles(holes)| > 0 <==> HasBackHole(holes)
  {
    if holes != [] {
      HalvesNonEmpty(holes[1..]);
      if HasFrontHole(holes[1..]) {
        var i :| 0 <= i < |holes[1..]| && holes[1..][i].hole <= 9;
        assert holes[i + 1].hole <= 9;
      }
      if HasBackHole(holes[1..]) {
        var i :| 0 <= i < |holes[1..]| && holes[1..][i].hole > 9;
        assert holes[i + 1].hole > 9;
      }
      if HasFrontHole(holes) && holes[0].hole > 9 {
        var i :| 0 <= i < |holes| && holes[i].hole <= 9;
        assert holes[1..][i - 1].hole <= 9;
      }
      if HasBackHole(holes) && holes[0].hole <= 9 {
        var i :| 0 <= i < |holes| && holes[i].hole > 9;
        assert holes[1..][i - 1].hole > 9;
      }
    }
  }

  lemma {:induction false} ConsistentSubsequences(holes: seq<HoleScore>)
    requires ConsistentHoles(holes)
    ensures ConsistentHoles(FrontNineHoles(holes)) && ConsistentHoles(BackNineHoles(holes))
  {
    if holes != [] {
      ConsistentSubsequences(holes[1..]);
    }
  }

  /** The holes of a concatenation of record lists are the concatenation of their holes. */
  lemma {:induction false} PlayerHolesAppend(playerId: string, a: seq<Score>, b: seq<Score>)
    ensures PlayerHoles(playerId, a + b) == PlayerHoles(playerId, a) + PlayerHoles(playerId, b)
  {
    if a == [] {
      assert a + b == b;
    } else {
      var head := if a[0].playerId == playerId then [ToHoleScore(a[0])] else [];
      assert (a + b)[0] == a[0];
      assert (a + b)[1..] == a[1..] + b;
      PlayerHolesAppend(playerId, a[1..], b);
      calc {
        PlayerHoles(playerId, a + b);
        head + PlayerHoles(playerId, a[1..] + b);
        head + (PlayerHoles(playerId, a[1..]) + PlayerHoles(playerId, b));
        (head + PlayerHoles(playerId, a[1..])) + PlayerHoles(playerId, b);
      }
    }
  }

  /**
   * Nothing is de-duplicated: one more record for the player, whatever its
   * hole number, adds exactly one hole at the end of `holes`.
   */
  lemma DuplicatesKept(playerId: string, scores: seq<Score>, s: Score)
    requires s.playerId == playerId
    ensures PlayerHoles(playerId, scores + [s]) == PlayerHoles(playerId, scores) + [ToHoleScore(s)]
    ensures |CalculatePlayerScore(playerId, "", scores + [s]).holes|
         == |CalculatePlayerScore(playerId, "", scores).holes| + 1
  {
    PlayerHolesAppend(playerId, scores, [s]);
  }

  /** A hole is in the player's list exactly when some matching record produced it. */
  lemma {:induction false} PlayerHolesMembers(playerId: string, scores: seq<Score>, h: HoleScore)
    ensures h in PlayerHoles(playerId, scores)
        <==> exists i :: 0 <= i < |scores| && scores[i].playerId == playerId && h == ToHoleScore(scores[i])
  {
    if scores != [] {
      PlayerHolesMembers(playerId, scores[1..], h);
      if exists i :: 0 <= i < |scores[1..]| && scores[1..][i].playerId == playerId && h == ToHoleScore(scores[1..][i]) {
        var i :| 0 <= i < |scores[1..]| && scores[1..][i].playerId == playerId && h == ToHoleScore(scores[1..][i]);
        assert scores[i + 1] == scores[1..][i];
      }
      if exists i :: 0 <= i < |scores| && scores[i].playerId == playerId && h == ToHoleScore(scores[i]) {
        var i :| 0 <= i < |scores| && scores[i].playerId == playerId && h == ToHoleScore(scores[i]);
        if i > 0 {
          assert scores[1..][i - 1] == scores[i];
        }
      }
    }
  }

  lemma {:induction false} NoRecordsNoHoles(playerId: string, scores: seq<Score>)
    requires forall i :: 0 <= i < |scores| ==> scores[i].playerId != playerId
    ensures PlayerHoles(playerId, scores) == []
  {
    if scores != [] {
      NoRecordsNoHoles(playerId, scores[1..]);
    }
  }

  /** A player without records gets the all-zero summary with no subtotals. */
  lemma ZeroScorePlayer(playerId: string, playerName: string, scores: seq<Score>)
    requires forall i :: 0 <= i < |scores| ==> scores[i].playerId != playerId
    ensures CalculatePlayerScore(playerId, playerName, scores)
         == PlayerScore(playerId, playerName, 0, 0, 0, [], None, None)
  {
    NoRecordsNoHoles(playerId, scores);
  }

  /** One summary per roster entry, in roster order. */
  function CalculateAllPlayerScores(players: seq<Player>, scores: seq<Score>): (r: seq<PlayerScore>)
    ensures |r| == |players|
    ensures forall i :: 0 <= i < |r| ==>
      r[i].playerId == players[i].uid && r[i].playerName == players[i].name
      && r[i] == CalculatePlayerScore(players[i].uid, players[i].name, scores)
  {
    if players == [] then []
    else
      [CalculatePlayerScore(players[0].uid, players[0].name, scores)]
      + CalculateAllPlayerScores(players[1..], scores)
  }

  // ---------------------------------------------------------------------
  // Classification and rendering
  // ---------------------------------------------------------------------

  /** The name of a hole outcome; every integer falls in exactly one band. */
  function GetScoreDescription(relativeToPar: int): (d: string)
    ensures d == "eagle" <==> relativeToPar <= -2
    ensures d == "birdie" <==> relativeToPar == -1
    ensures d == "par" <==> relativeToPar == 0
    ensures d == "bogey" <==> relativeToPar == 1
    ensures d == "double-bogey" <==> relativeToPar >= 2
  {
    if relativeToPar <= -2 then "eagle"
    else if relativeToPar == -1 then "birdie"
    else if relativeToPar == 0 then "par"
    else if relativeToPar == 1 then "bogey"
    else "double-bogey"
  }

  /** The style class pair for an outcome, built from its description. */
  function GetScoreClass(relativeToPar: int): string {
    var description := GetScoreDescription(relativeToPar);
    "text-" + description + " bg-" + description
  }

  /** Two relative-to-par values get the same class exactly when they get the same description. */
  lemma ScoreClassMatchesDescription(a: int, b: int)
    ensures GetScoreClass(a) == GetScoreClass(b) <==> GetScoreDescription(a) == GetScoreDescription(b)
  {
    var da, db := GetScoreDescription(a), GetScoreDescription(b);
    if GetScoreClass(a) == GetScoreClass(b) {
      assert |da| == |db|;
      assert ("text-" + da + " bg-" + da)[5..5 + |da|] == da;
      assert ("text-" + db + " bg-" + db)[5..5 + |db|] == db;
    }
  }

  /** "E" for level par, "+n" over par, the plain negative number under par. */
  function FormatScore(score: int): (s: string)
    ensures s == "E" <==> score == 0
    ensures score > 0 ==> s == "+" + NatToString(score)
    ensures score < 0 ==> s == "-" + NatToString(-score)
  {
    if score == 0 then "E"
    else if score > 0 then "+" + IntToString(score)
    else IntToString(score)
  }

  /** Reads a rendered score back; `None` if the text is not one. */
  function ParseScore(s: string): Option<int> {
    if s == "E" then Some(0)
    else if |s| > 1 && s[0] == '+' && AllDigits(s[1..]) then Some(ParseNat(s[1..]))
    else ParseInt(s)
  }

  /** The rendered score is read back as the score itself. */
  lemma FormatScoreRoundTrip(score: int)
    ensures ParseScore(FormatScore(score)) == Some(score)
  {
    if score > 0 {
      var digits := NatToString(score);
      assert ("+" + digits)[1..] == digits;
      ParseNatToString(score);
    } else if score < 0 {
      IntToStringRoundTrip(score);
    }
  }

  /** Distinct scores are rendered differently, and never as "-" alone. */
  lemma FormatScoreInjective(a: int, b: int)
    ensures FormatScore(a) == FormatScore(b) ==> a == b
    ensures FormatScore(a) != "-"
  {
    FormatScoreRoundTrip(a);
    FormatScoreRoundTrip(b);
  }

  // ---------------------------------------------------------------------
  // Ranking
  // ---------------------------------------------------------------------

  /** A summary's leaderboard row at the given rank. */
  function ToEntry(rank: int, ps: PlayerScore): LeaderboardEntry {
    LeaderboardEntry(
      rank, ps.playerId, ps.playerName, ps.totalStrokes, ps.totalPar, ps.score,
      |ps.holes|, ps.front9, ps.back9,
      if |ps.holes| > 0 then Some(ps.holes[|ps.holes| - 1]) else None)
  }

  /**
   * In a sequence sorted by score, an element that starts a new score (the
   * first, or one above its predecessor) has exactly its index many
   * elements scoring below it.
   */
  lemma {:induction false} CountBelowAtStep(s: seq<PlayerScore>, i: nat)
    requires SortedByScore(s) && i < |s|
    requires i == 0 || s[i - 1].score < s[i].score
    ensures CountBelow(s, s[i].score) == i
  {
    CountBelowSplit(s[..i], s[i..], s[i].score);
    assert s[..i] + s[i..] == s;
    CountBelowAll(s[..i], s[i].score);
    CountBelowNone(s[i..], s[i].score);
  }

  lemma {:induction false} CountBelowSplit(a: seq<PlayerScore>, b: seq<PlayerScore>, v: int)
    ensures CountBelow(a + b, v) == CountBelow(a, v) + CountBelow(b, v)
  {
    if a == [] {
      assert a + b == b;
    } else {
      assert (a + b)[0] == a[0];
      assert (a + b)[1..] == a[1..] + b;
      CountBelowSplit(a[1..], b, v);
    }
  }

  lemma {:induction false} CountBelowAll(s: seq<PlayerScore>, v: int)
    requires forall j :: 0 <= j < |s| ==> s[j].score < v
    ensures CountBelow(s, v) == |s|
  {
    if s != [] {
      CountBelowAll(s[1..], v);
    }
  }

  lemma {:induction false} CountBelowNone(s: seq<PlayerScore>, v: int)
    requires forall j :: 0 <= j < |s| ==> v <= s[j].score
    ensures CountBelow(s, v) == 0
  {
    if s != [] {
      CountBelowNone(s[1..], v);
    }
  }

  /** Ranks follow the standard competition recurrence over a score-ordered list. */
  predicate CompetitionRanked(lb: seq<LeaderboardEntry>) {
    && (|lb| > 0 ==> lb[0].rank == 1)
    && forall i :: 0 < i < |lb| ==>
         lb[i].rank == if lb[i].score == lb[i - 1].score then lb[i - 1].rank else i + 1
  }

  /** Under the recurrence, the row at index `i` is ranked between 1 and `i + 1`, and ranks never drop. */
  lemma {:induction false} CompetitionRanksBounded(lb: seq<LeaderboardEntry>)
    requires CompetitionRanked(lb)
    ensures forall i :: 0 <= i < |lb| ==> 1 <= lb[i].rank <= i + 1
    ensures forall i :: 0 < i < |lb| ==> lb[i - 1].rank <= lb[i].rank
  {
    if |lb| > 1 {
      var n := |lb| - 1;
      var init := lb[..n];
      assert forall i :: 0 <= i < |init| ==> init[i] == lb[i];
      CompetitionRanksBounded(init);
      assert 1 <= lb[n - 1].rank <= n;
      assert 1 <= lb[n].rank <= n + 1;
    }
  }

  /** Rows built in order from a score-sorted list are score-sorted and carry each summary's progress. */
  lemma RowsOfSorted(sorted: seq<PlayerScore>, lb: seq<LeaderboardEntry>)
    requires SortedByScore(sorted) && |lb| == |sorted|
    requires forall i :: 0 <= i < |lb| ==> lb[i] == ToEntry(lb[i].rank, sorted[i])
    ensures forall i :: 0 <= i < |lb| ==>
      lb[i].thru == |sorted[i].holes|
      && lb[i].lastHole == (if sorted[i].holes == [] then None else Some(sorted[i].holes[|sorted[i].holes| - 1]))
    ensures forall i, j :: 0 <= i < j < |lb| ==> lb[i].score <= lb[j].score
  {
  }

  /**
   * `lb` holds the first `|lb|` rows built from `sorted`: each row is its
   * summary's entry, the ranks follow the recurrence, and each rank is one
   * more than the number of summaries scoring strictly better.
   */
  ghost predicate RanksRows(sorted: seq<PlayerScore>, lb: seq<LeaderboardEntry>) {
    && |lb| <= |sorted|
    && (forall i :: 0 <= i < |lb| ==> lb[i] == ToEntry(lb[i].rank, sorted[i]))
    && CompetitionRanked(lb)
    && (forall i :: 0 <= i < |lb| ==> lb[i].rank == 1 + CountBelow(sorted, sorted[i].score))
  }

  /** One iteration of the ranking loop keeps `RanksRows`. */
  lemma LeaderboardStep(sorted: seq<PlayerScore>, lb: seq<LeaderboardEntry>, rank: int)
    requires SortedByScore(sorted) && RanksRows(sorted, lb) && |lb| < |sorted|
    requires rank == if |lb| > 0 && sorted[|lb|].score == sorted[|lb| - 1].score then lb[|lb| - 1].rank else |lb| + 1
    ensures RanksRows(sorted, lb + [ToEntry(rank, sorted[|lb|])])
  {
    var index := |lb|;
    var next := lb + [ToEntry(rank, sorted[index])];
    if !(index > 0 && sorted[index].score == sorted[index - 1].score) {
      CountBelowAtStep(sorted, index);
    }
    assert forall i :: 0 <= i < index ==> next[i] == lb[i];
    assert next[index].rank == 1 + CountBelow(sorted, sorted[index].score);
  }

  /** A complete set of rows for `SortByScore(s)` counts ranks against `s` itself. */
  lemma RanksAgainstInput(s: seq<PlayerScore>, lb: seq<LeaderboardEntry>)
    requires RanksRows(SortByScore(s), lb)
    ensures forall i :: 0 <= i < |lb| ==> lb[i].rank == 1 + CountBelow(s, lb[i].score)
  {
    var sorted := SortByScore(s);
    forall i | 0 <= i < |lb|
      ensures lb[i].rank == 1 + CountBelow(s, lb[i].score)
    {
      SortByScoreCountBelow(s, sorted[i].score);
    }
  }

  /**
   * The leaderboard: the summaries stably sorted by score, each row ranked
   * by standard competition ranking.
   */
  method CalculateLeaderboard(playerScores: seq<PlayerScore>) returns (leaderboard: seq<LeaderboardEntry>)
    ensures |leaderboard| == |playerScores|
    ensures forall i :: 0 <= i < |leaderboard| ==>
      leaderboard[i] == ToEntry(leaderboard[i].rank, SortByScore(playerScores)[i])
    ensures forall i :: 0 <= i < |leaderboard| ==>
      var ps := SortByScore(playerScores)[i];
      leaderboard[i].thru == |ps.holes|
      && leaderboard[i].lastHole == (if ps.holes == [] then None else Some(ps.holes[|ps.holes| - 1]))
    ensures forall i, j :: 0 <= i < j < |leaderboard| ==> leaderboard[i].score <= leaderboard[j].score
    ensures CompetitionRanked(leaderboard)
    ensures forall i :: 0 <= i < |leaderboard| ==> 1 <= leaderboard[i].rank <= i + 1
    ensures forall i :: 0 < i < |leaderboard| ==> leaderboard[i - 1].rank <= leaderboard[i].rank
    ensures forall i :: 0 <= i < |leaderboard| ==>
      leaderboard[i].rank == 1 + CountBelow(playerScores, leaderboard[i].score)
  {
    var sorted := SortByScore(playerScores);
    leaderboard := [];
    var currentRank := 1;
    for index := 0 to |sorted|
      invariant |leaderboard| == index
      invariant RanksRows(sorted, leaderboard)
    {
      var ps := sorted[index];
      if index > 0 && ps.score == sorted[index - 1].score {
        currentRank := leaderboard[index - 1].rank;
      } else {
        currentRank := index + 1;
      }
      LeaderboardStep(sorted, leaderboard, currentRank);
      leaderboard := leaderboard + [ToEntry(currentRank, ps)];
    }
    RowsOfSorted(sorted, leaderboard);
    CompetitionRanksBounded(leaderboard);
    RanksAgainstInput(playerScores, leaderboard);
  }

  // ---------------------------------------------------------------------
  // Rank suffix
  // ---------------------------------------------------------------------

  /** The rank label as written: "1st", "2nd", "3rd", otherwise the number and "th". */
  function GetRankSuffix(rank: int): (s: string)
    ensures rank == 1 ==> s == "1st"
    ensures rank == 2 ==> s == "2nd"
    ensures rank == 3 ==> s == "3rd"
    ensures rank !in {1, 2, 3} ==> s == IntToString(rank) + "th"
    ensures |s| >= 3 && s[..|s| - 2] == IntToString(rank)
  {
    if rank == 1 then "1st"
    else if rank == 2 then "2nd"
    else if rank == 3 then "3rd"
    else IntToString(rank) + "th"
  }

  /** The label for rank 21 ends in "th": the 21st place is shown as "21th". */
  lemma RankSuffixOfTwentyFirst()
    ensures GetRankSuffix(21) == "21th"
    ensures RankOrdinal(21) == "21st"
  {
    assert NatToString(21) == NatToString(2) + [DigitChar(1)];
  }

  /** The English ordinal suffix of a rank: "st", "nd", "rd" by last digit, but "th" for 11 to 13. */
  function OrdinalSuffix(rank: nat): (suffix: string)
    ensures suffix == "st" <==> rank % 10 == 1 && rank % 100 != 11
    ensures suffix == "nd" <==> rank % 10 == 2 && rank % 100 != 12
    ensures suffix == "rd" <==> rank % 10 == 3 && rank % 100 != 13
    ensures suffix == "th" <==> rank % 10 !in {1, 2, 3} || rank % 100 in {11, 12, 13}
  {
    if 11 <= rank % 100 <= 13 then "th"
    else if rank % 10 == 1 then "st"
    else if rank % 10 == 2 then "nd"
    else if rank % 10 == 3 then "rd"
    else "th"
  }

  /** The rank label with the English ordinal suffix. */
  function RankOrdinal(rank: nat): (s: string)
    ensures s == IntToString(rank) + OrdinalSuffix(rank)
  {
    NatToString(rank) + OrdinalSuffix(rank)
  }

  /** Up to rank 20 the label as written is the correct ordinal. */
  lemma RankSuffixCorrectUpToTwenty(rank: nat)
    requires 1 <= rank <= 20
    ensures GetRankSuffix(rank) == RankOrdinal(rank)
  {
    if rank > 3 {
      assert rank % 10 !in {1, 2, 3} || rank % 100 in {11, 12, 13};
      assert OrdinalSuffix(rank) == "th";
    }
  }
}
