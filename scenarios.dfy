/**
 * Concrete rounds that pin down the engine's conventions: totals, the
 * front/back split, input-ordered `lastHole`, kept duplicates, the row of
 * a player without scores and "1, 2, 2, 4" tie ranking.
 */
module Scenarios {

  import opened Types
  import opened ScoreSort
  import opened CalculateScore

  function Card(playerId: string, hole: int, strokes: int, par: int): Score {
    Score(None, "t1", playerId, "Alice", hole, strokes, par, 0)
  }

  function Summary(playerId: string, score: int): PlayerScore {
    PlayerScore(playerId, playerId, 72 + score, 72, score, [], None, None)
  }

  /** Bogey then par: 8 strokes against par 7, one over, two holes, all on the front nine. */
  lemma BasicAggregation()
    ensures var ps := CalculatePlayerScore("p1", "Alice", [Card("p1", 1, 5, 4), Card("p1", 2, 3, 3)]);
      ps.totalStrokes == 8 && ps.totalPar == 7 && ps.score == 1 && |ps.holes| == 2
      && ps.front9 == Some(1) && ps.back9 == None
  {
    var scores := [Card("p1", 1, 5, 4), Card("p1", 2, 3, 3)];
    assert scores[1..] == [Card("p1", 2, 3, 3)];
    assert PlayerHoles("p1", scores) == [HoleScore(1, 5, 4, 1), HoleScore(2, 3, 3, 0)];
  }

  /** Par on hole 1 and a bogey on hole 10: front nine level, back nine one over. */
  lemma FrontBackSplit()
    ensures var ps := CalculatePlayerScore("p1", "Alice", [Card("p1", 1, 4, 4), Card("p1", 10, 5, 4)]);
      ps.front9 == Some(0) && ps.back9 == Some(1) && ps.score == 1
  {
    var scores := [Card("p1", 1, 4, 4), Card("p1", 10, 5, 4)];
    assert scores[1..] == [Card("p1", 10, 5, 4)];
    var holes := [HoleScore(1, 4, 4, 0), HoleScore(10, 5, 4, 1)];
    assert PlayerHoles("p1", scores) == holes;
    assert holes[1..] == [HoleScore(10, 5, 4, 1)];
    assert FrontNineHoles(holes) == [HoleScore(1, 4, 4, 0)];
    assert BackNineHoles(holes) == [HoleScore(10, 5, 4, 1)];
  }

  /**
   * Records arriving newest first (hole 3 played after hole 1) make hole 1
   * the last hole: `lastHole` is the final record given, not the latest or
   * highest-numbered hole; another player's record is ignored.
   */
  lemma LastHoleIsPositional()
    ensures var ps := CalculatePlayerScore("p1", "Alice", [Card("p1", 3, 4, 3), Card("p2", 5, 4, 4), Card("p1", 1, 4, 4)]);
      var entry := ToEntry(1, ps);
      entry.thru == 2 && entry.lastHole == Some(HoleScore(1, 4, 4, 0))
      && ps.holes[0].hole > entry.lastHole.value.hole
  {
    var scores := [Card("p1", 3, 4, 3), Card("p2", 5, 4, 4), Card("p1", 1, 4, 4)];
    assert scores[1..] == [Card("p2", 5, 4, 4), Card("p1", 1, 4, 4)];
    assert scores[1..][1..] == [Card("p1", 1, 4, 4)];
    assert PlayerHoles("p1", scores) == [HoleScore(3, 4, 3, 1), HoleScore(1, 4, 4, 0)];
  }

  /** A second record for the same hole is counted again: two records for hole 1 give thru 2. */
  lemma DuplicateHoleCountedTwice()
    ensures var ps := CalculatePlayerScore("p1", "Alice", [Card("p1", 1, 5, 4), Card("p1", 1, 4, 4)]);
      |ps.holes| == 2 && ps.totalStrokes == 9 && ps.totalPar == 8 && ps.score == 1
  {
    var scores := [Card("p1", 1, 5, 4), Card("p1", 1, 4, 4)];
    assert scores[1..] == [Card("p1", 1, 4, 4)];
    assert PlayerHoles("p1", scores) == [HoleScore(1, 5, 4, 1), HoleScore(1, 4, 4, 0)];
  }

  /** A player without records, alone on the board, is ranked 1st at level par with nothing played. */
  method ZeroScoreRow() returns (entry: LeaderboardEntry)
    ensures entry.rank == 1 && entry.score == 0 && entry.thru == 0
    ensures entry.front9 == None && entry.back9 == None && entry.lastHole == None
  {
    var ps := CalculatePlayerScore("p1", "Alice", []);
    ZeroScorePlayer("p1", "Alice", []);
    assert SortByScore([ps]) == [ps];
    var leaderboard := CalculateLeaderboard([ps]);
    entry := leaderboard[0];
  }

  // Four summaries at 0, -2, +1 and 0, in this order.
  function A(): PlayerScore { Summary("a", 0) }
  function B(): PlayerScore { Summary("b", -2) }
  function C(): PlayerScore { Summary("c", 1) }
  function D(): PlayerScore { Summary("d", 0) }

  function Field(): seq<PlayerScore> {
    [A(), B(), C(), D()]
  }

  lemma SortLastTwo()
    ensures SortByScore([C(), D()]) == [D(), C()]
  {
    assert [C(), D()][1..] == [D()] && [D()][1..] == [];
    assert SortByScore([D()]) == [D()];
    assert Insert(C(), [D()]) == [D()] + Insert(C(), []);
  }

  lemma SortLastThree()
    ensures SortByScore([B(), C(), D()]) == [B(), D(), C()]
  {
    SortLastTwo();
    assert [B(), C(), D()][1..] == [C(), D()];
    assert Insert(B(), [D(), C()]) == [B(), D(), C()];
  }

  /** The stable sort puts the two level-par players in their input order. */
  lemma FieldSorted()
    ensures SortByScore(Field()) == [B(), A(), D(), C()]
  {
    SortLastThree();
    assert Field()[1..] == [B(), C(), D()];
    assert [B(), D(), C()][1..] == [D(), C()];
    assert Insert(A(), [D(), C()]) == [A(), D(), C()];
    assert Insert(A(), [B(), D(), C()]) == [B(), A(), D(), C()];
  }

  lemma FieldCounts()
    ensures CountBelow(Field(), -2) == 0
    ensures CountBelow(Field(), 0) == 1
    ensures CountBelow(Field(), 1) == 3
  {
    var f := Field();
    assert f[1..] == [f[1], f[2], f[3]];
    assert f[1..][1..] == [f[2], f[3]];
    assert f[1..][1..][1..] == [f[3]];
  }

  /**
   * Scores 0, -2, 1 and 0, given in that order, are ranked 1, 2, 2, 4:
   * tied players share a rank and the next rank is skipped.
   */
  method TieRanking() returns (ranks: seq<int>)
    ensures ranks == [1, 2, 2, 4]
  {
    var leaderboard := CalculateLeaderboard(Field());
    FieldSorted();
    FieldCounts();
    assert leaderboard[0].score == -2 && leaderboard[1].score == 0;
    assert leaderboard[2].score == 0 && leaderboard[3].score == 1;
    ranks := [leaderboard[0].rank, leaderboard[1].rank, leaderboard[2].rank, leaderboard[3].rank];
  }
}
