/**
 * The value shapes the score engine works on: a stored per-hole score record,
 * the per-hole result derived from it, a player's aggregated summary and a
 * leaderboard row. Optional fields of the records are `Option`s:
 * an absent subtotal is `None`, never `Some(0)`.
 */
module Types {

  datatype Option<+T> = None | Some(value: T)

  /** One score submission for one hole, as the score feed delivers it. */
  datatype Score = Score(
    id: Option<string>,
    tournamentId: string,
    playerId: string,
    playerName: string,
    hole: int,
    strokes: int,
    par: int,
    timestamp: int)

  /** The result of one played hole. */
  datatype HoleScore = HoleScore(hole: int, strokes: int, par: int, relativeToPar: int)

  /** A player's aggregated scores; `score` is relative to par. */
  datatype PlayerScore = PlayerScore(
    playerId: string,
    playerName: string,
    totalStrokes: int,
    totalPar: int,
    score: int,
    holes: seq<HoleScore>,
    front9: Option<int>,
    back9: Option<int>)

  /** A roster entry: the player's user id and display name. */
  datatype Player = Player(uid: string, name: string)

  /** One ranked row of the leaderboard; `thru` is the number of holes scored. */
  datatype LeaderboardEntry = LeaderboardEntry(
    rank: int,
    playerId: string,
    playerName: string,
    totalStrokes: int,
    totalPar: int,
    score: int,
    thru: int,
    front9: Option<int>,
    back9: Option<int>,
    lastHole: Option<HoleScore>)
}
