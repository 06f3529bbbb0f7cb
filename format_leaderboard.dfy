/**
 * Display helpers over ranked leaderboard rows: rendering rows as text,
 * filtering them by half or completion, grouping them by rank, and the
 * podium colour classes.
 */
module FormatLeaderboard {

  import opened Types
  import opened NumberText
  import opened CalculateScore

  // ---------------------------------------------------------------------
  // Display rows
  // ---------------------------------------------------------------------

  /** A leaderboard row as text; an absent half subtotal is shown as "-". */
  datatype DisplayRow = DisplayRow(
    rank: string,
    player: string,
    score: string,
    thru: string,
    totalStrokes: int,
    front9: string,
    back9: string)

  function HalfText(half: Option<int>): string {
    if half.Some? then FormatScore(half.value) else "-"
  }

  function DisplayRowOf(entry: LeaderboardEntry): DisplayRow {
    DisplayRow(
      IntToString(entry.rank), entry.playerName, FormatScore(entry.score),
      IntToString(entry.thru), entry.totalStrokes, HalfText(entry.front9), HalfText(entry.back9))
  }

  /** One display row per entry, in the same order. */
  function FormatLeaderboardDisplay(entries: seq<LeaderboardEntry>): (rows: seq<DisplayRow>)
    ensures |rows| == |entries|
    ensures forall i :: 0 <= i < |rows| ==> rows[i] == DisplayRowOf(entries[i])
  {
    if entries == [] then []
    else [DisplayRowOf(entries[0])] + FormatLeaderboardDisplay(entries[1..])
  }

  /**
   * Nothing numeric is lost in display: rank, score, thru and each defined
   * half read back as the entry's values, and a half shows "-" exactly when
   * it is absent.
   */
  lemma DisplayReadsBack(entries: seq<LeaderboardEntry>, i: nat)
    requires i < |entries|
    ensures var row := FormatLeaderboardDisplay(entries)[i];
      && ParseInt(row.rank) == Some(entries[i].rank)
      && ParseInt(row.thru) == Some(entries[i].thru)
      && ParseScore(row.score) == Some(entries[i].score)
      && row.player == entries[i].playerName
      && (row.front9 == "-" <==> entries[i].front9.None?)
      && (row.back9 == "-" <==> entries[i].back9.None?)
      && (entries[i].front9.Some? ==> ParseScore(row.front9) == entries[i].front9)
      && (entries[i].back9.Some? ==> ParseScore(row.back9) == entries[i].back9)
  {
    var e := entries[i];
    IntToStringRoundTrip(e.rank);
    IntToStringRoundTrip(e.thru);
    FormatScoreRoundTrip(e.score);
    if e.front9.Some? {
      FormatScoreRoundTrip(e.front9.value);
      FormatScoreInjective(e.front9.value, e.front9.value);
    }
    if e.back9.Some? {
      FormatScoreRoundTrip(e.back9.value);
      FormatScoreInjective(e.back9.value, e.back9.value);
    }
  }

  // ---------------------------------------------------------------------
  // Filtering
  // ---------------------------------------------------------------------

  datatype LeaderboardFilter = All | Front9 | Back9 | Completed

  /** The hole count a "completed" row must have reached; fixed, not the tournament's. */
  const CompletedHoles: int := 18

  predicate Keeps(filter: LeaderboardFilter, entry: LeaderboardEntry) {
    match filter
    case All => true
    case Front9 => entry.front9.Some?
    case Back9 => entry.back9.Some?
    case Completed => entry.thru == CompletedHoles
  }

  function KeepWhere(entries: seq<LeaderboardEntry>, filter: LeaderboardFilter): seq<LeaderboardEntry> {
    if entries == [] then []
    else (if Keeps(filter, entries[0]) then [entries[0]] else []) + KeepWhere(entries[1..], filter)
  }

  /** `a` is `b` with some elements left out, the rest in the same order. */
  predicate IsSubsequence(a: seq<LeaderboardEntry>, b: seq<LeaderboardEntry>)
    decreases |b|
  {
    if a == [] then true
    else if b == [] then false
    else if a[0] == b[0] then IsSubsequence(a[1..], b[1..])
    else IsSubsequence(a, b[1..])
  }

  /** The rows a filter shows; "all" gives back the input itself. */
  function FilterLeaderboard(entries: seq<LeaderboardEntry>, filter: LeaderboardFilter): (r: seq<LeaderboardEntry>)
    ensures filter == All ==> r == entries
    ensures forall e :: e in r <==> e in entries && Keeps(filter, e)
    ensures forall e :: multiset(r)[e] == if Keeps(filter, e) then multiset(entries)[e] else 0
    ensures IsSubsequence(r, entries)
  {
    KeepWhereMembers(entries, filter);
    KeepWhereSubsequence(entries, filter);
    if filter == All then entries else KeepWhere(entries, filter)
  }

  lemma {:induction false} KeepWhereMembers(entries: seq<LeaderboardEntry>, filter: LeaderboardFilter)
    ensures forall e :: e in KeepWhere(entries, filter) <==> e in entries && Keeps(filter, e)
    ensures forall e :: multiset(KeepWhere(entries, filter))[e]
                     == if Keeps(filter, e) then multiset(entries)[e] else 0
    ensures filter == All ==> KeepWhere(entries, filter) == entries
  {
    if entries != [] {
      KeepWhereMembers(entries[1..], filter);
      var head := if Keeps(filter, entries[0]) then [entries[0]] else [];
      assert entries == [entries[0]] + entries[1..];
      assert multiset(entries) == multiset{entries[0]} + multiset(entries[1..]);
      assert multiset(KeepWhere(entries, filter)) == multiset(head) + multiset(KeepWhere(entries[1..], filter));
    }
  }

  lemma {:induction false} KeepWhereSubsequence(entries: seq<LeaderboardEntry>, filter: LeaderboardFilter)
    ensures IsSubsequence(KeepWhere(entries, filter), entries)
    ensures IsSubsequence(entries, entries)
  {
    if entries != [] {
      KeepWhereSubsequence(entries[1..], filter);
      var rest := KeepWhere(entries[1..], filter);
      if Keeps(filter, entries[0]) {
        assert ([entries[0]] + rest)[1..] == rest;
      } else if rest != [] {
        assert KeepWhere(entries, filter) == rest;
        KeepWhereMembers(entries[1..], filter);
        assert rest[0] in rest;
        assert rest[0] != entries[0];
      }
    }
  }

  lemma {:induction false} KeepWhereIdempotent(entries: seq<LeaderboardEntry>, filter: LeaderboardFilter)
    ensures KeepWhere(KeepWhere(entries, filter), filter) == KeepWhere(entries, filter)
  {
    if entries != [] {
      KeepWhereIdempotent(entries[1..], filter);
      var rest := KeepWhere(entries[1..], filter);
      if Keeps(filter, entries[0]) {
        var kept := [entries[0]] + rest;
        assert kept[0] == entries[0] && kept[1..] == rest;
        calc {
          KeepWhere(kept, filter);
          [entries[0]] + KeepWhere(rest, filter);
          kept;
        }
      } else {
        assert KeepWhere(entries, filter) == rest;
      }
    }
  }

  /** Filtering twice with the same filter is filtering once. */
  lemma FilterIdempotent(entries: seq<LeaderboardEntry>, filter: LeaderboardFilter)
    ensures FilterLeaderboard(FilterLeaderboard(entries, filter), filter) == FilterLeaderboard(entries, filter)
  {
    KeepWhereIdempotent(entries, filter);
  }

  // ---------------------------------------------------------------------
  // Grouping by rank
  // ---------------------------------------------------------------------

  /**
   * An insertion-ordered map from rank to rows: `order` lists the keys in
   * the order they were first set, `groups` holds the values.
   */
  datatype RankGroups = RankGroups(order: seq<int>, groups: map<int, seq<LeaderboardEntry>>)

  /** The rows stored under `rank`, or none when the key is absent. */
  function GetGroup(g: RankGroups, rank: int): seq<LeaderboardEntry> {
    if rank in g.groups then g.groups[rank] else []
  }

  /** Setting a key keeps its position if present and appends it otherwise. */
  function SetGroup(g: RankGroups, rank: int, rows: seq<LeaderboardEntry>): RankGroups {
    RankGroups(if rank in g.groups then g.order else g.order + [rank], g.groups[rank := rows])
  }

  /** The rows with the given rank, in input order. */
  function WithRank(entries: seq<LeaderboardEntry>, rank: int): seq<LeaderboardEntry> {
    if entries == [] then []
    else
      var last := entries[|entries| - 1];
      WithRank(entries[..|entries| - 1], rank) + (if last.rank == rank then [last] else [])
  }

  predicate Distinct(keys: seq<int>) {
    forall i, j :: 0 <= i < j < |keys| ==> keys[i] != keys[j]
  }

  /** The ranks that occur, each once, in the order of their first occurrence. */
  function DistinctRanks(entries: seq<LeaderboardEntry>): (keys: seq<int>)
    ensures Distinct(keys)
  {
    if entries == [] then []
    else
      var keys := DistinctRanks(entries[..|entries| - 1]);
      var rank := entries[|entries| - 1].rank;
      if rank in keys then keys else keys + [rank]
  }

  /** A rank is listed exactly when some row has it. */
  lemma {:induction false} DistinctRanksMembers(entries: seq<LeaderboardEntry>, rank: int)
    ensures rank in DistinctRanks(entries) <==> exists i :: 0 <= i < |entries| && entries[i].rank == rank
  {
    if entries != [] {
      var init := entries[..|entries| - 1];
      DistinctRanksMembers(init, rank);
      assert forall i :: 0 <= i < |init| ==> init[i] == entries[i];
    }
  }

  /** The total number of rows over the groups listed in `order`. */
  function GroupSizes(order: seq<int>, groups: map<int, seq<LeaderboardEntry>>): nat
    requires forall r :: r in order ==> r in groups
  {
    if order == [] then 0
    else
      var last := order[|order| - 1];
      assert last in order;
      GroupSizes(order[..|order| - 1], groups) + |groups[last]|
  }

  lemma {:induction false} GroupSizesOther(order: seq<int>, groups: map<int, seq<LeaderboardEntry>>, rank: int, rows: seq<LeaderboardEntry>)
    requires forall r :: r in order ==> r in groups
    requires rank !in order
    ensures GroupSizes(order, groups[rank := rows]) == GroupSizes(order, groups)
  {
    if order != [] {
      GroupSizesOther(order[..|order| - 1], groups, rank, rows);
    }
  }

  lemma {:induction false} GroupSizesUpdate(order: seq<int>, groups: map<int, seq<LeaderboardEntry>>, rank: int, rows: seq<LeaderboardEntry>)
    requires forall r :: r in order ==> r in groups
    requires Distinct(order) && rank in order
    ensures GroupSizes(order, groups[rank := rows]) == GroupSizes(order, groups) - |groups[rank]| + |rows|
  {
    var init := order[..|order| - 1];
    if order[|order| - 1] == rank {
      assert rank !in init;
      GroupSizesOther(init, groups, rank, rows);
    } else {
      GroupSizesUpdate(init, groups, rank, rows);
    }
  }

  lemma {:induction false} WithRankMembers(entries: seq<LeaderboardEntry>, rank: int, e: LeaderboardEntry)
    ensures e in WithRank(entries, rank) <==> e in entries && e.rank == rank
  {
    if entries != [] {
      var init := entries[..|entries| - 1];
      WithRankMembers(init, rank, e);
      assert entries == init + [entries[|entries| - 1]];
    }
  }

  /** `g` is the grouping of `prefix`: the state after grouping its rows one by one. */
  ghost predicate GroupsOf(g: RankGroups, prefix: seq<LeaderboardEntry>) {
    && g.order == DistinctRanks(prefix)
    && (forall r :: r in g.groups <==> r in g.order)
    && (forall r :: r in g.groups ==> g.groups[r] == WithRank(prefix, r))
    && GroupSizes(g.order, g.groups) == |prefix|
  }

  lemma NewRankHasNoRows(entries: seq<LeaderboardEntry>, rank: int)
    requires rank !in DistinctRanks(entries)
    ensures WithRank(entries, rank) == []
  {
    if WithRank(entries, rank) != [] {
      var e := WithRank(entries, rank)[0];
      WithRankMembers(entries, rank, e);
      DistinctRanksMembers(entries, rank);
    }
  }

  lemma DistinctRanksStep(prefix: seq<LeaderboardEntry>, entry: LeaderboardEntry)
    ensures DistinctRanks(prefix + [entry])
         == if entry.rank in DistinctRanks(prefix) then DistinctRanks(prefix)
            else DistinctRanks(prefix) + [entry.rank]
  {
    assert (prefix + [entry])[..|prefix|] == prefix;
  }

  lemma WithRankStep(prefix: seq<LeaderboardEntry>, entry: LeaderboardEntry, rank: int)
    ensures WithRank(prefix + [entry], rank)
         == WithRank(prefix, rank) + (if entry.rank == rank then [entry] else [])
  {
    assert (prefix + [entry])[..|prefix|] == prefix;
  }

  lemma GroupStepSizes(g: RankGroups, prefix: seq<LeaderboardEntry>, entry: LeaderboardEntry)
    requires GroupsOf(g, prefix)
    ensures var g' := SetGroup(g, entry.rank, GetGroup(g, entry.rank) + [entry]);
      (forall r :: r in g'.order ==> r in g'.groups) && GroupSizes(g'.order, g'.groups) == |prefix| + 1
  {
    var rows := GetGroup(g, entry.rank) + [entry];
    if entry.rank in g.groups {
      GroupSizesUpdate(g.order, g.groups, entry.rank, rows);
    } else {
      GroupSizesOther(g.order, g.groups, entry.rank, rows);
      NewRankHasNoRows(prefix, entry.rank);
      assert g.groups[entry.rank := rows][entry.rank] == rows;
    }
  }

  lemma GroupStepRows(g: RankGroups, prefix: seq<LeaderboardEntry>, entry: LeaderboardEntry)
    requires GroupsOf(g, prefix)
    ensures var g' := SetGroup(g, entry.rank, GetGroup(g, entry.rank) + [entry]);
      forall r :: r in g'.groups ==> g'.groups[r] == WithRank(prefix + [entry], r)
  {
    if entry.rank !in g.groups {
      NewRankHasNoRows(prefix, entry.rank);
    }
    var g' := SetGroup(g, entry.rank, GetGroup(g, entry.rank) + [entry]);
    forall r | r in g'.groups
      ensures g'.groups[r] == WithRank(prefix + [entry], r)
    {
      WithRankStep(prefix, entry, r);
    }
  }

  /** Adding one row to its rank's group turns the grouping of a prefix into that of the longer prefix. */
  lemma GroupStep(g: RankGroups, prefix: seq<LeaderboardEntry>, entry: LeaderboardEntry)
    requires GroupsOf(g, prefix)
    ensures GroupsOf(SetGroup(g, entry.rank, GetGroup(g, entry.rank) + [entry]), prefix + [entry])
  {
    DistinctRanksStep(prefix, entry);
    GroupStepSizes(g, prefix, entry);
    GroupStepRows(g, prefix, entry);
  }

  /**
   * Every row goes into exactly one group, the one keyed by its own rank:
   * the groups are the rows of each occurring rank in input order, the keys
   * are the occurring ranks in order of first occurrence, and the group
   * sizes add up to the number of rows.
   */
  method GroupLeaderboardByRank(entries: seq<LeaderboardEntry>) returns (grouped: RankGroups)
    ensures GroupsOf(grouped, entries)
    ensures forall r, e :: r in grouped.groups && e in grouped.groups[r] ==> e in entries && e.rank == r
    ensures forall i :: 0 <= i < |entries| ==>
      entries[i].rank in grouped.groups && entries[i] in grouped.groups[entries[i].rank]
  {
    grouped := RankGroups([], map[]);
    for n := 0 to |entries|
      invariant GroupsOf(grouped, entries[..n])
    {
      var entry := entries[n];
      var existing := GetGroup(grouped, entry.rank);
      GroupStep(grouped, entries[..n], entry);
      PrefixStep(entries, n);
      grouped := SetGroup(grouped, entry.rank, existing + [entry]);
    }
    assert entries[..|entries|] == entries;
    forall r, e | r in grouped.groups && e in grouped.groups[r]
      ensures e in entries && e.rank == r
    {
      RowOfGroup(grouped, entries, r, e);
    }
    forall i | 0 <= i < |entries|
      ensures entries[i].rank in grouped.groups && entries[i] in grouped.groups[entries[i].rank]
    {
      RowInOwnGroup(grouped, entries, i);
    }
  }

  lemma PrefixStep<T>(s: seq<T>, n: nat)
    requires n < |s|
    ensures s[..n + 1] == s[..n] + [s[n]]
  {
  }

  lemma RowOfGroup(g: RankGroups, entries: seq<LeaderboardEntry>, r: int, e: LeaderboardEntry)
    requires GroupsOf(g, entries)
    requires r in g.groups && e in g.groups[r]
    ensures e in entries && e.rank == r
  {
    WithRankMembers(entries, r, e);
  }

  lemma RowInOwnGroup(g: RankGroups, entries: seq<LeaderboardEntry>, i: nat)
    requires GroupsOf(g, entries)
    requires i < |entries|
    ensures entries[i].rank in g.groups && entries[i] in g.groups[entries[i].rank]
  {
    DistinctRanksMembers(entries, entries[i].rank);
    WithRankMembers(entries, entries[i].rank, entries[i]);
  }

  // ---------------------------------------------------------------------
  // Podium colours
  // ---------------------------------------------------------------------

  const DefaultRankClass: string := "bg-white text-sage-800 border-sage-200"

  /** Ranks 1, 2 and 3 get their own classes; every other rank the default one. */
  function GetRankColorClass(rank: int): (c: string)
    ensures c == DefaultRankClass <==> rank !in {1, 2, 3}
  {
    match rank
    case 1 => "bg-accent/20 text-sage-900 border-accent"
    case 2 => "bg-sage-100 text-sage-900 border-sage-300"
    case 3 => "bg-olive-200 text-sage-900 border-olive-400"
    case _ => DefaultRankClass
  }

  /** The three podium classes differ from one another. */
  lemma PodiumClassesDistinct(a: int, b: int)
    requires a in {1, 2, 3} && b in {1, 2, 3}
    ensures GetRankColorClass(a) == GetRankColorClass(b) <==> a == b
  {
  }
}
