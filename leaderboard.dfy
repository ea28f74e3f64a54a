/**
 * The leaderboard panel: the players ranked by score, the top rows with
 * medals for the first three, and a separate row for the viewing player
 * when they are not among the top rows.
 */
module Leaderboard {
  import opened JsArray
  import opened QuizTypes

  /** The number of top rows when the caller does not say. */
  const DefaultTopCount := 5

  function NegatedScore(p: Player): int { -p.score }

  /**
   * `[...players].sort((a, b) => b.score - a.score)`: the players rearranged
   * into non-increasing score order (ties keep their input order, as the
   * stable sort does); the input itself is a value and stays as it was.
   */
  function SortedPlayers(players: seq<Player>): (r: seq<Player>)
    ensures |r| == |players|
    ensures multiset(r) == multiset(players)
    ensures forall i, j :: 0 <= i < j < |r| ==> r[i].score >= r[j].score
  {
    var r := SortBy(players, NegatedScore);
    assert SortedBy(r, NegatedScore);
    r
  }

  /**
   * Players with equal scores keep the order they had in `players`: for
   * any score, the players with that score (negated score `negated`) appear
   * in the ranking in their input order.
   */
  lemma SortedPlayersKeepTies(players: seq<Player>, negated: int)
    ensures Filter(SortedPlayers(players), KeyIs(NegatedScore, negated)) ==
            Filter(players, KeyIs(NegatedScore, negated))
  {
    SortByStable(players, NegatedScore, negated);
    assert SortedPlayers(players) == SortBy(players, NegatedScore);
  }

  /** `showTopCount`, which defaults to 5. */
  function TopCount(showTopCount: Option<int>): int
  {
    if showTopCount.Some? then showTopCount.value else DefaultTopCount
  }

  /** `sortedPlayers.slice(0, showTopCount)`. */
  function TopPlayers(players: seq<Player>, showTopCount: Option<int>): (r: seq<Player>)
    ensures r <= SortedPlayers(players)
    ensures TopCount(showTopCount) >= 0 ==>
              |r| == if TopCount(showTopCount) < |players| then TopCount(showTopCount) else |players|
  {
    SliceTo(SortedPlayers(players), TopCount(showTopCount))
  }

  /** Without a count the panel shows at most five rows, and fewer only when there are fewer players. */
  lemma DefaultTopFive(players: seq<Player>)
    ensures |TopPlayers(players, None)| == if |players| < 5 then |players| else 5
    ensures forall i, j :: 0 <= i < j < |TopPlayers(players, None)| ==>
              TopPlayers(players, None)[i].score >= TopPlayers(players, None)[j].score
  {
    var top := TopPlayers(players, None);
    var sorted := SortedPlayers(players);
    assert forall i :: 0 <= i < |top| ==> top[i] == sorted[i];
  }

  /** What a top row shows in its rank circle. */
  datatype Badge = Trophy | SilverMedal | BronzeMedal | Number(n: int)

  /** `getMedalIcon(index) || index + 1`. */
  function BadgeFor(index: int): (b: Badge)
    ensures b.Number? <==> index < 0 || index > 2
    ensures b.Number? ==> b.n == index + 1
    ensures b == Trophy <==> index == 0
    ensures b == SilverMedal <==> index == 1
    ensures b == BronzeMedal <==> index == 2
  {
    if index == 0 then Trophy
    else if index == 1 then SilverMedal
    else if index == 2 then BronzeMedal
    else Number(index + 1)
  }

  predicate HasId(p: Player, id: string) { p.id == id }

  /**
   * `sortedPlayers.findIndex(p => p.id === id) + 1`: the 1-based place of
   * the first player with the id in the ranking, 0 when nobody has it.
   */
  function Rank(players: seq<Player>, id: string): (r: int)
    ensures 0 <= r <= |players|
    ensures r == 0 <==> forall i :: 0 <= i < |players| ==> players[i].id != id
    ensures r > 0 ==> SortedPlayers(players)[r - 1].id == id
    ensures r > 0 ==> forall k :: 0 <= k < r - 1 ==> SortedPlayers(players)[k].id != id
    ensures r > 0 ==> forall k :: 0 <= k < |players| ==>
              (k < r - 1 ==> SortedPlayers(players)[k].score >= SortedPlayers(players)[r - 1].score) &&
              (k > r - 1 ==> SortedPlayers(players)[k].score <= SortedPlayers(players)[r - 1].score)
  {
    var sorted := SortedPlayers(players);
    var k := FindIndex(sorted, (p: Player) => p.id == id);
    SameElements(sorted, players);
    if k == -1 then
      assert forall i :: 0 <= i < |players| ==> players[i].id != id by {
        forall i | 0 <= i < |players| ensures players[i].id != id {
          assert players[i] in sorted;
        }
      }
      0
    else
      assert sorted[k] in players;
      k + 1
  }

  /** A player who outscores everybody else is ranked first. */
  lemma UniqueLeaderRanksFirst(players: seq<Player>, leader: nat)
    requires leader < |players|
    requires forall k :: 0 <= k < |players| && players[k].id != players[leader].id ==>
               players[k].score < players[leader].score
    ensures Rank(players, players[leader].id) == 1
  {
    var sorted := SortedPlayers(players);
    assert players[leader] in multiset(sorted);
    var p :| 0 <= p < |sorted| && sorted[p] == players[leader];
    assert sorted[0] in multiset(players);
    var k :| 0 <= k < |players| && players[k] == sorted[0];
    assert sorted[0].score >= players[leader].score by {
      if p > 0 {
        assert sorted[0].score >= sorted[p].score;
      }
    }
    assert sorted[0].id == players[leader].id;
  }

  /** `topPlayers.some(p => p.id === id)`. */
  predicate InTop(players: seq<Player>, id: string, showTopCount: Option<int>)
  {
    exists i :: 0 <= i < |TopPlayers(players, showTopCount)| && TopPlayers(players, showTopCount)[i].id == id
  }

  /**
   * The separate "(You)" row: shown only for a non-empty player id that is
   * not among the top rows and that some player has; it carries that
   * player and their rank, which is below every top row.
   */
  function OwnRow(players: seq<Player>, currentPlayerId: Option<string>, showTopCount: Option<int>): (r: Option<(Player, int)>)
    ensures r.Some? <==>
              && currentPlayerId.Some? && currentPlayerId.value != ""
              && !InTop(players, currentPlayerId.value, showTopCount)
              && Rank(players, currentPlayerId.value) > 0
    ensures r.Some? ==> r.value.0.id == currentPlayerId.value && r.value.0 in players
    ensures r.Some? ==> r.value.1 == Rank(players, currentPlayerId.value)
    ensures r.Some? ==> 0 < r.value.1 <= |SortedPlayers(players)| && r.value.0 == SortedPlayers(players)[r.value.1 - 1]
    ensures r.Some? ==> r.value.1 > |TopPlayers(players, showTopCount)|
  {
    if currentPlayerId.None? || currentPlayerId.value == "" || InTop(players, currentPlayerId.value, showTopCount) then None
    else
      var rank := Rank(players, currentPlayerId.value);
      if rank == 0 then None
      else
        var sorted := SortedPlayers(players);
        var top := TopPlayers(players, showTopCount);
        assert sorted[rank - 1] in multiset(players);
        assert rank - 1 >= |top|;
        Some((sorted[rank - 1], rank))
  }

  /** The "(You)" row appears exactly when some player has the id and none of the top rows does. */
  lemma OwnRowShownIff(players: seq<Player>, currentPlayerId: string, showTopCount: Option<int>)
    requires currentPlayerId != ""
    ensures OwnRow(players, Some(currentPlayerId), showTopCount).Some? <==>
              && (exists i :: 0 <= i < |players| && players[i].id == currentPlayerId)
              && (forall i :: 0 <= i < |TopPlayers(players, showTopCount)| ==>
                    TopPlayers(players, showTopCount)[i].id != currentPlayerId)
  {
  }
}
