/** The collection loop of `fetch_three_point_data` in scripts/fetch_data.py:
    players are visited in roster order, each player's shots are fetched and
    filtered, every non-empty filtered table is appended to a list, and the
    list is concatenated at the end. */
module Aggregate {
  import opened Wrappers
  import opened Roster
  import opened Shots

  /** The shot-chart service for the season being fetched: a player id to
      that player's query response. */
  type ShotApi = int -> ShotResponse

  /** One player's filtered table, as the loop computes it. */
  function PlayerThreePointers(player: Player, api: ShotApi): seq<Shot> {
    ThreePointers(PlayerShots(api(player.id), player.name))
  }

  /** The contents of `all_three_pointers` once `players` have been visited:
      the non-empty filtered tables, in player order. */
  function Collected(players: seq<Player>, api: ShotApi): seq<seq<Shot>> {
    if players == [] then []
    else
      var t := PlayerThreePointers(players[0], api);
      (if t == [] then [] else [t]) + Collected(players[1..], api)
  }

  /** `pd.concat` of a list of tables, row order kept. */
  function Concat(tables: seq<seq<Shot>>): seq<Shot> {
    if tables == [] then [] else tables[0] + Concat(tables[1..])
  }

  /** The table `fetch_three_point_data` returns for a roster. */
  function Aggregated(players: seq<Player>, api: ShotApi): seq<Shot> {
    Concat(Collected(players, api))
  }

  /** The sum of the players' filtered row counts. */
  function TotalThreePointers(players: seq<Player>, api: ShotApi): nat {
    if players == [] then 0
    else |PlayerThreePointers(players[0], api)| + TotalThreePointers(players[1..], api)
  }

  lemma {:induction false} ConcatAppend(a: seq<seq<Shot>>, b: seq<seq<Shot>>)
    ensures Concat(a + b) == Concat(a) + Concat(b)
  {
    if a == [] {
      assert a + b == b;
    } else {
      assert (a + b)[0] == a[0];
      assert (a + b)[1..] == a[1..] + b;
      ConcatAppend(a[1..], b);
    }
  }

  lemma {:induction false} CollectedAppend(a: seq<Player>, b: seq<Player>, api: ShotApi)
    ensures Collected(a + b, api) == Collected(a, api) + Collected(b, api)
  {
    if a == [] {
      assert a + b == b;
    } else {
      var ab := a + b;
      assert ab[0] == a[0];
      assert ab[1..] == a[1..] + b;
      CollectedAppend(a[1..], b, api);
    }
  }

  /** Only non-empty tables are ever appended to the list. */
  lemma {:induction false} CollectedNonEmpty(players: seq<Player>, api: ShotApi)
    ensures forall t :: t in Collected(players, api) ==> t != []
  {
    if players != [] {
      CollectedNonEmpty(players[1..], api);
    }
  }

  /** One player leaves one table in the list when their filtered table is
      non-empty, and nothing otherwise. */
  lemma CollectedSingle(player: Player, api: ShotApi)
    ensures var t := PlayerThreePointers(player, api);
      Collected([player], api) == if t == [] then [] else [t]
  {
    assert [player][1..] == [];
  }

  /** One more turn of the loop: the list grows by the next player's table
      when it is non-empty. */
  lemma CollectedStep(players: seq<Player>, i: nat, api: ShotApi)
    requires i < |players|
    ensures var t := PlayerThreePointers(players[i], api);
      Collected(players[..i + 1], api) == Collected(players[..i], api) + (if t == [] then [] else [t])
  {
    assert players[..i + 1] == players[..i] + [players[i]];
    CollectedAppend(players[..i], [players[i]], api);
    CollectedSingle(players[i], api);
  }

  /** The aggregate of a concatenated roster is the concatenation of the
      aggregates: rows follow the roster order, then each player's own order. */
  lemma AggregatedAppend(a: seq<Player>, b: seq<Player>, api: ShotApi)
    ensures Aggregated(a + b, api) == Aggregated(a, api) + Aggregated(b, api)
  {
    CollectedAppend(a, b, api);
    ConcatAppend(Collected(a, api), Collected(b, api));
  }

  /** A single player contributes exactly their filtered table. */
  lemma AggregatedSingle(player: Player, api: ShotApi)
    ensures Aggregated([player], api) == PlayerThreePointers(player, api)
  {
    var t := PlayerThreePointers(player, api);
    CollectedSingle(player, api);
    if t != [] {
      assert Concat([t]) == t + Concat([]);
    }
  }

  /** The aggregate is the per-player filtered tables concatenated in roster
      order, and its length is the sum of their lengths. */
  lemma {:induction false} AggregatedLength(players: seq<Player>, api: ShotApi)
    ensures |Aggregated(players, api)| == TotalThreePointers(players, api)
  {
    if players != [] {
      assert players == [players[0]] + players[1..];
      AggregatedAppend([players[0]], players[1..], api);
      AggregatedSingle(players[0], api);
      AggregatedLength(players[1..], api);
    }
  }

  /** A row of a player's filtered table is one of that player's fetched rows
      with the three-point marker, carrying the player's name; and every such
      row is there. */
  lemma PlayerThreePointersMembership(player: Player, api: ShotApi, x: Shot)
    ensures x in PlayerThreePointers(player, api) <==>
      api(player.id).ShotRows? &&
      exists j :: 0 <= j < |api(player.id).rows| &&
        IsThreePointer(api(player.id).rows[j]) && x == api(player.id).rows[j].(playerName := player.name)
  {
    var response := api(player.id);
    if response.ShotRows? {
      var tagged := Tagged(response.rows, player.name);
      if x in tagged {
        var j :| 0 <= j < |tagged| && tagged[j] == x;
        assert response.rows[j].shotType == x.shotType;
      }
      if exists j :: 0 <= j < |response.rows| &&
          IsThreePointer(response.rows[j]) && x == response.rows[j].(playerName := player.name) {
        var j :| 0 <= j < |response.rows| &&
          IsThreePointer(response.rows[j]) && x == response.rows[j].(playerName := player.name);
        assert tagged[j] == x;
      }
    }
  }

  /** A row is in the aggregate exactly when it is in some player's filtered table. */
  lemma {:induction false} AggregatedMembership(players: seq<Player>, api: ShotApi, x: Shot)
    ensures x in Aggregated(players, api) <==>
      exists i :: 0 <= i < |players| && x in PlayerThreePointers(players[i], api)
  {
    if players != [] {
      assert players == [players[0]] + players[1..];
      AggregatedAppend([players[0]], players[1..], api);
      AggregatedSingle(players[0], api);
      AggregatedMembership(players[1..], api, x);
      if exists i :: 0 <= i < |players| && x in PlayerThreePointers(players[i], api) {
        var i :| 0 <= i < |players| && x in PlayerThreePointers(players[i], api);
        if i > 0 {
          assert players[1..][i - 1] == players[i];
        }
      }
      if x in Aggregated(players[1..], api) {
        var i :| 0 <= i < |players[1..]| && x in PlayerThreePointers(players[1..][i], api);
        assert players[i + 1] == players[1..][i];
      }
    }
  }

  /** Every row of the aggregate is a three-point attempt. */
  lemma AggregatedOnlyThreePointers(players: seq<Player>, api: ShotApi)
    ensures forall x :: x in Aggregated(players, api) ==> IsThreePointer(x)
  {
    forall x | x in Aggregated(players, api)
      ensures IsThreePointer(x)
    {
      AggregatedMembership(players, api, x);
    }
  }

  /** The aggregate is empty exactly when no player has a matching row. */
  lemma AggregatedEmpty(players: seq<Player>, api: ShotApi)
    ensures Aggregated(players, api) == [] <==>
      forall i :: 0 <= i < |players| ==> PlayerThreePointers(players[i], api) == []
  {
    AggregatedLength(players, api);
    if Aggregated(players, api) != [] {
      var x := Aggregated(players, api)[0];
      AggregatedMembership(players, api, x);
    } else {
      forall i | 0 <= i < |players|
        ensures PlayerThreePointers(players[i], api) == []
      {
        var t := PlayerThreePointers(players[i], api);
        if t != [] {
          AggregatedMembership(players, api, t[0]);
        }
      }
    }
  }

  /** A player whose fetch fails has an empty filtered table. */
  lemma FailedFetchContributesNothing(failed: Player, api: ShotApi)
    requires api(failed.id).FetchError?
    ensures PlayerThreePointers(failed, api) == []
  {
    assert PlayerShots(api(failed.id), failed.name) == [];
  }

  /** A player whose fetch fails contributes nothing and changes nothing
      about the others: inserting them anywhere leaves the aggregate as it was. */
  lemma FailureIsolated(before: seq<Player>, failed: Player, after: seq<Player>, api: ShotApi)
    requires api(failed.id).FetchError?
    ensures Aggregated(before + [failed] + after, api) == Aggregated(before + after, api)
  {
    FailedFetchContributesNothing(failed, api);
    AggregatedSingle(failed, api);
    AggregatedAppend(before, [failed], api);
    AggregatedAppend(before + [failed], after, api);
    AggregatedAppend(before, after, api);
  }

  /** Two players, the first with one three-point attempt and the second
      whose fetch fails: the aggregate is that one attempt, under the first
      player's name. */
  lemma OneFetchFailsOneSucceeds(a: Player, b: Player, shot: Shot, api: ShotApi)
    requires api(a.id) == ShotRows([shot]) && IsThreePointer(shot)
    requires api(b.id).FetchError?
    ensures Aggregated([a, b], api) == [shot.(playerName := a.name)]
  {
    FailureIsolated([a], b, [], api);
    assert [a] + [b] + [] == [a, b];
    assert [a] + [] == [a];
    AggregatedSingle(a, api);
    assert Tagged([shot], a.name) == [shot.(playerName := a.name)];
  }

  /** `fetch_three_point_data`: the roster is fetched (a failure propagates),
      then each player is fetched, filtered and appended in turn, with one
      rate-limiting sleep per player whatever the fetch gave. `requests`
      counts the service calls, `sleeps` the sleeps. */
  method FetchThreePointData(roster: RosterResponse, api: ShotApi)
    returns (r: Result<seq<Shot>, string>, ghost requests: nat, ghost sleeps: nat)
    ensures r.Err? <==> roster.RosterFailure?
    ensures r.Ok? ==> r.value == Aggregated(ActivePlayers(roster.rows), api)
    ensures requests == 1 + sleeps
    ensures sleeps == if roster.RosterRows? then |ActivePlayers(roster.rows)| else 0
  {
    requests, sleeps := 1, 0;
    var playerList := GetPlayerList(roster);
    if playerList.Err? {
      return Err(playerList.error), requests, sleeps;
    }
    var players := playerList.value;
    var allThreePointers: seq<seq<Shot>> := [];
    for i := 0 to |players|
      invariant allThreePointers == Collected(players[..i], api)
      invariant requests == 1 + i && sleeps == i
    {
      var player := players[i];
      var shots := GetPlayerShots(player, api(player.id));
      requests := requests + 1;
      if |shots| > 0 {
        var threePointers := ThreePointers(shots);
        if |threePointers| > 0 {
          allThreePointers := allThreePointers + [threePointers];
        }
      }
      sleeps := sleeps + 1;
      CollectedStep(players, i, api);
    }
    assert players[..|players|] == players;
    if |allThreePointers| > 0 {
      r := Ok(Concat(allThreePointers));
    } else {
      r := Ok([]);
    }
  }
}
