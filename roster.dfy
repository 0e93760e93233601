/** The roster step of scripts/fetch_data.py (`get_player_list`): the rows of
    the all-players query are narrowed to those whose `ROSTERSTATUS` is 1 and
    each is turned into a player id and display name, in query order. */
module Roster {
  import opened Wrappers

  /** One row of the roster query, reduced to the three columns the script reads. */
  datatype RosterRow = RosterRow(personId: int, displayFirstLast: string, rosterStatus: int)

  /** The `{'player_id': ..., 'player_name': ...}` dictionaries of `player_list`. */
  datatype Player = Player(id: int, name: string)

  /** What the roster query gives back: its rows, or the failure that ends the run. */
  datatype RosterResponse = RosterRows(rows: seq<RosterRow>) | RosterFailure(reason: string)

  /** The mask `players_data['ROSTERSTATUS'] == 1`. */
  predicate IsRostered(row: RosterRow) {
    row.rosterStatus == 1
  }

  function ToPlayer(row: RosterRow): (p: Player)
    ensures p.id == row.personId && p.name == row.displayFirstLast
  {
    Player(row.personId, row.displayFirstLast)
  }

  /** `players_data[players_data['ROSTERSTATUS'] == 1]` followed by the list
      comprehension over its rows. */
  function ActivePlayers(rows: seq<RosterRow>): (players: seq<Player>)
    ensures |players| <= |rows|
  {
    if rows == [] then []
    else (if IsRostered(rows[0]) then [ToPlayer(rows[0])] else []) + ActivePlayers(rows[1..])
  }

  /** The roster of a concatenation is the concatenation of the rosters: the
      output keeps the rows' order. */
  lemma {:induction false} ActivePlayersAppend(a: seq<RosterRow>, b: seq<RosterRow>)
    ensures ActivePlayers(a + b) == ActivePlayers(a) + ActivePlayers(b)
  {
    if a == [] {
      assert a + b == b;
    } else {
      var head := if IsRostered(a[0]) then [ToPlayer(a[0])] else [];
      assert (a + b)[0] == a[0];
      assert (a + b)[1..] == a[1..] + b;
      assert ActivePlayers(a + b) == head + ActivePlayers(a[1..] + b);
      ActivePlayersAppend(a[1..], b);
      assert ActivePlayers(a) == head + ActivePlayers(a[1..]);
    }
  }

  /** A single row contributes its player exactly when it is rostered. */
  lemma ActivePlayersSingle(row: RosterRow)
    ensures ActivePlayers([row]) == if IsRostered(row) then [ToPlayer(row)] else []
  {
  }

  /** The players listed are exactly the rostered rows, mapped. */
  lemma {:induction false} ActivePlayersMembership(rows: seq<RosterRow>, p: Player)
    ensures p in ActivePlayers(rows) <==> exists i :: 0 <= i < |rows| && IsRostered(rows[i]) && ToPlayer(rows[i]) == p
  {
    if rows != [] {
      ActivePlayersMembership(rows[1..], p);
      if p in ActivePlayers(rows[1..]) {
        var i :| 0 <= i < |rows[1..]| && IsRostered(rows[1..][i]) && ToPlayer(rows[1..][i]) == p;
        assert rows[i + 1] == rows[1..][i];
      }
      if exists i :: 0 <= i < |rows| && IsRostered(rows[i]) && ToPlayer(rows[i]) == p {
        var i :| 0 <= i < |rows| && IsRostered(rows[i]) && ToPlayer(rows[i]) == p;
        if i > 0 {
          assert rows[1..][i - 1] == rows[i];
        }
      }
    }
  }

  /** `get_player_list`: a failed roster query propagates as an error; otherwise
      the rostered players are returned. */
  function GetPlayerList(response: RosterResponse): (r: Result<seq<Player>, string>)
    ensures r.Err? <==> response.RosterFailure?
    ensures r.Ok? ==> r.value == ActivePlayers(response.rows)
  {
    match response
    case RosterFailure(reason) => Err(reason)
    case RosterRows(rows) => Ok(ActivePlayers(rows))
  }
}
