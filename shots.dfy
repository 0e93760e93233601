/** Per-player shot fetching and the three-point filter of
    scripts/fetch_data.py (`get_player_shots` and the filter inside
    `fetch_three_point_data`). */
module Shots {
  import opened Roster

  /** The `SHOT_TYPE` value of a three-point attempt. */
  const ThreePointFieldGoal := "3PT Field Goal"

  /** Columns of a shot row that the script never looks at; they stand for
      the rest of the shot chart's schema and are carried through unchanged. */
  datatype ShotDetails = ShotDetails(locX: int, locY: int, made: bool)

  /** One row of a shot chart: `PLAYER_NAME`, `SHOT_TYPE` and the rest. */
  datatype Shot = Shot(playerName: string, shotType: string, details: ShotDetails)

  /** What the shot-chart query for one player gives: its rows (possibly
      none), or a failure of any kind (network, response, API). */
  datatype ShotResponse = ShotRows(rows: seq<Shot>) | FetchError(reason: string)

  /** The exact-equality test `shots_df['SHOT_TYPE'] == '3PT Field Goal'`. */
  predicate IsThreePointer(shot: Shot) {
    shot.shotType == ThreePointFieldGoal
  }

  /** A table after `shots_df['PLAYER_NAME'] = player_name`: the name column
      of every row is set and no other column is touched. */
  function Tagged(rows: seq<Shot>, name: string): (r: seq<Shot>)
    ensures |r| == |rows|
    ensures forall i :: 0 <= i < |rows| ==>
      r[i].playerName == name && r[i].shotType == rows[i].shotType && r[i].details == rows[i].details
  {
    seq(|rows|, i requires 0 <= i < |rows| => rows[i].(playerName := name))
  }

  /** The column assignment of line 93, done in place on the table. */
  method TagPlayerName(table: array<Shot>, name: string)
    modifies table
    ensures table[..] == Tagged(old(table[..]), name)
  {
    for i := 0 to table.Length
      invariant forall k :: 0 <= k < i ==> table[k] == old(table[k]).(playerName := name)
      invariant forall k :: i <= k < table.Length ==> table[k] == old(table[k])
    {
      table[i] := table[i].(playerName := name);
    }
  }

  /** What `get_player_shots` returns for a query response: the tagged rows,
      or an empty table when the query failed. */
  function PlayerShots(response: ShotResponse, name: string): (r: seq<Shot>)
    ensures response.FetchError? ==> r == []
    ensures response.ShotRows? ==> |r| == |response.rows|
    ensures response.ShotRows? ==> forall i :: 0 <= i < |r| ==>
      r[i].playerName == name && r[i].shotType == response.rows[i].shotType &&
      r[i].details == response.rows[i].details
  {
    match response
    case FetchError(_) => []
    case ShotRows(rows) => Tagged(rows, name)
  }

  /** `get_player_shots`: a failure is caught and becomes an empty table; a
      non-empty table gets the player's name in every row. */
  method GetPlayerShots(player: Player, response: ShotResponse) returns (shots: seq<Shot>)
    ensures shots == PlayerShots(response, player.name)
    ensures response.FetchError? ==> shots == []
    ensures forall i :: 0 <= i < |shots| ==> shots[i].playerName == player.name
  {
    match response
    case FetchError(_) =>
      shots := [];
    case ShotRows(rows) =>
      if |rows| == 0 {
        shots := rows;
      } else {
        var table := new Shot[|rows|](i requires 0 <= i < |rows| => rows[i]);
        TagPlayerName(table, player.name);
        shots := table[..];
      }
  }

  /** `shots_df[shots_df['SHOT_TYPE'] == '3PT Field Goal']`: the rows whose
      shot type is exactly the three-point marker, in their original order. */
  function ThreePointers(rows: seq<Shot>): (r: seq<Shot>)
    ensures |r| <= |rows|
    ensures forall x :: x in r <==> x in rows && IsThreePointer(x)
  {
    if rows == [] then []
    else (if IsThreePointer(rows[0]) then [rows[0]] else []) + ThreePointers(rows[1..])
  }

  /** Filtering a concatenation filters each part and keeps their order. */
  lemma {:induction false} ThreePointersAppend(a: seq<Shot>, b: seq<Shot>)
    ensures ThreePointers(a + b) == ThreePointers(a) + ThreePointers(b)
  {
    if a == [] {
      assert a + b == b;
    } else {
      var head := if IsThreePointer(a[0]) then [a[0]] else [];
      assert (a + b)[0] == a[0];
      assert (a + b)[1..] == a[1..] + b;
      assert ThreePointers(a + b) == head + ThreePointers(a[1..] + b);
      ThreePointersAppend(a[1..], b);
      assert ThreePointers(a) == head + ThreePointers(a[1..]);
    }
  }

  /** Tagging does not change the shot type, so filtering before or after
      tagging gives the same rows. */
  lemma {:induction false} ThreePointersOfTagged(rows: seq<Shot>, name: string)
    ensures ThreePointers(Tagged(rows, name)) == Tagged(ThreePointers(rows), name)
  {
    if rows != [] {
      var head := if IsThreePointer(rows[0]) then [rows[0]] else [];
      assert Tagged(rows, name)[1..] == Tagged(rows[1..], name);
      ThreePointersOfTagged(rows[1..], name);
      assert Tagged(head + ThreePointers(rows[1..]), name)
          == Tagged(head, name) + Tagged(ThreePointers(rows[1..]), name);
    }
  }

  /** The match is exact: no other spelling, case or extension of the marker
      is a three-point attempt. */
  lemma ThreePointerMarkerIsExact(d: ShotDetails, name: string)
    ensures IsThreePointer(Shot(name, "3PT Field Goal", d))
    ensures !IsThreePointer(Shot(name, "2PT Field Goal", d))
    ensures !IsThreePointer(Shot(name, "3pt field goal", d))
    ensures !IsThreePointer(Shot(name, "3PT", d))
    ensures !IsThreePointer(Shot(name, "3PT Field Goal Attempt", d))
  {
  }
}
