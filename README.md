# NBA three-point data collection, modelled in Dafny

This project models the logic of `scripts/fetch_data.py`, a script that
collects every three-point field-goal attempt of one NBA season from a
statistics service and saves it as one table. The model covers four pieces:

- **Season validation** (`validate_season_format`), in module `Season`. A
  season is written `YYYY-YY`. The two-digit part must name the year after
  the four-digit one. The validator returns the input unchanged or raises
  one of two errors: wrong shape (`BadFormat`) or years not consecutive
  (`NotConsecutive`). `SeasonName(y)` is a separate reference definition of
  what a season string means. The lemmas compare the validator against it.
- **Output file name** (`main`, lines 261-262), in module `OutputPath`. The
  hyphen becomes an underscore inside `nba_3pt_<season>.parquet`, under
  `data/raw/`.
- **Roster filter** (`get_player_list`), in module `Roster`. Roster rows with
  `ROSTERSTATUS == 1` become `(id, name)` players, in query order.
- **Fetch, tag, filter and aggregate** (`get_player_shots` and
  `fetch_three_point_data`), in modules `Shots` and `Aggregate`.
  - A player's fetch either returns rows or fails. A failure becomes an
    empty table.
  - Every row of a non-empty table gets the player's name. The
    `PLAYER_NAME` column is overwritten in place on an array.
  - The rows whose `SHOT_TYPE` is exactly `3PT Field Goal` are kept.
  - Each non-empty filtered table is appended to a list, and the list is
    concatenated at the end.

The specification functions `Collected` (the list `all_three_pointers`
after some players), `Concat` (`pd.concat`) and `Aggregated` (the returned
table) define the loop's result. The method `FetchThreePointData` runs the
loop and is proved to compute `Aggregated`.

Module `Pipeline` models `main` and the `--season` argument check.
`Pipeline.Run` validates the season, derives the path, collects the table,
and saves it only if it is non-empty.

The statistics service is an input. The roster query is a `RosterResponse`
(rows or failure). The shot-chart query is a function `ShotApi` from a
player id to a `ShotResponse` (rows or failure). Requests and rate-limiting
sleeps are counted in ghost out-parameters.

## Model

| member | source | states |
|---|---|---|
| `Season.Decimal` | scripts/fetch_data.py:207-208 | `int()` of a digit string: its value is below 10 to the power of the string's length |
| `Season.HasShape` | scripts/fetch_data.py:199-203 | the pattern `^\d{4}-\d{2}$`: seven characters, four digits, a hyphen, two digits |
| `Season.StartYear` | scripts/fetch_data.py:205-207 | `int(years[0])` of a string of the right shape, a year below 10000 |
| `Season.EndYear` | scripts/fetch_data.py:205-208 | `int(years[1])` of a string of the right shape, a number below 100 |
| `Season.ValidateSeason` | scripts/fetch_data.py:180-216 | an accepted string is returned unchanged; a string not of the `dddd-dd` shape is rejected as a format error, before any year is read |
| `Season.ValidateSeasonShaped` | scripts/fetch_data.py:205-214 | a string of the right shape is accepted exactly when its suffix equals the start year mod 100 plus 1, and otherwise rejected as non-consecutive |
| `Season.ValidateSeasonAcceptsSeasonName` | scripts/fetch_data.py:205-216 | the name of every season whose start year does not end in 99 is accepted and returned unchanged |
| `Season.ValidateSeasonAcceptsOnlySeasonNames` | scripts/fetch_data.py:199-216 | everything accepted is the name of a season (year, hyphen, last two digits of the next year) whose start year does not end in 99 |
| `Season.ValidateSeasonRejectsCenturyTurn` | scripts/fetch_data.py:209-211 | a season starting in a year that ends in 99 is always rejected as non-consecutive, because the expected suffix is 100 |
| `Season.ValidateSeasonAcceptsExample` | scripts/fetch_data.py:205-216 | "2024-25" is accepted and returned unchanged |
| `Season.ValidateSeasonRejectsExamples` | scripts/fetch_data.py:205-214 | "2024-26" and "2024-24" are rejected as non-consecutive |
| `Season.ValidateSeasonRejectsCenturyExample` | scripts/fetch_data.py:209-214 | "2099-00" is rejected as non-consecutive |
| `Season.ValidateSeasonShapeExamples` | scripts/fetch_data.py:199-203 | "abcd-ef", "24-25" and "2024-5" are rejected as format errors |
| `Season.DecimalOfDigits` | scripts/fetch_data.py:207-208 | `int()` of a zero-padded decimal rendering gives back the number |
| `Season.DigitsOfDecimal` | scripts/fetch_data.py:207-208 | re-rendering `int()` of a digit string at its own width gives back the string |
| `Season.ShapeIsYears` | scripts/fetch_data.py:206-208 | a string of the right shape is exactly its start year in four digits, a hyphen and its end year in two digits |
| `Season.SeasonNameIsYears` | scripts/fetch_data.py:206-211 | a string of the right shape whose end year is the last two digits of the year after its start year is that season's name |
| `Season.ValidateSeasonIntended` | scripts/fetch_data.py:205-216 | corrected validator: an accepted string is returned unchanged; a string of the wrong shape is a format error |
| `Season.ValidateSeasonIntendedAcceptsSeasonName` | scripts/fetch_data.py:205-216 | the corrected validator accepts the name of every season, "1999-00" included |
| `Season.ValidateSeasonIntendedAcceptsOnlySeasonNames` | scripts/fetch_data.py:199-216 | the corrected validator accepts nothing but season names |
| `Season.ValidatorsAgreeOffCenturyTurn` | scripts/fetch_data.py:209-211 | the script's validator and the corrected one give the same answer on every input except seasons starting in a year ending in 99 |
| `Season.CenturyTurnSeasonRejected` | scripts/fetch_data.py:209-211 | "1999-00" is the name of the 1999 season, and the script's validator rejects it |
| `Season.CenturyTurnSeasonAccepted` | scripts/fetch_data.py:209-211 | the corrected validator accepts "1999-00" |
| `OutputPath.ReplaceChar` | scripts/fetch_data.py:261 | `str.replace` of one character: same length, every occurrence replaced, every other character kept in place |
| `OutputPath.OutputFileName` | scripts/fetch_data.py:261 | the file name is `nba_3pt_`, then the season with every hyphen turned into an underscore and every other character kept, then `.parquet` |
| `OutputPath.OutputFilePath` | scripts/fetch_data.py:261-262 | the path is the file name under `data/raw/` |
| `OutputPath.OutputFileNameOfSeason` | scripts/fetch_data.py:261-262 | for a season `YYYY-YY` the file name is `nba_3pt_YYYY_YY.parquet` |
| `OutputPath.SeasonOfOutputFileName` | scripts/fetch_data.py:261-262 | the season can be read back from its file name |
| `OutputPath.OutputFileNameInjective` | scripts/fetch_data.py:261-262 | two different seasons never share an output file |
| `Roster.IsRostered` | scripts/fetch_data.py:46 | a roster row is kept exactly when its `ROSTERSTATUS` equals 1 |
| `Roster.ToPlayer` | scripts/fetch_data.py:49-52 | a player takes `PERSON_ID` as id and `DISPLAY_FIRST_LAST` as name |
| `Roster.ActivePlayers` | scripts/fetch_data.py:46-54 | the `ROSTERSTATUS == 1` filter and the comprehension over its rows; never more players than rows |
| `Roster.ActivePlayersAppend` | scripts/fetch_data.py:46-54 | the roster filter maps a concatenation of rows to the concatenation of the results, so input order is kept |
| `Roster.ActivePlayersSingle` | scripts/fetch_data.py:46-54 | a single row yields its player exactly when `ROSTERSTATUS` is 1 |
| `Roster.ActivePlayersMembership` | scripts/fetch_data.py:46-54 | a player is listed exactly when some row with `ROSTERSTATUS` 1 maps to it |
| `Roster.GetPlayerList` | scripts/fetch_data.py:22-57 | a failed roster query is an error; otherwise the result is the filtered roster |
| `Shots.Tagged` | scripts/fetch_data.py:93 | tagging keeps the row count, sets the name in every row and leaves the shot type and other columns unchanged |
| `Shots.TagPlayerName` | scripts/fetch_data.py:93 | the in-place column assignment leaves the array equal to the tagged table |
| `Shots.PlayerShots` | scripts/fetch_data.py:60-99 | what `get_player_shots` returns: a failed fetch is an empty table; otherwise every fetched row, in order, with the player's name and its other columns unchanged |
| `Shots.GetPlayerShots` | scripts/fetch_data.py:60-99 | a failed fetch yields an empty table; otherwise the rows come back tagged, and every row carries the player's name |
| `Shots.IsThreePointer` | scripts/fetch_data.py:142 | a row is a three-point attempt exactly when its `SHOT_TYPE` equals `3PT Field Goal` |
| `Shots.ThreePointers` | scripts/fetch_data.py:142 | the filter keeps a row exactly when it is in the input and its shot type equals `3PT Field Goal`, and never adds rows |
| `Shots.ThreePointersAppend` | scripts/fetch_data.py:142 | filtering a concatenation is the concatenation of the filtered parts, in order |
| `Shots.ThreePointersOfTagged` | scripts/fetch_data.py:91-142 | filtering the tagged table equals tagging the filtered table |
| `Shots.ThreePointerMarkerIsExact` | scripts/fetch_data.py:142 | `3PT Field Goal` is kept; `2PT Field Goal`, lower-case, shortened and extended variants are not |
| `Aggregate.PlayerThreePointers` | scripts/fetch_data.py:137-142 | one player's filtered table `three_pointers`: the result of `get_player_shots` for that player's response, keeping only the rows whose shot type is `3PT Field Goal` |
| `Aggregate.Collected` | scripts/fetch_data.py:132-145 | the list `all_three_pointers` after some players: each player's filtered table, in roster order, when it is non-empty |
| `Aggregate.Concat` | scripts/fetch_data.py:151-152 | `pd.concat` of a list of tables: the rows of each table in turn |
| `Aggregate.Aggregated` | scripts/fetch_data.py:127-157 | the table `fetch_three_point_data` returns: the concatenation of the collected tables, empty when none was collected |
| `Aggregate.ConcatAppend` | scripts/fetch_data.py:151-152 | concatenating two lists of tables is concatenating their concatenations |
| `Aggregate.CollectedAppend` | scripts/fetch_data.py:132-145 | the list of tables for two runs of players is the two lists one after the other |
| `Aggregate.CollectedNonEmpty` | scripts/fetch_data.py:144-145 | only non-empty tables are appended to the list |
| `Aggregate.CollectedStep` | scripts/fetch_data.py:132-145 | one turn of the loop extends the list by the next player's filtered table exactly when that table is non-empty |
| `Aggregate.CollectedSingle` | scripts/fetch_data.py:137-145 | one player adds their filtered table when it is non-empty, and nothing otherwise |
| `Aggregate.AggregatedAppend` | scripts/fetch_data.py:132-157 | the result for a concatenated roster is the concatenation of the results: roster order first, then each player's own row order |
| `Aggregate.AggregatedSingle` | scripts/fetch_data.py:132-157 | a single player's result is exactly their filtered table |
| `Aggregate.AggregatedLength` | scripts/fetch_data.py:132-157 | the result's length is the sum of the per-player filtered counts |
| `Aggregate.PlayerThreePointersMembership` | scripts/fetch_data.py:78-145 | a row of a player's filtered table is one of that player's fetched three-point rows with the player's name, and every such row is there; a failed fetch contributes none |
| `Aggregate.AggregatedMembership` | scripts/fetch_data.py:132-157 | a row is in the result exactly when it is in some player's filtered table |
| `Aggregate.AggregatedOnlyThreePointers` | scripts/fetch_data.py:142-157 | every row of the result has shot type exactly `3PT Field Goal` |
| `Aggregate.AggregatedEmpty` | scripts/fetch_data.py:151-157 | the result is empty exactly when no player has a matching row |
| `Aggregate.FailedFetchContributesNothing` | scripts/fetch_data.py:97-99 | a player whose fetch fails has an empty filtered table |
| `Aggregate.FailureIsolated` | scripts/fetch_data.py:97-148 | inserting a player whose fetch fails anywhere in the roster leaves the result unchanged |
| `Aggregate.OneFetchFailsOneSucceeds` | scripts/fetch_data.py:132-157 | with players A (one three-point row) and B (failed fetch), the result is A's row under A's name |
| `Aggregate.FetchThreePointData` | scripts/fetch_data.py:102-157 | a failed roster query is an error; otherwise the result is the aggregate of the rostered players; one request for the roster and one per player; one sleep per player, whatever the fetch gave |
| `Pipeline.SeasonOf` | scripts/fetch_data.py:239-244 | the season a run uses: the `--season` argument when given, "2024-25" otherwise |
| `Pipeline.Run` | scripts/fetch_data.py:249-277 | an invalid season ends the run with that error and no request; every other run makes one request for the roster and one per rostered player; a failed roster query ends it; an empty table writes nothing; otherwise the aggregate is saved to the season's path |
| `Pipeline.DefaultSeasonIsValid` | scripts/fetch_data.py:239-244 | the default season "2024-25" passes validation |
| `Pipeline.RunWithNonConsecutiveSeason` | scripts/fetch_data.py:205-214 | a run given "2024-26" ends with a non-consecutive-season error and makes no request |
| `Pipeline.SeasonWithOneFailedFetch` | scripts/fetch_data.py:46-157 | for that scenario the season "2023-24" is valid and the aggregate of the two-player roster is A's row under A's name |
| `Pipeline.RunWithOneFailedFetch` | scripts/fetch_data.py:249-277 | season "2023-24", players A and B, A with one three-point row and B's fetch failing: A's row, under A's name, is saved to `data/raw/nba_3pt_2023_24.parquet` |

## Left out

- `save_to_parquet` (directory creation and Parquet writing) is filesystem I/O. A write is modelled as the `Saved(path, table)` outcome. Write failures are not modelled.
- The statistics service calls (`CommonAllPlayers`, `ShotChartDetail`) are inputs, not modelled. HTTP, timeouts and response schemas are out of scope.
- A shot row keeps only `PLAYER_NAME`, `SHOT_TYPE` and a few stand-in columns (`ShotDetails`). The rest of the schema is not modelled.
- `pd.concat(..., ignore_index=True)` re-indexing and other DataFrame internals are not modelled. A table is a sequence of rows.
- `time.sleep(rate_limit_seconds)` is a ghost counter, one sleep per player. The delay value is not modelled.
- `print`, `tqdm` progress, argparse wiring and `Path(__file__)` resolution are user interface or I/O. The output path is modelled relative to the project root.
- The `season="2022-23"` default of `fetch_three_point_data` is not modelled; `main` always passes the season.
- Season.ValidateSeason: accepts only ASCII digits and no trailing newline. The script's `\d` and `int` also accept other Unicode digits, and its `$` also matches before a final newline, so it accepts "2024-25\n".
- Season.ValidateSeasonIntended: has the same ASCII-only restriction as `ValidateSeason`.
- Pipeline.Run: validates with the corrected `ValidateSeasonIntended`, so it accepts seasons such as "1999-00" that the script rejects (see Findings). On every other input the two validators agree (`ValidatorsAgreeOffCenturyTurn`).
- The shot-chart service is a function of the player id. A roster listing the same id twice gets the same answer both times; the real service could answer differently.
- Running twice on the same inputs gives the same table, since every function here is deterministic. That the writer overwrites rather than appends is file-system behaviour and is not modelled.

## Findings

| source | as written | input that shows it | evidently intended | confidence | as-written member | corrected member |
|---|---|---|---|---|---|---|
| scripts/fetch_data.py:209-211 | the expected suffix is `start_year % 100 + 1`, which is 100 for a start year ending in 99 | "1999-00", the season after "1998-99", is rejected as non-consecutive | the suffix is the last two digits of the next year, `(start_year + 1) % 100`, so every real season is accepted | high; not executed | `Season.CenturyTurnSeasonRejected` | `Season.ValidateSeasonIntended` |
