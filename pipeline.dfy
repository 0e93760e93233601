/** The driver `main` of scripts/fetch_data.py, with the `--season` argument
    check that argparse runs before it: validate the season, derive the
    output path, collect the table, and write it only if it is non-empty. */
module Pipeline {
  import opened Wrappers
  import opened Season
  import opened OutputPath
  import opened Roster
  import opened Shots
  import opened Aggregate

  /** The `--season` default. */
  const DefaultSeason := "2024-25"

  /** How a run ends. `Saved` stands for the write of `table` to `path`. */
  datatype RunOutcome =
    | InvalidSeason(error: SeasonError)      // usage error before any request
    | EnumerationFailed(reason: string)      // the roster query failed
    | NoData                                 // nothing collected, nothing written
    | Saved(path: string, table: seq<Shot>)

  /** The season a run uses: the argument when given, the default otherwise. */
  function SeasonOf(arg: Option<string>): string {
    match arg
    case None => DefaultSeason
    case Some(s) => s
  }

  /** One run. `requests` counts the calls to the statistics service. */
  method Run(seasonArg: Option<string>, roster: RosterResponse, api: ShotApi)
    returns (outcome: RunOutcome, ghost requests: nat)
    ensures var season := SeasonOf(seasonArg);
      outcome.InvalidSeason? <==> ValidateSeasonIntended(season).Err?
    ensures outcome.InvalidSeason? ==>
      requests == 0 && outcome.error == ValidateSeasonIntended(SeasonOf(seasonArg)).error
    ensures !outcome.InvalidSeason? ==>
      requests == 1 + (if roster.RosterRows? then |ActivePlayers(roster.rows)| else 0)
    ensures outcome.EnumerationFailed? <==>
      ValidateSeasonIntended(SeasonOf(seasonArg)).Ok? && roster.RosterFailure?
    ensures outcome.NoData? <==>
      ValidateSeasonIntended(SeasonOf(seasonArg)).Ok? && roster.RosterRows? &&
      Aggregated(ActivePlayers(roster.rows), api) == []
    ensures outcome.Saved? ==>
      && outcome.path == OutputFilePath(SeasonOf(seasonArg))
      && outcome.table == Aggregated(ActivePlayers(roster.rows), api)
      && outcome.table != []
  {
    var validated := ValidateSeasonIntended(SeasonOf(seasonArg));
    if validated.Err? {
      return InvalidSeason(validated.error), 0;
    }
    var season := validated.value;
    var outputPath := OutputFilePath(season);
    var collected, fetchRequests, sleeps := FetchThreePointData(roster, api);
    requests := fetchRequests;
    if collected.Err? {
      return EnumerationFailed(collected.error), requests;
    }
    if |collected.value| > 0 {
      outcome := Saved(outputPath, collected.value);
    } else {
      outcome := NoData;
    }
  }

  /** The default season passes validation. */
  lemma DefaultSeasonIsValid()
    ensures ValidateSeasonIntended(DefaultSeason) == Ok(DefaultSeason)
  {
    YearsExample(DefaultSeason);
  }

  /** A run given "2024-26" ends with a usage error and makes no request,
      whatever the service would have answered. */
  method RunWithNonConsecutiveSeason(roster: RosterResponse, api: ShotApi)
    returns (outcome: RunOutcome, ghost requests: nat)
    ensures outcome == InvalidSeason(NotConsecutive) && requests == 0
  {
    assert ValidateSeasonIntended("2024-26") == Err(NotConsecutive) by {
      YearsExample("2024-26");
    }
    outcome, requests := Run(Some("2024-26"), roster, api);
  }

  /** Season "2023-24", a roster of players A and B; A's fetch returns one
      three-point attempt and B's fetch fails. The run saves exactly A's
      attempt, under A's name, to the season's file. */
  method RunWithOneFailedFetch(a: RosterRow, b: RosterRow, shot: Shot, api: ShotApi)
    returns (outcome: RunOutcome, ghost requests: nat)
    requires IsRostered(a) && IsRostered(b)
    requires api(a.personId) == ShotRows([shot]) && IsThreePointer(shot)
    requires api(b.personId).FetchError?
    ensures outcome == Saved(OutputFilePath("2023-24"), [shot.(playerName := a.displayFirstLast)])
  {
    SeasonWithOneFailedFetch(a, b, shot, api);
    outcome, requests := Run(Some("2023-24"), RosterRows([a, b]), api);
  }

  /** The facts `RunWithOneFailedFetch` needs about its inputs: the season is
      valid and the aggregate of the roster is A's one row. */
  lemma SeasonWithOneFailedFetch(a: RosterRow, b: RosterRow, shot: Shot, api: ShotApi)
    requires IsRostered(a) && IsRostered(b)
    requires api(a.personId) == ShotRows([shot]) && IsThreePointer(shot)
    requires api(b.personId).FetchError?
    ensures ValidateSeasonIntended("2023-24") == Ok("2023-24")
    ensures Aggregated(ActivePlayers([a, b]), api) == [shot.(playerName := a.displayFirstLast)]
  {
    YearsExample("2023-24");
    assert [a, b] == [a] + [b];
    ActivePlayersAppend([a], [b]);
    ActivePlayersSingle(a);
    ActivePlayersSingle(b);
    OneFetchFailsOneSucceeds(ToPlayer(a), ToPlayer(b), shot, api);
  }
}
