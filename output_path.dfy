/** The output location derived in `main` of scripts/fetch_data.py: the
    season's hyphen becomes an underscore inside a fixed file-name template
    under `data/raw`. */
module OutputPath {
  import opened Season

  const FilePrefix := "nba_3pt_"
  const FileSuffix := ".parquet"
  /** The output directory, relative to the project root. */
  const OutputDir := "data/raw/"

  /** Python's `str.replace(from, to)` for single characters: every
      occurrence is replaced, everything else is kept in place. */
  function ReplaceChar(s: string, from: char, to: char): (r: string)
    ensures |r| == |s|
    ensures forall i :: 0 <= i < |s| ==> r[i] == (if s[i] == from then to else s[i])
  {
    if s == [] then []
    else [if s[0] == from then to else s[0]] + ReplaceChar(s[1..], from, to)
  }

  /** `f"nba_3pt_{season.replace('-', '_')}.parquet"`: the season, with every
      hyphen turned into an underscore, between the fixed prefix and suffix. */
  function OutputFileName(season: string): (name: string)
    ensures |name| == |FilePrefix| + |season| + |FileSuffix|
    ensures name[..|FilePrefix|] == FilePrefix
    ensures name[|FilePrefix| + |season|..] == FileSuffix
    ensures forall i :: 0 <= i < |season| ==>
      name[|FilePrefix| + i] == (if season[i] == '-' then '_' else season[i])
  {
    FilePrefix + ReplaceChar(season, '-', '_') + FileSuffix
  }

  /** The path the table is written to, relative to the project root. */
  function OutputFilePath(season: string): (path: string)
    ensures |path| == |OutputDir| + |OutputFileName(season)|
    ensures path[..|OutputDir|] == OutputDir
    ensures path[|OutputDir|..] == OutputFileName(season)
  {
    OutputDir + OutputFileName(season)
  }

  /** For a season of the right shape the file name is the template with the
      start year and the two-digit end year joined by an underscore. */
  lemma OutputFileNameOfSeason(season: string)
    requires HasShape(season)
    ensures OutputFileName(season) == FilePrefix + season[..4] + "_" + season[5..] + FileSuffix
  {
    var r := ReplaceChar(season, '-', '_');
    assert r == season[..4] + "_" + season[5..];
  }

  /** The season can be read back from its file name. */
  function SeasonOfFileName(name: string): (season: string)
    requires |name| >= |FilePrefix| + |FileSuffix|
  {
    ReplaceChar(name[|FilePrefix|..|name| - |FileSuffix|], '_', '-')
  }

  lemma SeasonOfOutputFileName(season: string)
    requires HasShape(season)
    ensures SeasonOfFileName(OutputFileName(season)) == season
  {
    var n := OutputFileName(season);
    var m := ReplaceChar(season, '-', '_');
    assert n == FilePrefix + m + FileSuffix;
    assert n[|FilePrefix|..|n| - |FileSuffix|] == m;
    var back := ReplaceChar(m, '_', '-');
    assert forall i :: 0 <= i < |season| ==> back[i] == season[i];
  }

  /** Two different seasons never share an output file, so one run cannot
      overwrite another season's data. */
  lemma OutputFileNameInjective(s1: string, s2: string)
    requires HasShape(s1) && HasShape(s2)
    requires OutputFileName(s1) == OutputFileName(s2)
    ensures s1 == s2
  {
    SeasonOfOutputFileName(s1);
    SeasonOfOutputFileName(s2);
  }
}
