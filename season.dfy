/** The season validator of scripts/fetch_data.py (`validate_season_format`):
    a season is written `YYYY-YY`, four ASCII digits, a hyphen and two ASCII
    digits, and the two-digit part must name the year after the four-digit one. */
module Season {
  import opened Wrappers

  /** The two `argparse.ArgumentTypeError`s the validator raises. */
  datatype SeasonError =
    | BadFormat       // the string is not of the shape `dddd-dd`
    | NotConsecutive  // the shape is right but the years do not follow each other

  predicate IsDigit(c: char) {
    '0' <= c <= '9'
  }

  predicate AllDigits(s: string) {
    forall i :: 0 <= i < |s| ==> IsDigit(s[i])
  }

  function DigitValue(c: char): (d: nat)
    requires IsDigit(c)
    ensures d < 10
  {
    (c as int) - ('0' as int)
  }

  function DigitChar(d: nat): (c: char)
    requires d < 10
    ensures IsDigit(c) && DigitValue(c) == d
  {
    (('0' as int) + d) as char
  }

  function Pow10(k: nat): (p: nat)
    ensures p >= 1
  {
    if k == 0 then 1 else 10 * Pow10(k - 1)
  }

  /** Python's `int(...)` applied to a string of ASCII digits. */
  function Decimal(s: string): (n: nat)
    requires AllDigits(s)
    ensures n < Pow10(|s|)
  {
    if s == [] then 0
    else Decimal(s[..|s| - 1]) * 10 + DigitValue(s[|s| - 1])
  }

  /** The `width` low decimal digits of `n`, zero-padded: the way a year is
      written inside a season string. */
  function Digits(n: nat, width: nat): (s: string)
    ensures |s| == width && AllDigits(s)
  {
    if width == 0 then []
    else Digits(n / 10, width - 1) + [DigitChar(n % 10)]
  }

  lemma {:induction false} DecimalOfDigits(n: nat, width: nat)
    requires n < Pow10(width)
    ensures Decimal(Digits(n, width)) == n
  {
    if width > 0 {
      var s := Digits(n, width);
      var p := Pow10(width - 1);
      assert n < 10 * p;
      assert n / 10 < p;
      assert s[..|s| - 1] == Digits(n / 10, width - 1);
      assert s[|s| - 1] == DigitChar(n % 10);
      DecimalOfDigits(n / 10, width - 1);
      assert Decimal(s) == (n / 10) * 10 + n % 10;
    }
  }

  lemma {:induction false} DigitsOfDecimal(s: string)
    requires AllDigits(s)
    ensures Digits(Decimal(s), |s|) == s
  {
    if s != [] {
      var p, c := s[..|s| - 1], s[|s| - 1];
      var n, m := Decimal(s), Decimal(p);
      assert n == m * 10 + DigitValue(c);
      assert n / 10 == m && n % 10 == DigitValue(c);
      DigitsOfDecimal(p);
      assert DigitChar(DigitValue(c)) == c;
      assert Digits(n, |s|) == Digits(m, |p|) + [c];
      assert s == p + [c];
    }
  }

  /** The pattern `^\d{4}-\d{2}$`, for ASCII digits. */
  predicate HasShape(s: string) {
    |s| == 7 && AllDigits(s[..4]) && s[4] == '-' && AllDigits(s[5..])
  }

  /** `int(years[0])` where `years = season.split('-')`; for a string of the
      right shape the split yields exactly the digits before and after `-`. */
  function StartYear(s: string): (y: nat)
    requires HasShape(s)
    ensures y < 10000
  {
    Decimal(s[..4])
  }

  /** `int(years[1])`. */
  function EndYear(s: string): (y: nat)
    requires HasShape(s)
    ensures y < 100
  {
    Decimal(s[5..])
  }

  /** The season that starts in year `y`: the year in four digits, a hyphen,
      and the last two digits of the following year. This is what a season
      string means, independently of how the script checks it. */
  function SeasonName(y: nat): (s: string)
    requires y < 10000
    ensures HasShape(s) && StartYear(s) == y && EndYear(s) == (y + 1) % 100
  {
    var s := Digits(y, 4) + "-" + Digits((y + 1) % 100, 2);
    assert s[..4] == Digits(y, 4);
    assert s[5..] == Digits((y + 1) % 100, 2);
    DecimalOfDigits(y, 4);
    DecimalOfDigits((y + 1) % 100, 2);
    s
  }

  /** Every string of the right shape is the four-digit start year, a hyphen
      and the two-digit end year, read back. */
  lemma ShapeIsYears(s: string)
    requires HasShape(s)
    ensures s == Digits(StartYear(s), 4) + "-" + Digits(EndYear(s), 2)
  {
    DigitsOfDecimal(s[..4]);
    DigitsOfDecimal(s[5..]);
    assert s == s[..4] + "-" + s[5..];
  }

  /** A string of the right shape whose end year is the last two digits of
      the year after its start year is that season's name. */
  lemma SeasonNameIsYears(s: string)
    requires HasShape(s) && EndYear(s) == (StartYear(s) + 1) % 100
    ensures s == SeasonName(StartYear(s))
  {
    ShapeIsYears(s);
  }

  /** `validate_season_format` as written: the shape is checked first, then
      the suffix is compared with `start_year % 100 + 1`; on success the input
      is returned unchanged. */
  function ValidateSeason(s: string): (r: Result<string, SeasonError>)
    ensures r.Ok? ==> r.value == s
    ensures !HasShape(s) ==> r == Err(BadFormat)
  {
    if !HasShape(s) then Err(BadFormat)
    else if EndYear(s) != StartYear(s) % 100 + 1 then Err(NotConsecutive)
    else Ok(s)
  }

  /** A string of the right shape is rejected as `NotConsecutive`, never as
      `BadFormat`, and accepted exactly when its suffix is one more than the
      start year modulo 100. */
  lemma ValidateSeasonShaped(s: string)
    requires HasShape(s)
    ensures ValidateSeason(s).Ok? <==> EndYear(s) == StartYear(s) % 100 + 1
    ensures ValidateSeason(s).Err? ==> ValidateSeason(s).error == NotConsecutive
  {
  }

  /** The validator accepts the name of every season whose start year does
      not end in 99. */
  lemma ValidateSeasonAcceptsSeasonName(y: nat)
    requires y < 10000 && y % 100 != 99
    ensures ValidateSeason(SeasonName(y)) == Ok(SeasonName(y))
  {
    var s := SeasonName(y);
    assert StartYear(s) == y && EndYear(s) == (y + 1) % 100;
    NextYearSuffix(y);
  }

  /** Off a century turn, the next year's last two digits are this year's plus one. */
  lemma NextYearSuffix(y: nat)
    requires y % 100 != 99
    ensures (y + 1) % 100 == y % 100 + 1
  {
    var q, r := y / 100, y % 100;
    assert y == 100 * q + r && r < 99;
    assert y + 1 == 100 * q + (r + 1);
  }

  /** Whatever the validator accepts is the name of a season, and that season
      does not start in a year ending in 99. */
  lemma ValidateSeasonAcceptsOnlySeasonNames(s: string)
    requires ValidateSeason(s).Ok?
    ensures StartYear(s) % 100 != 99
    ensures s == SeasonName(StartYear(s))
  {
    var y, e := StartYear(s), EndYear(s);
    assert e == y % 100 + 1;
    NextYearSuffix(y);
    SeasonNameIsYears(s);
  }

  /** No season starting in a year that ends in 99 gets through: the expected
      suffix is 100, which two digits cannot spell. */
  lemma ValidateSeasonRejectsCenturyTurn(s: string)
    requires HasShape(s) && StartYear(s) % 100 == 99
    ensures ValidateSeason(s) == Err(NotConsecutive)
  {
  }

  /** The script's own example of a valid season. */
  lemma ValidateSeasonAcceptsExample()
    ensures ValidateSeason("2024-25") == Ok("2024-25")
  {
    YearsExample("2024-25");
  }

  /** Seasons of the right shape whose years do not follow each other. */
  lemma ValidateSeasonRejectsExamples()
    ensures ValidateSeason("2024-26") == Err(NotConsecutive)
    ensures ValidateSeason("2024-24") == Err(NotConsecutive)
  {
    YearsExample("2024-26");
    YearsExample("2024-24");
  }

  /** "2099-00", a season crossing a century, is rejected. */
  lemma ValidateSeasonRejectsCenturyExample()
    ensures ValidateSeason("2099-00") == Err(NotConsecutive)
  {
    YearsExample("2099-00");
  }

  /** Strings of the wrong shape are rejected before any year is read. */
  lemma ValidateSeasonShapeExamples()
    ensures ValidateSeason("abcd-ef") == Err(BadFormat)
    ensures ValidateSeason("24-25") == Err(BadFormat)
    ensures ValidateSeason("2024-5") == Err(BadFormat)
  {
    assert !IsDigit("abcd-ef"[0]);
  }

  /** Reads a season literal digit by digit, such as "1999-00" in `CenturyTurnSeasonRejected`. */
  lemma SeasonNameExample(y: nat, start: string, end: string)
    requires |start| == 4 && AllDigits(start) && |end| == 2 && AllDigits(end)
    requires y == 1000 * DigitValue(start[0]) + 100 * DigitValue(start[1]) + 10 * DigitValue(start[2]) + DigitValue(start[3])
    requires (y + 1) % 100 == 10 * DigitValue(end[0]) + DigitValue(end[1])
    ensures y < 10000 && SeasonName(y) == start + "-" + end
  {
    DecimalExample(start);
    DigitsOfDecimal(start);
    assert end[..1][..0] == [];
    assert end[..1] == [end[0]];
    assert Decimal(end) == (y + 1) % 100;
    DigitsOfDecimal(end);
  }

  /** `Decimal` on a four-digit literal, one prefix at a time. */
  lemma DecimalExample(s: string)
    requires |s| == 4 && AllDigits(s)
    ensures Decimal(s) == 1000 * DigitValue(s[0]) + 100 * DigitValue(s[1]) + 10 * DigitValue(s[2]) + DigitValue(s[3])
  {
    assert s[..1][..0] == [];
    assert Decimal(s[..1]) == DigitValue(s[0]);
    assert s[..2][..1] == s[..1];
    assert Decimal(s[..2]) == 10 * DigitValue(s[0]) + DigitValue(s[1]);
    assert s[..3][..2] == s[..2];
    assert Decimal(s[..3]) == 100 * DigitValue(s[0]) + 10 * DigitValue(s[1]) + DigitValue(s[2]);
    assert s[..4] == s;
  }

  /** The two years of a literal of the right shape, digit by digit. */
  lemma YearsExample(s: string)
    requires HasShape(s)
    ensures StartYear(s) == 1000 * DigitValue(s[0]) + 100 * DigitValue(s[1]) + 10 * DigitValue(s[2]) + DigitValue(s[3])
    ensures EndYear(s) == 10 * DigitValue(s[5]) + DigitValue(s[6])
  {
    DecimalExample(s[..4]);
    var e := s[5..];
    assert e[..1][..0] == [];
    assert Decimal(e[..1]) == DigitValue(s[5]);
    assert e[1] == s[6];
  }

  /** The validator as its message intends ("years must be consecutive"):
      the suffix must be the last two digits of the next year, so a season
      that crosses a century, such as "1999-00", is accepted. */
  function ValidateSeasonIntended(s: string): (r: Result<string, SeasonError>)
    ensures r.Ok? ==> r.value == s
    ensures !HasShape(s) ==> r == Err(BadFormat)
  {
    if !HasShape(s) then Err(BadFormat)
    else if EndYear(s) != (StartYear(s) + 1) % 100 then Err(NotConsecutive)
    else Ok(s)
  }

  /** The intended validator accepts exactly the season names: every one of
      them, and nothing else. */
  lemma ValidateSeasonIntendedAcceptsSeasonName(y: nat)
    requires y < 10000
    ensures ValidateSeasonIntended(SeasonName(y)) == Ok(SeasonName(y))
  {
  }

  lemma ValidateSeasonIntendedAcceptsOnlySeasonNames(s: string)
    requires ValidateSeasonIntended(s).Ok?
    ensures s == SeasonName(StartYear(s))
  {
    SeasonNameIsYears(s);
  }

  /** The two validators agree everywhere except on seasons starting in a
      year ending in 99. */
  lemma ValidatorsAgreeOffCenturyTurn(s: string)
    requires !HasShape(s) || StartYear(s) % 100 != 99
    ensures ValidateSeason(s) == ValidateSeasonIntended(s)
  {
  }

  /** The discrepancy: "1999-00" is the name of the 1999 season, and the
      script rejects it. */
  lemma CenturyTurnSeasonRejected()
    ensures SeasonName(1999) == "1999-00"
    ensures ValidateSeason("1999-00") == Err(NotConsecutive)
  {
    SeasonNameExample(1999, "1999", "00");
    ValidateSeasonRejectsCenturyTurn(SeasonName(1999));
  }

  /** The intended validator accepts the same string. */
  lemma CenturyTurnSeasonAccepted()
    ensures ValidateSeasonIntended("1999-00") == Ok("1999-00")
  {
    YearsExample("1999-00");
  }
}
