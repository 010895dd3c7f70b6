/**
 * Stage 2, the asset depreciator (`process_asset_depreciation`): normalise
 * every purchase date, count the dates that could not be read, and give every
 * row its straight-line annual depreciation, cost / useful life rounded to
 * whole cents with ties to the even cent. No row is dropped, and the
 * depreciation does not depend on whether the date was read.
 *
 * Money is integer cents, so rounding a dollar amount to two decimals is
 * rounding a cent amount to an integer. The permissive date parser is not
 * part of this model: it is a parameter, any total function from the date
 * text to a date or nothing.
 */
module Depreciation {
  import opened Rows

  /** A calendar date. */
  datatype Date = Date(year: int, month: int, day: int)

  /** A raw asset row: Asset_ID, Asset_Type, Purchase_Date, Cost (cents), Useful_Life_Years. */
  datatype Asset = Asset(
    id: string,
    assetType: string,
    purchaseDate: string,
    cost: int,
    usefulLifeYears: int)

  /** An asset row with its Purchase_Date_Normalized and Annual_Depreciation (cents) columns. */
  datatype CalculatedAsset = CalculatedAsset(
    asset: Asset,
    purchaseDateNormalized: Option<Date>,
    annualDepreciation: int)

  /** Every row has a positive useful life, so the division is defined. */
  predicate PositiveLives(rows: seq<Asset>)
  {
    forall i :: 0 <= i < |rows| ==> rows[i].usefulLifeYears > 0
  }

  function Abs(x: int): nat { if x < 0 then -x else x }

  /**
   * `c` is `n / d` rounded to the nearest integer, ties going to the even
   * neighbour.
   */
  predicate IsRoundHalfEven(n: int, d: int, c: int)
  {
    2 * Abs(n - c * d) < d || (2 * Abs(n - c * d) == d && c % 2 == 0)
  }

  /** Rounds `n / d` to an integer, half to even, without leaving the integers. */
  function RoundHalfEven(n: int, d: int): (c: int)
    requires d > 0
    ensures IsRoundHalfEven(n, d, c)
  {
    var q, r := n / d, n % d;
    assert n - q * d == r;
    assert n - (q + 1) * d == r - d;
    if 2 * r < d then q
    else if 2 * r > d then q + 1
    else if q % 2 == 0 then q
    else q + 1
  }

  /** The two facts about multiples of a positive `d` that pin down a rounding. */
  lemma MultipleBounds(t: int, d: int)
    requires d > 0
    ensures t >= 1 ==> t * d >= d
    ensures t <= -2 ==> t * d <= -2 * d
  {
    if t >= 1 {
      assert t * d == (t - 1) * d + d;
      assert (t - 1) * d >= 0;
    } else if t <= -2 {
      assert t * d == (t + 2) * d - 2 * d;
      assert (t + 2) * d <= 0;
    }
  }

  /**
   * There is only one half-to-even rounding of `n / d`: any integer within
   * half a unit of the quotient, even on a tie, is the one `RoundHalfEven`
   * computes.
   */
  lemma RoundHalfEvenUnique(n: int, d: int, c: int)
    requires d > 0
    requires IsRoundHalfEven(n, d, c)
    ensures c == RoundHalfEven(n, d)
  {
    var q, r := n / d, n % d;
    var t := q - c;
    assert n - c * d == t * d + r by {
      assert c * d == q * d - t * d;
    }
    MultipleBounds(t, d);
    assert t == 0 || t == -1;
  }

  /** The rounded value is within half a unit of the exact quotient. */
  lemma RoundHalfEvenError(n: int, d: int)
    requires d > 0
    ensures -0.5 <= (RoundHalfEven(n, d) as real) - (n as real) / (d as real) <= 0.5
  {
    var c := RoundHalfEven(n, d);
    var e := n - c * d;
    assert -d <= 2 * e <= d;
    var dr := d as real;
    assert (c as real) - (n as real) / dr == -(e as real) / dr by {
      assert (n as real) == (c as real) * dr + (e as real);
    }
    assert -dr <= 2.0 * (e as real) <= dr;
  }

  /**
   * Annual_Depreciation in cents: Cost / Useful_Life_Years rounded to two
   * decimal places of a dollar, ties to even.
   */
  function AnnualDepreciation(cost: int, usefulLifeYears: int): (c: int)
    requires usefulLifeYears > 0
    ensures IsRoundHalfEven(cost, usefulLifeYears, c)
  {
    RoundHalfEven(cost, usefulLifeYears)
  }

  /** The Purchase_Date_Normalized column: every date text handed to the parser. */
  function NormalizeDates(rows: seq<Asset>, parse: string -> Option<Date>): (dates: seq<Option<Date>>)
    ensures |dates| == |rows|
    ensures forall i :: 0 <= i < |rows| ==> dates[i] == parse(rows[i].purchaseDate)
  {
    seq(|rows|, i requires 0 <= i < |rows| => parse(rows[i].purchaseDate))
  }

  /** The not-a-date mask of a date column. */
  function IsNaT(dates: seq<Option<Date>>): (m: seq<bool>)
    ensures |m| == |dates|
    ensures forall i :: 0 <= i < |dates| ==> (m[i] <==> dates[i] == None)
  {
    seq(|dates|, i requires 0 <= i < |dates| => dates[i].None?)
  }

  /** The number of rows whose purchase date the parser could not read. */
  function InvalidDateCount(rows: seq<Asset>, parse: string -> Option<Date>): (n: nat)
    ensures n <= |rows|
    ensures n == 0 <==> forall i :: 0 <= i < |rows| ==> parse(rows[i].purchaseDate) != None
  {
    Count(IsNaT(NormalizeDates(rows, parse)))
  }

  /** Invalid dates add up over the parts of a table. */
  lemma InvalidDateCountConcat(a: seq<Asset>, b: seq<Asset>, parse: string -> Option<Date>)
    ensures InvalidDateCount(a + b, parse) == InvalidDateCount(a, parse) + InvalidDateCount(b, parse)
  {
    assert IsNaT(NormalizeDates(a + b, parse))
      == IsNaT(NormalizeDates(a, parse)) + IsNaT(NormalizeDates(b, parse));
    CountConcat(IsNaT(NormalizeDates(a, parse)), IsNaT(NormalizeDates(b, parse)));
  }

  /** The calculated asset table: both new columns added to every row. */
  function CalculateAssets(rows: seq<Asset>, parse: string -> Option<Date>): (r: seq<CalculatedAsset>)
    requires PositiveLives(rows)
    ensures |r| == |rows|
    ensures forall i :: 0 <= i < |rows| ==>
              r[i].asset == rows[i] &&
              r[i].purchaseDateNormalized == parse(rows[i].purchaseDate) &&
              IsRoundHalfEven(rows[i].cost, rows[i].usefulLifeYears, r[i].annualDepreciation)
  {
    var dates := NormalizeDates(rows, parse);
    seq(|rows|, i requires 0 <= i < |rows| =>
      CalculatedAsset(rows[i], dates[i], AnnualDepreciation(rows[i].cost, rows[i].usefulLifeYears)))
  }

  /**
   * The depreciation column does not depend on the dates: two parsers that
   * disagree on every date still give every row the same depreciation.
   */
  lemma DepreciationIgnoresDates(rows: seq<Asset>, parse1: string -> Option<Date>, parse2: string -> Option<Date>)
    requires PositiveLives(rows)
    ensures forall i :: 0 <= i < |rows| ==>
      CalculateAssets(rows, parse1)[i].annualDepreciation == CalculateAssets(rows, parse2)[i].annualDepreciation
  {
    var r1, r2 := CalculateAssets(rows, parse1), CalculateAssets(rows, parse2);
    forall i | 0 <= i < |rows|
      ensures r1[i].annualDepreciation == r2[i].annualDepreciation
    {
      RoundHalfEvenUnique(rows[i].cost, rows[i].usefulLifeYears, r1[i].annualDepreciation);
      RoundHalfEvenUnique(rows[i].cost, rows[i].usefulLifeYears, r2[i].annualDepreciation);
    }
  }

  /**
   * Runs the depreciator over a loaded table: adds the normalised date
   * column, counts the unreadable dates, then adds the depreciation column.
   */
  method ProcessAssetDepreciation(rows: seq<Asset>, parse: string -> Option<Date>)
      returns (calculated: seq<CalculatedAsset>, invalidDates: nat)
    requires PositiveLives(rows)
    ensures calculated == CalculateAssets(rows, parse)
    ensures |calculated| == |rows|
    ensures forall i :: 0 <= i < |rows| ==> calculated[i].asset == rows[i]
    ensures forall i :: 0 <= i < |rows| ==> calculated[i].annualDepreciation == RoundHalfEven(rows[i].cost, rows[i].usefulLifeYears)
    ensures invalidDates == InvalidDateCount(rows, parse)
    ensures invalidDates == 0 <==> forall i :: 0 <= i < |rows| ==> calculated[i].purchaseDateNormalized != None
  {
    var dates := NormalizeDates(rows, parse);
    invalidDates := Count(IsNaT(dates));
    calculated := seq(|rows|, i requires 0 <= i < |rows| =>
      CalculatedAsset(rows[i], dates[i], AnnualDepreciation(rows[i].cost, rows[i].usefulLifeYears)));
  }
}
