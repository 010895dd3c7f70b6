/**
 * Stage 3, the report builder (`create_excel_report`): three summary metrics
 * computed from the cleaned expenses and the calculated assets, and a report
 * of three sheets in fixed order, the summary followed by both tables as they
 * are.
 *
 * Totals are integer cents; the tax credit is exactly one tenth of the R&D
 * total, so it is a `real` number of cents.
 */
module Report {
  import opened Rows
  import opened Expenses
  import opened Depreciation

  // ---------------------------------------------------------------------------
  // Total R&D eligible spend
  // ---------------------------------------------------------------------------

  /** The Is_RnD_Eligible column as a mask. */
  function EligibleMask(expenses: seq<TaggedExpense>): (m: seq<bool>)
    ensures |m| == |expenses|
    ensures forall i :: 0 <= i < |expenses| ==> m[i] == expenses[i].rndEligible
  {
    seq(|expenses|, i requires 0 <= i < |expenses| => expenses[i].rndEligible)
  }

  /** The sum of the Amount column. */
  function SumAmounts(expenses: seq<TaggedExpense>): int
    decreases |expenses|
  {
    if expenses == [] then 0
    else SumAmounts(expenses[..|expenses| - 1]) + expenses[|expenses| - 1].row.amount
  }

  lemma {:induction false} SumAmountsConcat(a: seq<TaggedExpense>, b: seq<TaggedExpense>)
    ensures SumAmounts(a + b) == SumAmounts(a) + SumAmounts(b)
    decreases |b|
  {
    if b != [] {
      var n := |b| - 1;
      assert (a + b)[..|a + b| - 1] == a + b[..n];
      SumAmountsConcat(a, b[..n]);
    } else {
      assert a + b == a;
    }
  }

  /**
   * A reference definition of the R&D total that walks the table from the
   * front, adding each eligible amount.
   */
  function EligibleSum(expenses: seq<TaggedExpense>): int
    decreases |expenses|
  {
    if expenses == [] then 0
    else (if expenses[0].rndEligible then expenses[0].row.amount else 0) + EligibleSum(expenses[1..])
  }

  /**
   * The eligible rows, `df[df['Is_RnD_Eligible'] == True]`: only eligible rows,
   * one per eligible input row, each taken from the input.
   */
  function RnDRows(expenses: seq<TaggedExpense>): (r: seq<TaggedExpense>)
    ensures |r| == Count(EligibleMask(expenses))
    ensures forall k :: 0 <= k < |r| ==> r[k].rndEligible && r[k] in expenses
  {
    SelectAt(expenses, EligibleMask(expenses));
    Select(expenses, EligibleMask(expenses))
  }

  /** Filtering the eligible rows distributes over concatenation. */
  lemma RnDRowsConcat(a: seq<TaggedExpense>, b: seq<TaggedExpense>)
    ensures RnDRows(a + b) == RnDRows(a) + RnDRows(b)
  {
    assert EligibleMask(a + b) == EligibleMask(a) + EligibleMask(b);
    SelectConcat(a, EligibleMask(a), b, EligibleMask(b));
  }

  /** A single row is kept by the filter iff it is eligible. */
  lemma RnDRowsSingle(x: TaggedExpense)
    ensures RnDRows([x]) == if x.rndEligible then [x] else []
  {
    var m := EligibleMask([x]);
    assert [x][..0] == [] && m[..0] == [];
  }

  /** Summing the filtered rows adds up exactly the eligible amounts. */
  lemma {:induction false} RnDRowsSum(expenses: seq<TaggedExpense>)
    ensures SumAmounts(RnDRows(expenses)) == EligibleSum(expenses)
    decreases |expenses|
  {
    if expenses != [] {
      var x, rest := expenses[0], expenses[1..];
      assert expenses == [x] + rest;
      RnDRowsConcat([x], rest);
      RnDRowsSingle(x);
      SumAmountsConcat(RnDRows([x]), RnDRows(rest));
      assert SumAmounts([x]) == x.row.amount;
      RnDRowsSum(rest);
    } else {
      assert RnDRows(expenses) == [];
    }
  }

  /**
   * total_rnd_spend: the Amount column of the eligible rows, summed; it is the
   * sum of the eligible amounts taken row by row.
   */
  function TotalRnDSpend(expenses: seq<TaggedExpense>): (total: int)
    ensures total == EligibleSum(expenses)
  {
    RnDRowsSum(expenses);
    SumAmounts(RnDRows(expenses))
  }

  /** The R&D total of a concatenation is the sum of the parts' totals. */
  lemma TotalRnDSpendConcat(a: seq<TaggedExpense>, b: seq<TaggedExpense>)
    ensures TotalRnDSpend(a + b) == TotalRnDSpend(a) + TotalRnDSpend(b)
  {
    RnDRowsConcat(a, b);
    SumAmountsConcat(RnDRows(a), RnDRows(b));
  }

  /**
   * With amounts that are not negative, the R&D total lies between zero and
   * the total of all amounts, and equals the latter when every row is
   * eligible.
   */
  lemma {:induction false} TotalRnDSpendBounds(expenses: seq<TaggedExpense>)
    requires forall i :: 0 <= i < |expenses| ==> expenses[i].row.amount >= 0
    ensures 0 <= TotalRnDSpend(expenses) <= SumAmounts(expenses)
    ensures (forall i :: 0 <= i < |expenses| ==> expenses[i].rndEligible) ==>
              TotalRnDSpend(expenses) == SumAmounts(expenses)
    decreases |expenses|
  {
    if expenses != [] {
      var x, rest := expenses[0], expenses[1..];
      assert expenses == [x] + rest;
      SumAmountsConcat([x], rest);
      assert SumAmounts([x]) == x.row.amount;
      TotalRnDSpendBounds(rest);
      assert TotalRnDSpend(expenses) == (if x.rndEligible then x.row.amount else 0) + TotalRnDSpend(rest);
    }
  }

  // ---------------------------------------------------------------------------
  // Total annual depreciation
  // ---------------------------------------------------------------------------

  /** total_depreciation: the Annual_Depreciation column summed over every row. */
  function TotalDepreciation(assets: seq<CalculatedAsset>): int
    decreases |assets|
  {
    if assets == [] then 0
    else TotalDepreciation(assets[..|assets| - 1]) + assets[|assets| - 1].annualDepreciation
  }

  /** The depreciation total adds up over the parts of a table. */
  lemma {:induction false} TotalDepreciationConcat(a: seq<CalculatedAsset>, b: seq<CalculatedAsset>)
    ensures TotalDepreciation(a + b) == TotalDepreciation(a) + TotalDepreciation(b)
    decreases |b|
  {
    if b != [] {
      var n := |b| - 1;
      assert (a + b)[..|a + b| - 1] == a + b[..n];
      TotalDepreciationConcat(a, b[..n]);
    } else {
      assert a + b == a;
    }
  }

  /** The unrounded total: every cost divided by its useful life, summed. */
  function ExactDepreciation(rows: seq<Asset>): real
    requires PositiveLives(rows)
    decreases |rows|
  {
    if rows == [] then 0.0
    else
      var n := |rows| - 1;
      ExactDepreciation(rows[..n]) + (rows[n].cost as real) / (rows[n].usefulLifeYears as real)
  }

  /**
   * Rounding every row to the cent moves the total depreciation by at most
   * half a cent per row away from the exact total.
   */
  lemma {:induction false} TotalDepreciationError(rows: seq<Asset>, parse: string -> Option<Date>)
    requires PositiveLives(rows)
    ensures var err := (TotalDepreciation(CalculateAssets(rows, parse)) as real) - ExactDepreciation(rows);
      -(|rows| as real) / 2.0 <= err <= (|rows| as real) / 2.0
    decreases |rows|
  {
    if rows != [] {
      var n := |rows| - 1;
      var calculated := CalculateAssets(rows, parse);
      assert calculated[..n] == CalculateAssets(rows[..n], parse);
      TotalDepreciationError(rows[..n], parse);
      RoundHalfEvenUnique(rows[n].cost, rows[n].usefulLifeYears, calculated[n].annualDepreciation);
      RoundHalfEvenError(rows[n].cost, rows[n].usefulLifeYears);
    }
  }

  // ---------------------------------------------------------------------------
  // Tax credit and the summary table
  // ---------------------------------------------------------------------------

  /** The assumed credit rate. */
  const CreditRate: real := 0.10

  /** Potential tax credit: the R&D total times the credit rate. */
  function TaxCredit(rndSpend: int): (credit: real)
    ensures 10.0 * credit == rndSpend as real
    ensures rndSpend >= 0 ==> 0.0 <= credit <= rndSpend as real
  {
    (rndSpend as real) * CreditRate
  }

  /** One row of the summary sheet: the metric name and its value in cents. */
  datatype Metric = Metric(metric: string, value: real)

  /** The summary labels, in the order the summary sheet lists them. */
  const SummaryLabels: seq<string> := [
    "Total R&D Eligible Expenses",
    "Total Annual Depreciation",
    "Potential Tax Credit (approx 10% of R&D)"]

  /** The summary table: the three metrics, labelled, in fixed order. */
  function Summary(expenses: seq<TaggedExpense>, assets: seq<CalculatedAsset>): (rows: seq<Metric>)
    ensures |rows| == |SummaryLabels| == 3
    ensures forall i :: 0 <= i < 3 ==> rows[i].metric == SummaryLabels[i]
    ensures rows[0].value == TotalRnDSpend(expenses) as real
    ensures rows[1].value == TotalDepreciation(assets) as real
    ensures 10.0 * rows[2].value == rows[0].value
  {
    var rnd := TotalRnDSpend(expenses);
    var depreciation := TotalDepreciation(assets);
    [ Metric(SummaryLabels[0], rnd as real),
      Metric(SummaryLabels[1], depreciation as real),
      Metric(SummaryLabels[2], TaxCredit(rnd)) ]
  }

  // ---------------------------------------------------------------------------
  // The report
  // ---------------------------------------------------------------------------

  /** What a sheet holds. */
  datatype Table =
    | MetricTable(metrics: seq<Metric>)
    | ExpenseTable(expenses: seq<TaggedExpense>)
    | AssetTable(assets: seq<CalculatedAsset>)

  /** A named sheet of the report workbook. */
  datatype Sheet = Sheet(name: string, table: Table)

  /** The sheet names, in workbook order. */
  const SheetNames: seq<string> := ["Executive Summary", "Detailed Expenses", "Asset Schedule"]

  /**
   * Builds the report from the two processed tables: the totals, the summary,
   * then the three sheets, the two detail sheets holding their tables
   * unfiltered and in their original order.
   */
  method CreateExcelReport(expenses: seq<TaggedExpense>, assets: seq<CalculatedAsset>)
      returns (sheets: seq<Sheet>)
    ensures |sheets| == |SheetNames| == 3
    ensures forall i :: 0 <= i < 3 ==> sheets[i].name == SheetNames[i]
    ensures sheets[0].table == MetricTable(Summary(expenses, assets))
    ensures sheets[1].table == ExpenseTable(expenses)
    ensures sheets[2].table == AssetTable(assets)
  {
    var summary := Summary(expenses, assets);
    sheets := [
      Sheet(SheetNames[0], MetricTable(summary)),
      Sheet(SheetNames[1], ExpenseTable(expenses)),
      Sheet(SheetNames[2], AssetTable(assets))];
  }
}
