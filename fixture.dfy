/**
 * The sample tables of generate_data.py run through the model: eight expense
 * rows with one repeated ID and one missing ID, and four assets whose dates
 * are written in three different formats.
 */
module Fixture {
  import opened Rows
  import opened Text
  import opened Expenses
  import opened Depreciation
  import opened Report

  function Row(id: Option<string>, date: string, description: string, amount: int, department: string): Expense
  {
    Expense(id, date, Some(description), amount, department)
  }

  /** The raw expense table (amounts in cents). */
  const RawExpenses: seq<Expense> := [
    Row(Some("TXN001"), "2025-01-10", "AWS Cloud Server for Prototype Hosting", 150000, "IT"),
    Row(Some("TXN002"), "2025-01-12", "Team Lunch at Chipotle", 4550, "HR"),
    Row(Some("TXN003"), "2025-01-15", "Python Scripting for Data Analysis", 320000, "IT"),
    Row(Some("TXN004"), "2025-02-01", "Marketing Brochure Printing", 15000, "Sales"),
    Row(Some("TXN005"), "2025-02-20", "Lab Equipment - Oscilloscope", 1200000, "Engineering"),
    Row(Some("TXN002"), "2025-01-12", "Team Lunch at Chipotle", 4550, "HR"),
    Row(None, "2025-03-05", "Consulting Fee for UX Design", 500000, "Design"),
    Row(Some("TXN006"), "2025-03-10", "Client Dinner", 20000, "Sales")]

  /** The raw asset table (costs in cents). */
  const RawAssets: seq<Asset> := [
    Asset("A100", "Laptop", "01/15/2024", 120000, 5),
    Asset("A101", "Server", "2024-02-20", 5000000, 5),
    Asset("A102", "Office Chair", "March 10, 2024", 30000, 7),
    Asset("A103", "3D Printer", "2024-05-01", 250000, 5)]

  // ---------------------------------------------------------------------------
  // Classification of the sample descriptions
  // ---------------------------------------------------------------------------

  /**
   * A text is eligible when keyword `j` matches it, letter by lower-cased
   * letter, from position `i`.
   */
  lemma EligibleByKeywordAt(s: string, j: nat, i: nat)
    requires j < |RnDKeywords| && i + |RnDKeywords[j]| <= |s|
    requires forall k :: 0 <= k < |RnDKeywords[j]| ==> LowerChar(s[i + k]) == LowerChar(RnDKeywords[j][k])
    ensures IsRnDEligible(Some(s))
  {
    var kw := RnDKeywords[j];
    assert kw in RnDKeywords;
    LowerOccursAt(s, Lower(kw), i);
  }

  lemma CloudServerEligible()
    ensures IsRnDEligible(Some("AWS Cloud Server for Prototype Hosting"))
  {
    EligibleByKeywordAt("AWS Cloud Server for Prototype Hosting", 3, 4);
  }

  lemma PythonScriptingEligible()
    ensures IsRnDEligible(Some("Python Scripting for Data Analysis"))
  {
    EligibleByKeywordAt("Python Scripting for Data Analysis", 2, 0);
  }

  lemma LabEquipmentEligible()
    ensures IsRnDEligible(Some("Lab Equipment - Oscilloscope"))
  {
    EligibleByKeywordAt("Lab Equipment - Oscilloscope", 1, 0);
  }

  lemma UxDesignEligible()
    ensures IsRnDEligible(Some("Consulting Fee for UX Design"))
  {
    EligibleByKeywordAt("Consulting Fee for UX Design", 4, 22);
  }

  /** A keyword inside a longer word counts. */
  lemma CloudySkyEligible()
    ensures IsRnDEligible(Some("CloudySky"))
  {
    EligibleByKeywordAt("CloudySky", 3, 0);
  }

  lemma TeamLunchNotEligible()
    ensures !IsRnDEligible(Some("Team Lunch at Chipotle"))
  {
    KeywordsLowered();
    NoKeywordByMissingLetters("Team Lunch at Chipotle", {'r', 'b', 'y', 'd', 's', 'g'}, RnDKeywords, "rbyddsg");
  }

  lemma BrochureNotEligible()
    ensures !IsRnDEligible(Some("Marketing Brochure Printing"))
  {
    KeywordsLowered();
    NoKeywordByMissingLetters("Marketing Brochure Printing", {'y', 'l', 'd', 's'}, RnDKeywords, "ylyldsl");
  }

  lemma ClientDinnerNotEligible()
    ensures !IsRnDEligible(Some("Client Dinner"))
  {
    KeywordsLowered();
    NoKeywordByMissingLetters("Client Dinner", {'p', 'a', 'o', 's'}, RnDKeywords, "papossa");
  }

  // ---------------------------------------------------------------------------
  // Cleaning the sample expenses
  // ---------------------------------------------------------------------------

  /** Only the second TXN002 row repeats an earlier ID. */
  lemma SampleDuplicated()
    ensures Duplicated(RawExpenses) == [false, false, false, false, false, true, false, false]
  {
    var d := Duplicated(RawExpenses);
    assert RawExpenses[1].id == RawExpenses[5].id;
    assert forall i, j :: 0 <= j < i < 8 && !(i == 5 && j == 1) ==> RawExpenses[j].id != RawExpenses[i].id;
  }

  /** Deduplication removes the repeated TXN002 row, and only it. */
  lemma SampleDeduplication()
    ensures Count(Duplicated(RawExpenses)) == 1
    ensures DropDuplicates(RawExpenses) == RawExpenses[..5] + RawExpenses[6..]
  {
    SampleDuplicated();
    SelectAllBut(RawExpenses, Not(Duplicated(RawExpenses)), 5);
    CountNot(Duplicated(RawExpenses));
  }

  /**
   * The shape of the sample: in eight rows, row 5 repeats an earlier ID and
   * row 6 has none; cleaning keeps rows 0 to 4 and row 7.
   */
  lemma CleanSampleShape(raw: seq<Expense>)
    requires |raw| == 8
    requires Duplicated(raw) == [false, false, false, false, false, true, false, false]
    requires raw[6].id == None
    requires forall i :: 0 <= i < 8 && i != 6 ==> raw[i].id != None
    ensures DropMissingIds(DropDuplicates(raw)) == raw[..5] + [raw[7]]
  {
    SelectAllBut(raw, Not(Duplicated(raw)), 5);
    var deduped := raw[..5] + raw[6..];
    assert deduped[5] == raw[6];
    assert forall i :: 0 <= i < |deduped| && i != 5 ==> deduped[i].id != None;
    SelectAllBut(deduped, Not(IsNull(deduped)), 5);
    assert deduped[..5] + deduped[6..] == raw[..5] + [raw[7]];
  }

  /**
   * The missing-ID drop then removes the row without an ID (the "UX Design"
   * row, eligible by keyword), and six rows are left, TXN001 to TXN006 in
   * order.
   */
  lemma SampleCleaning()
    ensures None in IdsOf(RawExpenses)
    ensures DropMissingIds(DropDuplicates(RawExpenses)) == RawExpenses[..5] + [RawExpenses[7]]
  {
    SampleDuplicated();
    CleanSampleShape(RawExpenses);
    assert RawExpenses[6] in RawExpenses;
  }

  /**
   * The R&D total of the cleaned sample is 1500.00 + 3200.00 + 12000.00 =
   * 16700.00 (TXN001, TXN003, TXN005), and the credit estimate 1670.00.
   */
  lemma SampleRnDTotal()
    ensures TotalRnDSpend(CleanExpenses(RawExpenses)) == 1670000
    ensures TaxCredit(TotalRnDSpend(CleanExpenses(RawExpenses))) == 167000.0
  {
    SampleCleaning();
    var kept := RawExpenses[..5] + [RawExpenses[7]];
    var c := Classify(kept);
    assert c == CleanExpenses(RawExpenses);
    CloudServerEligible();
    TeamLunchNotEligible();
    PythonScriptingEligible();
    BrochureNotEligible();
    LabEquipmentEligible();
    ClientDinnerNotEligible();
    EligibleSumOfSix(c);
  }

  /** Six rows are left after cleaning the sample. */
  lemma SampleCleanedCount()
    ensures |CleanExpenses(RawExpenses)| == 6
  {
    SampleCleaning();
  }

  /** The reference R&D sum of six rows, written out. */
  lemma EligibleSumOfSix(c: seq<TaggedExpense>)
    requires |c| == 6
    ensures EligibleSum(c) ==
      (if c[0].rndEligible then c[0].row.amount else 0) +
      (if c[1].rndEligible then c[1].row.amount else 0) +
      (if c[2].rndEligible then c[2].row.amount else 0) +
      (if c[3].rndEligible then c[3].row.amount else 0) +
      (if c[4].rndEligible then c[4].row.amount else 0) +
      (if c[5].rndEligible then c[5].row.amount else 0)
  {
    forall k | 0 <= k < 6
      ensures EligibleSum(c[k..]) == (if c[k].rndEligible then c[k].row.amount else 0) + EligibleSum(c[k + 1..])
    {
      assert c[k..][1..] == c[k + 1..];
    }
    assert c[6..] == [];
  }

  // ---------------------------------------------------------------------------
  // Depreciating the sample assets
  // ---------------------------------------------------------------------------

  /**
   * 1200/5 = 240.00, 50000/5 = 10000.00, 300/7 = 42.86 and 2500/5 = 500.00
   * a year, 10782.86 in all, whatever the parser makes of the dates.
   */
  lemma SampleDepreciation(parse: string -> Option<Date>)
    ensures PositiveLives(RawAssets)
    ensures var calculated := CalculateAssets(RawAssets, parse);
      calculated[0].annualDepreciation == 24000 &&
      calculated[1].annualDepreciation == 1000000 &&
      calculated[2].annualDepreciation == 4286 &&
      calculated[3].annualDepreciation == 50000 &&
      TotalDepreciation(calculated) == 1078286
  {
    var calculated := CalculateAssets(RawAssets, parse);
    forall k | 0 < k <= 4
      ensures TotalDepreciation(calculated[..k])
        == TotalDepreciation(calculated[..k - 1]) + calculated[k - 1].annualDepreciation
    {
      assert calculated[..k][..k - 1] == calculated[..k - 1];
    }
    assert calculated[..4] == calculated;
  }

  /** All four sample dates read as dates, so no date is reported invalid. */
  lemma SampleDates(parse: string -> Option<Date>)
    requires forall i :: 0 <= i < |RawAssets| ==> parse(RawAssets[i].purchaseDate) != None
    ensures InvalidDateCount(RawAssets, parse) == 0
  {
  }

  /** The summary sheet of the sample run, with any parser. */
  lemma SampleSummary(parse: string -> Option<Date>)
    ensures PositiveLives(RawAssets)
    ensures Summary(CleanExpenses(RawExpenses), CalculateAssets(RawAssets, parse)) == [
      Metric(SummaryLabels[0], 1670000.0),
      Metric(SummaryLabels[1], 1078286.0),
      Metric(SummaryLabels[2], 167000.0)]
  {
    SampleRnDTotal();
    SampleDepreciation(parse);
  }

  // ---------------------------------------------------------------------------
  // The three stages in order on the sample data
  // ---------------------------------------------------------------------------

  /**
   * Runs the cleaner, the depreciator and the report builder in that order
   * on the sample tables, with any parser that reads the four sample dates.
   */
  method RunSamplePipeline(parse: string -> Option<Date>)
      returns (report: CleaningReport, invalidDates: nat, sheets: seq<Sheet>)
    requires forall i :: 0 <= i < |RawAssets| ==> parse(RawAssets[i].purchaseDate) != None
    ensures report == CleaningReport(8, 1, 1, 6) && report.Dropped() == 2
    ensures invalidDates == 0
    ensures |sheets| == 3
    ensures sheets[0].table.MetricTable?
    ensures sheets[0].table.metrics == [
      Metric(SummaryLabels[0], 1670000.0),
      Metric(SummaryLabels[1], 1078286.0),
      Metric(SummaryLabels[2], 167000.0)]
  {
    SampleDeduplication();
    SampleCleaning();
    SampleCleanedCount();
    SampleSummary(parse);
    SampleDates(parse);
    var cleaned;
    cleaned, report := CleanExpenseData(RawExpenses);
    var calculated;
    calculated, invalidDates := ProcessAssetDepreciation(RawAssets, parse);
    sheets := CreateExcelReport(cleaned, calculated);
  }
}
