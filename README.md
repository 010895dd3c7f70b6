# Tax-ETL-Pipeline, modelled in Dafny

The pipeline prepares a tax-ready report from two raw tables in three stages:

1. **Expense cleaning** (`clean_expense_data`): rows that repeat an earlier
   Transaction_ID are removed, keeping the first one. Rows with no
   Transaction_ID are then removed. Every remaining row is tagged
   Is_RnD_Eligible when its description contains one of seven R&D keywords,
   ignoring case.
2. **Asset depreciation** (`process_asset_depreciation`): every purchase
   date is normalised. Dates that cannot be read are counted. Every asset
   gets a straight-line annual depreciation of Cost / Useful_Life_Years,
   rounded to the cent.
3. **Report** (`create_excel_report`): three summary metrics are computed:
   the total R&D-eligible spend, the total annual depreciation, and a tax
   credit estimate of 10% of the R&D spend. They are written with both
   detail tables as a three-sheet workbook.

The model has one module per concern:

- `Rows`: boolean row masks, `Count` (the sum of a mask) and `Select`
  (boolean indexing `df[mask]`), with their order and membership facts.
- `Text`: ASCII lower-casing and substring search.
- `Expenses`: stage 1.
- `Depreciation`: stage 2.
- `Report`: stage 3.
- `Fixture`: the sample tables of `generate_data.py`, run through all
  three stages.

Each stage is a method. It returns the stage's output table together with
the counts the stage announces. Its contract ties the result to pure
specification functions, and lemmas prove the properties of those
functions.

Units and representation:

- Money is integer cents, so "round to two decimals" is exact
  round-half-to-even of a rational number of cents. Ties go to the even
  value, as numpy's rounding does.
- The tax credit is a `real` number of cents: exactly a tenth of the R&D
  total.
- A missing cell (NaN, NaT) is `None`. Duplicate detection treats all
  missing Transaction_IDs as equal to one another, as the data frame's
  `duplicated` does. So the first row without an ID survives
  deduplication, and the missing-ID drop then removes it. The cleaner
  therefore reports at most one missing-ID removal.
- A missing description reads as the text `"nan"` when classified.

With the sample data, the "Consulting Fee for UX Design" row (5000.00,
eligible by keyword) has no Transaction_ID. It is removed before
classification, so the run's R&D total is 16700.00 (TXN001, TXN003 and
TXN005) and its credit estimate 1670.00, not 21700.00 and 2170.00. The
model follows the code.

## Model

| member | source | states |
|---|---|---|
| Rows.Count | etl_pipeline.py:24 | The sum of a boolean column is at most its length; it is zero iff no entry is true, and equals the length iff every entry is true. |
| Rows.Not | etl_pipeline.py:21-27 | The `~` of a mask: same length, every entry flipped; `drop_duplicates` and `dropna` keep the rows of the negated duplicate and missing-ID masks. |
| Rows.CountNot | etl_pipeline.py:17-21 | Negating a mask (`~`) turns its count c into length minus c. |
| Rows.Select | etl_pipeline.py:21 | Boolean indexing keeps exactly `Count(mask)` rows, and every kept row comes from the input. |
| Rows.Positions | etl_pipeline.py:21 | The kept row labels are exactly the true positions, strictly increasing. |
| Rows.SelectAt | etl_pipeline.py:21 | The k-th selected row is the input row at the k-th true position: selection keeps order. |
| Rows.SelectMembership | etl_pipeline.py:27 | A value is selected iff it sits at a position the mask keeps. |
| Rows.SelectAll | etl_pipeline.py:27 | A mask with no false entry selects the whole table unchanged. |
| Rows.SelectNoneMarked | etl_pipeline.py:18-27 | Skipping a removal whose mask marks no row leaves the same table as performing it. |
| Rows.CountConcat | etl_pipeline.py:63 | Counting distributes over concatenated masks. |
| Rows.SelectConcat | etl_pipeline.py:93 | Selecting from two concatenated tables is concatenating the two selections. |
| Rows.SelectAllBut | etl_pipeline.py:21 | A mask false at exactly one position removes exactly that row. |
| Text.LowerChar | etl_pipeline.py:39 | Lower-casing a character maps each capital letter to its lower-case partner (code point plus 32), keeps every other character, and leaves no capital letter. |
| Text.Lower | etl_pipeline.py:39 | Lower-casing keeps the length and maps every character by `LowerChar`. |
| Text.LowerIdempotent | etl_pipeline.py:39 | Lower-casing twice is lower-casing once. |
| Text.LowerConcat | etl_pipeline.py:39 | Lower-casing distributes over concatenation. |
| Text.Contains | etl_pipeline.py:39 | The `in` test on strings holds iff the needle occurs at some position of the text. |
| Text.ContainsInContext | etl_pipeline.py:39 | A contained needle stays contained when text is added on either side. |
| Expenses.Duplicated | etl_pipeline.py:17 | The keep-first duplicate mask marks a row iff an earlier row has the same Transaction_ID (missing IDs equal). |
| Expenses.DropDuplicatesKeepsFirstOccurrences | etl_pipeline.py:21 | Deduplication keeps, in input order, exactly the rows that are the first with their ID. |
| Expenses.DropDuplicatesUniqueIds | etl_pipeline.py:15-21 | After deduplication no two rows share a Transaction_ID. |
| Expenses.FirstOccurrenceExists | etl_pipeline.py:16 | Every row's ID has a first occurrence at or before the row. |
| Expenses.DropDuplicatesKeepsEveryId | etl_pipeline.py:16-21 | Deduplication neither loses nor invents a Transaction_ID. |
| Expenses.DropDuplicates | etl_pipeline.py:17-21 | `drop_duplicates(keep='first')` removes exactly as many rows as the duplicate mask marks (the ALERT figure), and every row it keeps comes from the input. |
| Expenses.DropDuplicatesOfUnique | etl_pipeline.py:17-21 | A table with distinct IDs has no duplicate mark and is left as it is. |
| Expenses.IsNull | etl_pipeline.py:24 | The missing-ID mask marks exactly the rows without a Transaction_ID. |
| Expenses.DropMissingIds | etl_pipeline.py:24-27 | `dropna` on Transaction_ID removes exactly as many rows as the missing-ID mask counts; every row it keeps comes from the input and has an ID. |
| Expenses.DropMissingIdsKeepsIdentified | etl_pipeline.py:24-27 | The missing-ID drop keeps, in order, exactly the rows with an ID, removing as many rows as the mask counts. |
| Expenses.DropMissingIdsOfIdentified | etl_pipeline.py:24-27 | A table whose rows all have IDs is left as it is. |
| Expenses.DropMissingIdsPreservesUnique | etl_pipeline.py:27 | The missing-ID drop keeps distinct IDs distinct. |
| Expenses.MissingAfterDedup | etl_pipeline.py:17-24 | After deduplication exactly one row lacks an ID if the input has any such row, else none. |
| Expenses.UniqueAtMostOneMissing | etl_pipeline.py:24 | A table with distinct IDs has at most one row without an ID. |
| Expenses.AnyKeyword | etl_pipeline.py:39 | `any(...)` over the keywords holds iff some lower-cased keyword is contained in the text. |
| Expenses.IsRnDEligible | etl_pipeline.py:38-40 | The flag of a description holds iff some keyword, lower-cased, is contained in the lower-cased description text. |
| Expenses.MissingDescriptionNotEligible | etl_pipeline.py:39 | A missing description is read as `str(NaN)`, the text "nan", which holds no keyword, so it is never eligible. |
| Expenses.IsRnDEligibleMeaning | etl_pipeline.py:34-40 | A description is eligible iff some keyword, lower-cased, occurs at some position of the lower-cased description. |
| Expenses.EligibilityIgnoresCase | etl_pipeline.py:39 | Descriptions that agree after lower-casing are classified alike. |
| Expenses.EligibilityInContext | etl_pipeline.py:39 | An eligible description stays eligible with text added on either side (substring match, not whole words). |
| Expenses.Classify | etl_pipeline.py:38-40 | The flag column is added to every row; rows and order are unchanged. |
| Expenses.CleanExpenses | etl_pipeline.py:15-40 | The cleaned table has one row fewer than the input for each duplicate mark and each missing ID left after deduplication; every row has an ID and carries the classifier's flag. |
| Expenses.CleanExpensesIsCleaned | etl_pipeline.py:15-40 | Cleaned rows all have an ID, no two share one, and each flag is the classifier's verdict. |
| Expenses.CleanExpensesContents | etl_pipeline.py:15-40 | A row is in the cleaned table iff it has an ID and is the first input row with that ID. |
| Expenses.CleaningIdempotent | etl_pipeline.py:15-40 | Cleaning a cleaned table finds no duplicate and no missing ID and gives the same table. |
| Expenses.CleanExpenseData | etl_pipeline.py:4-47 | The stage returns the cleaned table and the counts it reports: rows loaded, duplicates removed, missing IDs removed (1 iff any ID is missing), rows kept, and rows dropped as their sum. |
| Depreciation.RoundHalfEven | etl_pipeline.py:73 | The result is within half a unit of n / d, and on a tie it is even. |
| Depreciation.RoundHalfEvenUnique | etl_pipeline.py:73 | Only one integer is a half-to-even rounding of n / d. |
| Depreciation.RoundHalfEvenError | etl_pipeline.py:73 | The rounded value differs from the exact quotient by at most 0.5. |
| Depreciation.AnnualDepreciation | etl_pipeline.py:73 | Annual_Depreciation is Cost / Useful_Life_Years rounded to the cent, ties to even. |
| Depreciation.NormalizeDates | etl_pipeline.py:60 | Every row's date text goes to the parser; the column has one entry per row. |
| Depreciation.IsNaT | etl_pipeline.py:63 | The not-a-date mask marks exactly the unread dates. |
| Depreciation.InvalidDateCount | etl_pipeline.py:63-64 | The invalid-date count is at most the row count, and zero iff every date was read. |
| Depreciation.InvalidDateCountConcat | etl_pipeline.py:63 | Invalid dates add up over the parts of a table, with each date read on its own (see Left out). |
| Depreciation.CalculateAssets | etl_pipeline.py:60-73 | Every row is kept as it is, with its parsed date and its rounded depreciation. |
| Depreciation.DepreciationIgnoresDates | etl_pipeline.py:60-73 | The depreciation of a row does not depend on how its date was read. |
| Depreciation.ProcessAssetDepreciation | etl_pipeline.py:49-76 | The stage keeps every row, gives each its rounded depreciation, and reports the invalid-date count, zero iff every normalised date is present. |
| Report.EligibleMask | etl_pipeline.py:93 | The `== True` filter marks exactly the eligible rows. |
| Report.SumAmountsConcat | etl_pipeline.py:93 | The Amount sum adds up over the parts of a table. |
| Report.RnDRows | etl_pipeline.py:93 | `df[df['Is_RnD_Eligible'] == True]` holds one row per eligible input row, each eligible and taken from the input. |
| Report.RnDRowsConcat | etl_pipeline.py:93 | The eligible-row filter distributes over concatenation. |
| Report.RnDRowsSingle | etl_pipeline.py:93 | A single row passes the filter iff it is eligible. |
| Report.RnDRowsSum | etl_pipeline.py:93 | The Amount sum of the filtered rows equals the front-to-back sum of the eligible amounts. |
| Report.TotalRnDSpend | etl_pipeline.py:93 | total_rnd_spend equals the reference sum that adds each row's amount iff the row is eligible. |
| Report.TotalRnDSpendConcat | etl_pipeline.py:93 | The R&D total of a concatenation is the sum of the parts' totals. |
| Report.TotalRnDSpendBounds | etl_pipeline.py:93 | With non-negative amounts the R&D total lies between zero and the sum of all amounts, equalling it when every row is eligible. |
| Report.TotalDepreciationConcat | etl_pipeline.py:96 | total_depreciation, the Annual_Depreciation column sum, adds up over the parts of a table. |
| Report.TotalDepreciationError | etl_pipeline.py:73-96 | Rounding each row moves the total depreciation at most half a cent per row from the exact total. |
| Report.TaxCredit | etl_pipeline.py:101 | The credit is exactly a tenth of the R&D total, and lies between zero and it for a non-negative total. |
| Report.Summary | etl_pipeline.py:99-103 | Three metrics in fixed order with their labels: the R&D total, the total depreciation, and a credit one tenth of the first. |
| Report.CreateExcelReport | etl_pipeline.py:83-110 | Three sheets in order, named as in the workbook: the summary, then both input tables unchanged. |
| Fixture.CloudServerEligible | generate_data.py:16 | "AWS Cloud Server for Prototype Hosting" is eligible. |
| Fixture.PythonScriptingEligible | generate_data.py:18 | "Python Scripting for Data Analysis" is eligible. |
| Fixture.LabEquipmentEligible | generate_data.py:20 | "Lab Equipment - Oscilloscope" is eligible. |
| Fixture.UxDesignEligible | generate_data.py:22 | "Consulting Fee for UX Design" is eligible. |
| Fixture.CloudySkyEligible | etl_pipeline.py:39 | A keyword inside a longer word ("CloudySky") counts. |
| Fixture.TeamLunchNotEligible | generate_data.py:17 | "Team Lunch at Chipotle" is not eligible. |
| Fixture.BrochureNotEligible | generate_data.py:19 | "Marketing Brochure Printing" is not eligible. |
| Fixture.ClientDinnerNotEligible | generate_data.py:23 | "Client Dinner" is not eligible. |
| Fixture.SampleDuplicated | generate_data.py:13 | In the sample only the second TXN002 row is marked duplicate. |
| Fixture.SampleDeduplication | generate_data.py:13 | Deduplicating the sample removes that one row and nothing else. |
| Fixture.CleanSampleShape | etl_pipeline.py:17-27 | For eight rows with row 5 a repeat and row 6 without an ID, cleaning keeps rows 0 to 4 and row 7. |
| Fixture.SampleCleaning | generate_data.py:12-27 | The sample has a missing ID, and cleaning keeps TXN001 to TXN006 in order. |
| Fixture.SampleRnDTotal | generate_data.py:12-27 | The cleaned sample's R&D total is 16700.00 and its credit estimate 1670.00. |
| Fixture.SampleCleanedCount | generate_data.py:12-27 | Six rows are left after cleaning the sample. |
| Fixture.SampleDepreciation | generate_data.py:36-42 | The sample depreciations are 240.00, 10000.00, 42.86 and 500.00, 10782.86 in all. |
| Fixture.SampleSummary | generate_data.py:12-42 | With any date parser, the sample summary sheet holds 16700.00, 10782.86 and 1670.00 under its three labels. |
| Fixture.SampleDates | generate_data.py:39 | With a parser that reads the four sample dates, no date is reported invalid. |
| Fixture.RunSamplePipeline | etl_pipeline.py:116-133 | For any date parser that reads all four sample dates (its requires), the three stages run in order on the sample report 8 rows loaded, 1 duplicate, 1 missing ID, 6 kept and 2 dropped; no invalid date; and the summary 16700.00, 10782.86, 1670.00. |

## Left out

- Reading and writing CSV and Excel files: each stage takes and returns tables as values. The CSV round trip between stages is the identity in the model.
- The console messages (`print`) are left out. The counts they show are the stage methods' outputs: the cleaning report and the invalid-date count.
- `pd.to_datetime`'s format inference is not part of this model. The parser is a parameter, any function from a date text to a date or nothing.
- Depreciation.NormalizeDates: reads each row's date on its own, with the same parser for every row. `pd.to_datetime` on a whole column may infer one format from the first non-missing date and coerce dates in other formats to NaT, so one row's result can depend on another row's; the model does not capture that dependence. `InvalidDateCountConcat` holds under this per-row reading only.
- Floating point: amounts and costs are exact cents, depreciation is rounded exactly, and the credit is an exact `real`. Binary floating-point error in `Cost / Useful_Life_Years`, in the sums and in `* 0.10` is not modelled.
- Depreciation.CalculateAssets: requires a positive useful life in every row. The code does not check it; a zero life gives inf (or NaN when Cost is 0) and a negative life a negative figure in the data frame, which the model does not represent.
- A missing Amount, Cost or Useful_Life_Years cell (NaN) is not modelled; those columns are always present numbers.
- Depreciation.ProcessAssetDepreciation: carries the same positive-life requirement, for the same reason.
- Text.Lower: lower-cases ASCII letters only; Unicode case mapping is not modelled.
- The sample-calculation message's `df.iloc[0]` (etl_pipeline.py:80) fails on an empty asset table; the model has no error path for it, since the message is left out.
- The `__main__` file paths and the directory creation and file writes of `generate_data.py` are left out; its two tables are the model's sample constants.
