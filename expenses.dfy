/**
 * Stage 1, the expense cleaner (`clean_expense_data`): remove rows that repeat
 * an earlier Transaction_ID, then rows without a Transaction_ID, then tag every
 * surviving row with its R&D eligibility.
 *
 * Amounts are integer cents. A missing ID is `None`; as in a data frame's
 * duplicate detection, all missing IDs are equal to one another, so the first
 * row without an ID survives deduplication and is then removed by the
 * missing-ID drop.
 */
module Expenses {
  import opened Rows
  import opened Text

  /** A raw expense row: Transaction_ID, Date, Description, Amount, Department. */
  datatype Expense = Expense(
    id: Option<string>,
    date: string,
    description: Option<string>,
    amount: int,
    department: string)

  /** A cleaned expense row: the raw row plus its Is_RnD_Eligible column. */
  datatype TaggedExpense = TaggedExpense(row: Expense, rndEligible: bool)

  /** What the cleaner reports: rows loaded, removed by each rule, and kept. */
  datatype CleaningReport = CleaningReport(
    initialCount: nat,
    duplicatesRemoved: nat,
    missingIdsRemoved: nat,
    finalCount: nat)
  {
    /** The "Dropped N rows" figure. */
    function Dropped(): int { initialCount - finalCount }
  }

  /** The set of Transaction_ID values (missing included) occurring in `rows`. */
  function IdsOf(rows: seq<Expense>): set<Option<string>>
  {
    set r | r in rows :: r.id
  }

  /** No two rows share a Transaction_ID. */
  predicate UniqueIds(rows: seq<Expense>)
  {
    forall k, l :: 0 <= k < l < |rows| ==> rows[k].id != rows[l].id
  }

  /** Row `i` is the first in `rows` to carry its Transaction_ID. */
  predicate IsFirstOccurrence(rows: seq<Expense>, i: int)
    requires 0 <= i < |rows|
  {
    forall j :: 0 <= j < i ==> rows[j].id != rows[i].id
  }

  // ---------------------------------------------------------------------------
  // Deduplication on Transaction_ID, keeping the first occurrence
  // ---------------------------------------------------------------------------

  /**
   * The duplicate mask with keep-first semantics: a row is marked exactly
   * when some earlier row has the same Transaction_ID.
   */
  function Duplicated(rows: seq<Expense>): (d: seq<bool>)
    ensures |d| == |rows|
    ensures forall i :: 0 <= i < |rows| ==> (d[i] <==> !IsFirstOccurrence(rows, i))
  {
    seq(|rows|, i requires 0 <= i < |rows| => rows[i].id in IdsOf(rows[..i]))
  }

  /**
   * The rows left after removing every duplicate-marked row: as many rows as
   * the mask leaves unmarked, each taken from the input.
   */
  function DropDuplicates(rows: seq<Expense>): (r: seq<Expense>)
    ensures |r| == |rows| - Count(Duplicated(rows))
    ensures forall x :: x in r ==> x in rows
  {
    CountNot(Duplicated(rows));
    Select(rows, Not(Duplicated(rows)))
  }

  /** Row labels (input indices) that deduplication keeps, in order. */
  function DedupPositions(rows: seq<Expense>): seq<nat>
  {
    Positions(Not(Duplicated(rows)))
  }

  /**
   * Deduplication keeps exactly the first occurrence of each Transaction_ID,
   * in input order: the k-th output row is the input row at the k-th kept
   * position, the kept positions increase, and an input position is kept iff
   * it is the first occurrence of its ID.
   */
  lemma DropDuplicatesKeepsFirstOccurrences(rows: seq<Expense>)
    ensures var r, p := DropDuplicates(rows), DedupPositions(rows);
      |r| == |p| &&
      (forall k :: 0 <= k < |p| ==> p[k] < |rows| && r[k] == rows[p[k]]) &&
      (forall k, l :: 0 <= k < l < |p| ==> p[k] < p[l]) &&
      (forall i :: 0 <= i < |rows| ==> (i in p <==> IsFirstOccurrence(rows, i)))
  {
    var mask := Not(Duplicated(rows));
    SelectAt(rows, mask);
  }

  /** After deduplication no two rows share a Transaction_ID. */
  lemma DropDuplicatesUniqueIds(rows: seq<Expense>)
    ensures UniqueIds(DropDuplicates(rows))
  {
    var r, p := DropDuplicates(rows), DedupPositions(rows);
    DropDuplicatesKeepsFirstOccurrences(rows);
    forall k, l | 0 <= k < l < |r| ensures r[k].id != r[l].id {
      assert p[k] < p[l];
      assert IsFirstOccurrence(rows, p[l]);
    }
  }

  /** Some first occurrence of the ID of row `i` lies at or before `i`. */
  lemma {:induction false} FirstOccurrenceExists(rows: seq<Expense>, i: nat)
    requires i < |rows|
    ensures exists j :: 0 <= j <= i && rows[j].id == rows[i].id && IsFirstOccurrence(rows, j)
    decreases i
  {
    if !IsFirstOccurrence(rows, i) {
      var j :| 0 <= j < i && rows[j].id == rows[i].id;
      FirstOccurrenceExists(rows, j);
    }
  }

  /** Deduplication neither loses nor invents a Transaction_ID. */
  lemma DropDuplicatesKeepsEveryId(rows: seq<Expense>)
    ensures IdsOf(DropDuplicates(rows)) == IdsOf(rows)
  {
    var r, p := DropDuplicates(rows), DedupPositions(rows);
    DropDuplicatesKeepsFirstOccurrences(rows);
    forall id | id in IdsOf(rows) ensures id in IdsOf(r) {
      var x :| x in rows && x.id == id;
      var i :| 0 <= i < |rows| && rows[i] == x;
      FirstOccurrenceExists(rows, i);
      var j :| 0 <= j <= i && rows[j].id == rows[i].id && IsFirstOccurrence(rows, j);
      var k :| 0 <= k < |p| && p[k] == j;
      assert r[k] == rows[j];
    }
  }

  /** Rows with distinct IDs carry no duplicate mark, so deduplication keeps them all. */
  lemma DropDuplicatesOfUnique(rows: seq<Expense>)
    requires UniqueIds(rows)
    ensures Count(Duplicated(rows)) == 0
    ensures DropDuplicates(rows) == rows
  {
    assert forall i :: 0 <= i < |rows| ==> IsFirstOccurrence(rows, i);
    SelectAll(rows, Not(Duplicated(rows)));
  }

  // ---------------------------------------------------------------------------
  // Dropping rows without a Transaction_ID
  // ---------------------------------------------------------------------------

  /** The missing-ID mask. */
  function IsNull(rows: seq<Expense>): (m: seq<bool>)
    ensures |m| == |rows|
    ensures forall i :: 0 <= i < |rows| ==> (m[i] <==> rows[i].id == None)
  {
    seq(|rows|, i requires 0 <= i < |rows| => rows[i].id.None?)
  }

  /**
   * The rows that carry a Transaction_ID: as many rows as the missing-ID mask
   * leaves unmarked, each taken from the input and each with an ID.
   */
  function DropMissingIds(rows: seq<Expense>): (r: seq<Expense>)
    ensures |r| == |rows| - Count(IsNull(rows))
    ensures forall k :: 0 <= k < |r| ==> r[k].id != None && r[k] in rows
  {
    CountNot(IsNull(rows));
    SelectAt(rows, Not(IsNull(rows)));
    Select(rows, Not(IsNull(rows)))
  }

  /**
   * The missing-ID drop keeps, in input order, exactly the rows that have an
   * ID, and removes as many rows as the missing-ID mask counts.
   */
  lemma DropMissingIdsKeepsIdentified(rows: seq<Expense>)
    ensures var r, p := DropMissingIds(rows), Positions(Not(IsNull(rows)));
      |r| == |p| == |rows| - Count(IsNull(rows)) &&
      (forall k :: 0 <= k < |r| ==> r[k].id != None) &&
      (forall k :: 0 <= k < |p| ==> p[k] < |rows| && r[k] == rows[p[k]]) &&
      (forall k, l :: 0 <= k < l < |p| ==> p[k] < p[l]) &&
      (forall i :: 0 <= i < |rows| ==> (i in p <==> rows[i].id != None))
  {
    SelectAt(rows, Not(IsNull(rows)));
    CountNot(IsNull(rows));
  }

  /** Rows that all have IDs are left as they are. */
  lemma DropMissingIdsOfIdentified(rows: seq<Expense>)
    requires forall i :: 0 <= i < |rows| ==> rows[i].id != None
    ensures Count(IsNull(rows)) == 0
    ensures DropMissingIds(rows) == rows
  {
    SelectAll(rows, Not(IsNull(rows)));
  }

  /** The missing-ID drop keeps distinct IDs distinct. */
  lemma DropMissingIdsPreservesUnique(rows: seq<Expense>)
    requires UniqueIds(rows)
    ensures UniqueIds(DropMissingIds(rows))
  {
    DropMissingIdsKeepsIdentified(rows);
  }

  /**
   * Because deduplication treats all missing IDs as one value, at most one row
   * without an ID reaches the missing-ID drop: exactly one when the input has
   * any.
   */
  lemma MissingAfterDedup(rows: seq<Expense>)
    ensures Count(IsNull(DropDuplicates(rows))) == if None in IdsOf(rows) then 1 else 0
  {
    var r := DropDuplicates(rows);
    DropDuplicatesUniqueIds(rows);
    DropDuplicatesKeepsEveryId(rows);
    UniqueAtMostOneMissing(r);
    if None in IdsOf(rows) {
      var x :| x in r && x.id == None;
      var i :| 0 <= i < |r| && r[i] == x;
      assert IsNull(r)[i];
    } else {
      assert forall i :: 0 <= i < |r| ==> r[i] in r;
    }
  }

  /** Rows with distinct IDs hold at most one missing ID. */
  lemma {:induction false} UniqueAtMostOneMissing(rows: seq<Expense>)
    requires UniqueIds(rows)
    ensures Count(IsNull(rows)) <= 1
    decreases |rows|
  {
    if rows != [] {
      var n := |rows| - 1;
      var init := rows[..n];
      assert IsNull(rows)[..n] == IsNull(init);
      UniqueAtMostOneMissing(init);
      if rows[n].id == None {
        assert forall i :: 0 <= i < n ==> !IsNull(init)[i];
      }
    }
  }

  // ---------------------------------------------------------------------------
  // R&D classification
  // ---------------------------------------------------------------------------

  /** The fixed R&D keyword list, in its original spelling. */
  const RnDKeywords: seq<string> :=
    ["Prototype", "Lab", "Python", "Cloud", "Design", "Test", "Algorithm"]

  /** The description as the classifier sees it: a missing cell reads as "nan". */
  function DescriptionText(description: Option<string>): string
  {
    match description
    case Some(s) => s
    case None => "nan"
  }

  /** Some keyword of `keywords`, lower-cased, occurs in `text`. */
  function AnyKeyword(text: string, keywords: seq<string>): (b: bool)
    ensures b <==> exists k :: k in keywords && Contains(text, Lower(k))
    decreases |keywords|
  {
    if keywords == [] then false
    else Contains(text, Lower(keywords[0])) || AnyKeyword(text, keywords[1..])
  }

  /**
   * The Is_RnD_Eligible flag: the lower-cased description contains the
   * lower-cased form of some R&D keyword as a substring (inside a word too).
   */
  function IsRnDEligible(description: Option<string>): (b: bool)
    ensures b <==> exists k :: k in RnDKeywords && Contains(Lower(DescriptionText(description)), Lower(k))
  {
    AnyKeyword(Lower(DescriptionText(description)), RnDKeywords)
  }

  /**
   * No keyword of `keywords` occurs in the lower-cased text when no letter of
   * the text lower-cases into `missing` and every keyword holds a letter of
   * `missing`; `letters[j]` names such a letter for keyword `j`.
   */
  lemma NoKeywordByMissingLetters(s: string, missing: set<char>, keywords: seq<string>, letters: seq<char>)
    requires forall i :: 0 <= i < |s| ==> LowerChar(s[i]) !in missing
    requires |letters| == |keywords|
    requires forall j :: 0 <= j < |keywords| ==> letters[j] in missing && letters[j] in Lower(keywords[j])
    ensures !AnyKeyword(Lower(s), keywords)
  {
    var text := Lower(s);
    forall j | 0 <= j < |keywords| ensures !Contains(text, Lower(keywords[j])) {
      assert letters[j] !in text;
      NotContainsMissingChar(text, Lower(keywords[j]), letters[j]);
    }
  }

  lemma KeywordsLowered()
    ensures Lower(RnDKeywords[0]) == "prototype" && Lower(RnDKeywords[1]) == "lab"
    ensures Lower(RnDKeywords[2]) == "python" && Lower(RnDKeywords[3]) == "cloud"
    ensures Lower(RnDKeywords[4]) == "design" && Lower(RnDKeywords[5]) == "test"
    ensures Lower(RnDKeywords[6]) == "algorithm"
  {
  }

  /**
   * A missing description reads as "nan", which holds none of the keywords,
   * so a row without a description is never eligible.
   */
  lemma MissingDescriptionNotEligible()
    ensures DescriptionText(None) == "nan"
    ensures !IsRnDEligible(None)
  {
    KeywordsLowered();
    NoKeywordByMissingLetters("nan", {'p', 'l', 'c', 'd', 't'}, RnDKeywords, "plpcdtl");
  }

  /** Eligibility holds iff some keyword occurs, case-insensitively, in the description. */
  lemma IsRnDEligibleMeaning(description: Option<string>)
    ensures IsRnDEligible(description) <==>
      exists k, i :: k in RnDKeywords && OccursAt(Lower(DescriptionText(description)), Lower(k), i)
  {
  }

  /** Eligibility depends only on the lower-cased description. */
  lemma EligibilityIgnoresCase(a: string, b: string)
    requires Lower(a) == Lower(b)
    ensures IsRnDEligible(Some(a)) == IsRnDEligible(Some(b))
  {
  }

  /** An eligible description stays eligible with text added on either side. */
  lemma EligibilityInContext(prefix: string, s: string, suffix: string)
    requires IsRnDEligible(Some(s))
    ensures IsRnDEligible(Some(prefix + s + suffix))
  {
    var k :| k in RnDKeywords && Contains(Lower(s), Lower(k));
    LowerConcat(prefix + s, suffix);
    LowerConcat(prefix, s);
    ContainsInContext(Lower(prefix), Lower(s), Lower(suffix), Lower(k));
  }

  /** Adds the Is_RnD_Eligible column; the rows and their order are unchanged. */
  function Classify(rows: seq<Expense>): (r: seq<TaggedExpense>)
    ensures |r| == |rows|
    ensures forall i :: 0 <= i < |rows| ==>
              r[i].row == rows[i] && r[i].rndEligible == IsRnDEligible(rows[i].description)
  {
    seq(|rows|, i requires 0 <= i < |rows| => TaggedExpense(rows[i], IsRnDEligible(rows[i].description)))
  }

  /** The raw rows underneath tagged rows (the table without its added column). */
  function Untag(rows: seq<TaggedExpense>): (r: seq<Expense>)
    ensures |r| == |rows|
    ensures forall i :: 0 <= i < |rows| ==> r[i] == rows[i].row
  {
    seq(|rows|, i requires 0 <= i < |rows| => rows[i].row)
  }

  // ---------------------------------------------------------------------------
  // The stage as a whole
  // ---------------------------------------------------------------------------

  /**
   * The cleaned table: deduplicate, drop missing IDs, classify. It has one row
   * fewer for every duplicate mark and every missing ID left after
   * deduplication; every row has an ID and carries the classifier's flag.
   */
  function CleanExpenses(raw: seq<Expense>): (r: seq<TaggedExpense>)
    ensures |r| == |raw| - Count(Duplicated(raw)) - Count(IsNull(DropDuplicates(raw)))
    ensures forall i :: 0 <= i < |r| ==>
              r[i].row.id != None && r[i].rndEligible == IsRnDEligible(r[i].row.description)
  {
    Classify(DropMissingIds(DropDuplicates(raw)))
  }

  /** The cleaner's invariants: IDs present and distinct, flags as the classifier says. */
  predicate IsCleaned(rows: seq<TaggedExpense>)
  {
    (forall i :: 0 <= i < |rows| ==> rows[i].row.id != None) &&
    UniqueIds(Untag(rows)) &&
    (forall i :: 0 <= i < |rows| ==> rows[i].rndEligible == IsRnDEligible(rows[i].row.description))
  }

  /** The cleaned rows keep the cleaner's invariants. */
  lemma CleanExpensesIsCleaned(raw: seq<Expense>)
    ensures IsCleaned(CleanExpenses(raw))
  {
    var d := DropDuplicates(raw);
    var c := DropMissingIds(d);
    DropDuplicatesUniqueIds(raw);
    DropMissingIdsPreservesUnique(d);
    DropMissingIdsKeepsIdentified(d);
    assert Untag(CleanExpenses(raw)) == c;
  }

  /**
   * A row is in the cleaned table iff it has an ID and is the first input row
   * with that ID.
   */
  lemma CleanExpensesContents(raw: seq<Expense>, e: Expense)
    ensures e in Untag(CleanExpenses(raw)) <==>
      exists i :: 0 <= i < |raw| && raw[i] == e && e.id != None && IsFirstOccurrence(raw, i)
  {
    var d := DropDuplicates(raw);
    var c := DropMissingIds(d);
    assert Untag(CleanExpenses(raw)) == c;
    SelectMembership(d, Not(IsNull(d)), e);
    SelectMembership(raw, Not(Duplicated(raw)), e);
    assert e in c <==> e in d && e.id != None;
  }

  /**
   * Cleaning is idempotent: the cleaned rows contain no duplicate and no
   * missing ID, so cleaning them again removes nothing and tags them the same.
   */
  lemma CleaningIdempotent(raw: seq<Expense>)
    ensures var c := Untag(CleanExpenses(raw));
      Count(Duplicated(c)) == 0 && DropDuplicates(c) == c &&
      Count(IsNull(c)) == 0 && DropMissingIds(c) == c &&
      CleanExpenses(c) == CleanExpenses(raw)
  {
    var d := DropDuplicates(raw);
    var c := DropMissingIds(d);
    CleanExpensesIsCleaned(raw);
    assert Untag(CleanExpenses(raw)) == c;
    DropDuplicatesOfUnique(c);
    DropMissingIdsOfIdentified(c);
  }

  /**
   * Runs the cleaner over a loaded table: the table is rebound after each
   * removal, which happens only when its mask marks some row, then the flag
   * column is added. Returns the cleaned rows and the counts it reports.
   */
  method CleanExpenseData(raw: seq<Expense>) returns (cleaned: seq<TaggedExpense>, report: CleaningReport)
    ensures cleaned == CleanExpenses(raw)
    ensures IsCleaned(cleaned)
    ensures report.initialCount == |raw|
    ensures report.duplicatesRemoved == Count(Duplicated(raw))
    ensures report.missingIdsRemoved == if None in IdsOf(raw) then 1 else 0
    ensures report.finalCount == |cleaned|
      == report.initialCount - report.duplicatesRemoved - report.missingIdsRemoved
    ensures report.Dropped() == report.duplicatesRemoved + report.missingIdsRemoved
  {
    var df := raw;
    var initialCount := |df|;

    var duplicates := Count(Duplicated(df));
    if duplicates > 0 {
      df := DropDuplicates(df);
    } else {
      SelectNoneMarked(df, Duplicated(df));
    }
    assert df == DropDuplicates(raw);

    var missingIds := Count(IsNull(df));
    MissingAfterDedup(raw);
    if missingIds > 0 {
      df := DropMissingIds(df);
    } else {
      SelectNoneMarked(df, IsNull(df));
    }
    DropMissingIdsKeepsIdentified(DropDuplicates(raw));

    cleaned := Classify(df);
    CleanExpensesIsCleaned(raw);
    report := CleaningReport(initialCount, duplicates, missingIds, |cleaned|);
  }
}
