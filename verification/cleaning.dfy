/**
 * The two cleaners of non_profit.py: `clean_donations` and
 * `clean_volunteers`. Each normalises the header, checks the required
 * columns, rewrites the required columns cell by cell, and keeps the rows
 * that pass its tests, in their original order.
 */
module Cleaning {
  import opened Text
  import opened Frames

  /**
   * Why a cleaner raises: required columns absent (the ValueError, naming
   * them in declaration order), a required column that occurs more than once
   * (pandas then hands back a DataFrame where a Series is needed), or an
   * amount that `float()` rejects (the row where that happens first).
   */
  datatype CleanError = MissingColumns(names: seq<string>) | NotUnique(name: string) | NotNumeric(row: nat)

  const DonationColumns: seq<string> := ["donor_name", "method", "campaign", "amount", "date"]
  /** The donation columns whose repetition makes clean_donations raise before the amounts are converted. */
  const DonationTextColumns: seq<string> := ["donor_name", "method", "campaign", "amount"]
  const VolunteerColumns: seq<string> := ["name", "dept", "phone", "hours"]

  /** `df.columns.str.strip().str.lower().str.replace(" ", "_")`. */
  function NormalizeHeaders(columns: seq<string>): (r: seq<string>)
    ensures |r| == |columns|
  {
    if columns == [] then [] else [NormalizeHeader(columns[0])] + NormalizeHeaders(columns[1..])
  }

  lemma {:induction false} NormalizeHeadersAt(columns: seq<string>, j: nat)
    requires j < |columns|
    ensures NormalizeHeaders(columns)[j] == NormalizeHeader(columns[j])
  {
    if j > 0 {
      NormalizeHeadersAt(columns[1..], j - 1);
    }
  }

  /** Normalising a normalised header changes nothing. */
  lemma {:induction false} NormalizeHeadersIdempotent(columns: seq<string>)
    ensures NormalizeHeaders(NormalizeHeaders(columns)) == NormalizeHeaders(columns)
  {
    if columns != [] {
      NormalizeHeaderIdempotent(columns[0]);
      NormalizeHeadersIdempotent(columns[1..]);
    }
  }

  /** The headers of the donation test. */
  lemma DonorNameHeader()
    ensures NormalizeHeader("Donor Name") == "donor_name"
  {
    assert Strip("Donor Name") == "Donor Name" by {
      StripOfStripped("Donor Name");
    }
    assert Lower("Donor Name") == "donor name";
    assert SpacesToUnderscores("donor name") == "donor_name";
  }

  /** A header with surrounding spaces, from the volunteer test. */
  lemma PaddedNameHeader()
    ensures NormalizeHeader(" Name ") == "name"
  {
    assert Strip(" Name ") == "Name" by {
      assert TrimStart(" Name ") == "Name ";
      assert TrimEnd("Name ") == "Name";
    }
    assert Lower("Name") == "name";
    assert SpacesToUnderscores("name") == "name";
  }

  function NotIn(columns: seq<string>): string -> bool {
    c => c !in columns
  }

  /** The required names absent from the header, in the order they are required. */
  function MissingFrom(required: seq<string>, columns: seq<string>): (m: seq<string>)
    ensures forall c :: c in m <==> c in required && c !in columns
    ensures IsSubsequence(m, required)
    ensures m == [] <==> forall c :: c in required ==> c in columns
  {
    var m := Filter(required, NotIn(columns));
    FilterSelects(required, NotIn(columns));
    assert forall c :: c in required && c !in columns ==> c in m by {
      forall c | c in required && c !in columns ensures c in m {
        assert NotIn(columns)(c);
        assert multiset(m)[c] == multiset(required)[c] > 0;
      }
    }
    assert m != [] ==> m[0] in m;
    m
  }

  /** The first of `names` that occurs more than once in the header. */
  function FirstRepeated(names: seq<string>, columns: seq<string>): (r: Option<string>)
    ensures r.None? <==> forall c :: c in names ==> Occurrences(columns, c) <= 1
    ensures r.Some? ==> r.value in names && Occurrences(columns, r.value) > 1
    ensures r.Some? ==> forall k :: 0 <= k < IndexOf(names, r.value) ==> Occurrences(columns, names[k]) <= 1
  {
    if names == [] then None
    else if Occurrences(columns, names[0]) > 1 then
      assert names[0] in names && IndexOf(names, names[0]) == 0;
      Some(names[0])
    else
      var r := FirstRepeated(names[1..], columns);
      assert forall c :: c in names <==> c == names[0] || c in names[1..];
      if r.Some? then
        assert IndexOf(names, r.value) == 1 + IndexOf(names[1..], r.value) by {
          assert names[0] != r.value;
        }
        r
      else r
  }

  /**
   * `astype(float)` on one cell after `replace(r"[\$,]", "", regex=True)`:
   * text loses its `$` and `,` and goes through `float()`; NaN is a missing
   * value; a number stays; a timestamp cannot be converted. `None` is the
   * error.
   */
  function AmountCell(c: Cell): (r: Option<Cell>)
    ensures r.Some? ==> r.value.Num? || r.value.Missing?
  {
    match c
    case Str(s) => (
      match ParseFloat(DeleteCurrencyMarks(s))
      case Some(Finite(v)) => Some(Num(v))
      case Some(NotANumber) => Some(Missing)
      case None => None)
    case Num(v) => Some(Num(v))
    case Missing => Some(Missing)
    case Stamp(_) => None
  }

  /** The converted amount; the error case is never reached once every amount has converted. */
  function AmountValue(c: Cell): (r: Cell)
    ensures r.Num? || r.Missing?
  {
    match AmountCell(c)
    case Some(v) => v
    case None => Missing
  }

  /** The first row whose amount `float()` rejects. */
  function FirstBadAmount(rows: seq<seq<Cell>>, a: nat): (r: Option<nat>)
    requires forall i :: 0 <= i < |rows| ==> a < |rows[i]|
    ensures r.None? <==> forall i :: 0 <= i < |rows| ==> AmountCell(rows[i][a]).Some?
    ensures r.Some? ==> r.value < |rows| && AmountCell(rows[r.value][a]).None?
    ensures r.Some? ==> forall i :: 0 <= i < r.value ==> AmountCell(rows[i][a]).Some?
  {
    if rows == [] then None
    else if AmountCell(rows[0][a]).None? then Some(0)
    else
      match FirstBadAmount(rows[1..], a)
      case None => None
      case Some(k) => Some(k + 1)
  }

  /** `fillna(value)` on one cell. */
  function FillMissing(c: Cell, value: string): Cell {
    if c.Missing? then Str(value) else c
  }

  // ---------------------------------------------------------------------
  // clean_donations

  /** Every required donation column occurs exactly once. */
  predicate DonationHeaderOk(cols: seq<string>) {
    Occurrences(cols, "donor_name") == 1 && Occurrences(cols, "method") == 1 && Occurrences(cols, "campaign") == 1
    && Occurrences(cols, "amount") == 1 && Occurrences(cols, "date") == 1
  }

  /**
   * The column rewrites of clean_donations on one cell, by column name:
   * donor_name and campaign are stringified, stripped and title-cased (the
   * campaign's fillna comes after the stringification), method is stripped
   * and lower-cased, amount is converted, date is parsed.
   */
  function DonationCell(name: string, c: Cell, conv: Conversions): (r: Cell)
    ensures name == "donor_name" || name == "method" || name == "campaign" ==> r.Str? && Stripped(r.text)
    ensures name == "amount" ==> r.Num? || r.Missing?
    ensures name == "date" ==> r.Stamp? || r.Missing?
  {
    if name == "donor_name" then Str(TitleRule(Render(c, conv)))
    else if name == "method" then Str(LowerRule(Render(c, conv)))
    else if name == "campaign" then FillMissing(Str(TitleRule(Render(c, conv))), "Uncategorized")
    else if name == "amount" then AmountValue(c)
    else if name == "date" then DateCell(c, conv)
    else c
  }

  /** One row after the column rewrites (each required column occurs once, so each is rewritten once). */
  function StandardizeDonation(row: seq<Cell>, cols: seq<string>, conv: Conversions): (r: seq<Cell>)
    ensures |r| == |row|
  {
    seq(|row|, j requires 0 <= j < |row| => if j < |cols| then DonationCell(cols[j], row[j], conv) else row[j])
  }

  /** Column `j` of a rewritten row is the rule for column `j`'s name applied to cell `j`. */
  lemma StandardizedAt(row: seq<Cell>, cols: seq<string>, conv: Conversions, j: nat)
    requires j < |row| == |cols|
    ensures StandardizeDonation(row, cols, conv)[j] == DonationCell(cols[j], row[j], conv)
  {
  }

  function DonationStandardizer(cols: seq<string>, conv: Conversions): seq<Cell> -> seq<Cell> {
    row => StandardizeDonation(row, cols, conv)
  }

  /** `df["amount"] > 0`. */
  function PositiveAmount(a: nat): seq<Cell> -> bool {
    (row: seq<Cell>) => a < |row| && row[a].Num? && row[a].value > 0.0
  }

  const DonationRequired: set<string> := {"donor_name", "amount", "date"}

  /** Rows that fit a header of `n` columns. */
  predicate Fit(rows: seq<seq<Cell>>, n: nat) {
    forall i :: 0 <= i < |rows| ==> |rows[i]| == n
  }

  /**
   * `clean_donations(df)`: the cleaned frame, or the error it raises.
   * Columns that are not required pass through untouched.
   */
  function CleanDonations(t: Frame, conv: Conversions): (r: Result<Frame, CleanError>)
    ensures r.Ok? ==> r.value.columns == NormalizeHeaders(t.columns) && |r.value.rows| <= |t.rows|
    ensures MissingFrom(DonationColumns, NormalizeHeaders(t.columns)) != [] <==> r.Err? && r.error.MissingColumns?
    ensures r.Err? && r.error.MissingColumns? ==> r.error.names == MissingFrom(DonationColumns, NormalizeHeaders(t.columns))
  {
    CleanDonationsUnder(NormalizeHeaders(t.columns), t.rows, conv)
  }

  /** clean_donations once the header has been normalised to `cols`. */
  function CleanDonationsUnder(cols: seq<string>, rows: seq<seq<Cell>>, conv: Conversions): (r: Result<Frame, CleanError>)
    requires Fit(rows, |cols|)
    ensures r.Ok? ==> r.value.columns == cols && |r.value.rows| <= |rows|
    ensures MissingFrom(DonationColumns, cols) != [] <==> r.Err? && r.error.MissingColumns?
    ensures r.Err? && r.error.MissingColumns? ==> r.error.names == MissingFrom(DonationColumns, cols)
  {
    var missing := MissingFrom(DonationColumns, cols);
    if missing != [] then Err(MissingColumns(missing))
    else
      match FirstRepeated(DonationTextColumns, cols)
      case Some(c) => Err(NotUnique(c))
      case None =>
        assert "amount" in cols;
        var a := IndexOf(cols, "amount");
        match FirstBadAmount(rows, a)
        case Some(i) => Err(NotNumeric(i))
        case None =>
          if Occurrences(cols, "date") > 1 then Err(NotUnique("date"))
          else Ok(Table(cols, DonationsKept(cols, rows, conv, a)))
  }

  /** The rewritten rows that have a donor name, an amount and a date, and whose amount (column `a`) is positive. */
  function DonationsKept(cols: seq<string>, rows: seq<seq<Cell>>, conv: Conversions, a: nat): (kept: seq<seq<Cell>>)
    requires Fit(rows, |cols|)
    ensures Fit(kept, |cols|) && |kept| <= |rows|
  {
    var std := MapSeq(rows, DonationStandardizer(cols, conv));
    assert Fit(std, |cols|);
    var complete := DropNa(std, cols, DonationRequired);
    assert Fit(complete, |cols|);
    Filter(complete, PositiveAmount(a))
  }

  /** The three header checks of clean_donations pass exactly when every required column occurs once. */
  lemma DonationHeaderChecks(cols: seq<string>)
    ensures DonationHeaderOk(cols) <==>
      MissingFrom(DonationColumns, cols) == [] && FirstRepeated(DonationTextColumns, cols).None? && Occurrences(cols, "date") <= 1
  {
    DonationColumnsPresent(cols);
    DonationTextColumnsOnce(cols);
  }

  lemma DonationColumnsPresent(cols: seq<string>)
    ensures MissingFrom(DonationColumns, cols) == [] <==>
      "donor_name" in cols && "method" in cols && "campaign" in cols && "amount" in cols && "date" in cols
  {
    var present := forall c :: c in DonationColumns ==> c in cols;
    assert present <==> "donor_name" in cols && "method" in cols && "campaign" in cols && "amount" in cols && "date" in cols;
  }

  lemma DonationTextColumnsOnce(cols: seq<string>)
    ensures FirstRepeated(DonationTextColumns, cols).None? <==>
      Occurrences(cols, "donor_name") <= 1 && Occurrences(cols, "method") <= 1
      && Occurrences(cols, "campaign") <= 1 && Occurrences(cols, "amount") <= 1
  {
    var once := forall c :: c in DonationTextColumns ==> Occurrences(cols, c) <= 1;
    assert once <==> (Occurrences(cols, "donor_name") <= 1 && Occurrences(cols, "method") <= 1
      && Occurrences(cols, "campaign") <= 1 && Occurrences(cols, "amount") <= 1);
  }

  /** clean_donations succeeds exactly when each required column occurs once and every amount converts. */
  lemma CleanDonationsSucceeds(cols: seq<string>, rows: seq<seq<Cell>>, conv: Conversions)
    requires Fit(rows, |cols|)
    ensures CleanDonationsUnder(cols, rows, conv).Ok? <==>
      DonationHeaderOk(cols) &&
      forall i :: 0 <= i < |rows| ==> AmountCell(rows[i][IndexOf(cols, "amount")]).Some?
  {
    if CleanDonationsUnder(cols, rows, conv).Ok? {
      DonationsOkOnlyIf(cols, rows, conv);
    }
    if DonationHeaderOk(cols) {
      assert "amount" in cols;
      if forall i :: 0 <= i < |rows| ==> AmountCell(rows[i][IndexOf(cols, "amount")]).Some? {
        DonationsOkIf(cols, rows, conv);
      }
    }
  }

  lemma DonationsOkOnlyIf(cols: seq<string>, rows: seq<seq<Cell>>, conv: Conversions)
    requires Fit(rows, |cols|) && CleanDonationsUnder(cols, rows, conv).Ok?
    ensures DonationHeaderOk(cols) && "amount" in cols
    ensures forall i :: 0 <= i < |rows| ==> AmountCell(rows[i][IndexOf(cols, "amount")]).Some?
  {
    DonationHeaderChecks(cols);
  }

  lemma DonationsOkIf(cols: seq<string>, rows: seq<seq<Cell>>, conv: Conversions)
    requires Fit(rows, |cols|) && DonationHeaderOk(cols) && "amount" in cols
    requires forall i :: 0 <= i < |rows| ==> AmountCell(rows[i][IndexOf(cols, "amount")]).Some?
    ensures CleanDonationsUnder(cols, rows, conv).Ok?
  {
    DonationHeaderChecks(cols);
  }

  /** The source-level test a raw row must pass to survive: its amount converts to a positive number and its date parses. */
  predicate DonationKept(row: seq<Cell>, cols: seq<string>, conv: Conversions)
    requires "amount" in cols && "date" in cols
  {
    var a := IndexOf(cols, "amount");
    var d := IndexOf(cols, "date");
    a < |row| && d < |row| &&
    match AmountCell(row[a])
    case Some(Num(v)) => v > 0.0 && DateCell(row[d], conv).Stamp?
    case _ => false
  }

  function DonationTest(cols: seq<string>, conv: Conversions): seq<Cell> -> bool
    requires "amount" in cols && "date" in cols
  {
    row => DonationKept(row, cols, conv)
  }

  /** With unique required columns, a standardised row is complete in donor_name, amount and date exactly when its amount and date are present. */
  lemma DonationCompleteAt(row: seq<Cell>, cols: seq<string>, conv: Conversions)
    requires DonationHeaderOk(cols) && |row| == |cols|
    ensures "amount" in cols && "date" in cols
    ensures Complete(cols, DonationRequired)(StandardizeDonation(row, cols, conv)) <==>
      !StandardizeDonation(row, cols, conv)[IndexOf(cols, "amount")].Missing?
      && !StandardizeDonation(row, cols, conv)[IndexOf(cols, "date")].Missing?
  {
    var r := StandardizeDonation(row, cols, conv);
    assert "amount" in cols && "date" in cols;
    forall j | 0 <= j < |r| && cols[j] in DonationRequired
      ensures j == IndexOf(cols, "amount") || j == IndexOf(cols, "date") || r[j].Str?
    {
      DonationRequiredSlot(row, cols, conv, j);
    }
  }

  /** A column named donor_name, amount or date is the one amount column, the one date column, or holds text after standardisation. */
  lemma DonationRequiredSlot(row: seq<Cell>, cols: seq<string>, conv: Conversions, j: nat)
    requires DonationHeaderOk(cols) && j < |row| == |cols| && cols[j] in DonationRequired
    ensures "amount" in cols && "date" in cols
    ensures j == IndexOf(cols, "amount") || j == IndexOf(cols, "date") || StandardizeDonation(row, cols, conv)[j].Str?
  {
    assert "amount" in cols && "date" in cols;
    if cols[j] == "amount" {
      OnlyOccurrence(cols, "amount", j);
    } else if cols[j] == "date" {
      OnlyOccurrence(cols, "date", j);
    }
  }

  /**
   * The rows clean_donations returns are the input rows whose amount is a
   * positive number and whose date parses, in input order, each rewritten
   * by the column rules. A missing donor name never removes a row: it has
   * become the text "None".
   */
  lemma CleanDonationsRows(cols: seq<string>, rows: seq<seq<Cell>>, conv: Conversions)
    requires Fit(rows, |cols|) && CleanDonationsUnder(cols, rows, conv).Ok?
    ensures "amount" in cols && "date" in cols
    ensures CleanDonationsUnder(cols, rows, conv).value.rows
      == MapSeq(Filter(rows, DonationTest(cols, conv)), DonationStandardizer(cols, conv))
  {
    DonationsOkOnlyIf(cols, rows, conv);
    DonationHeaderChecks(cols);
    assert "amount" in cols && "date" in cols;
    var a := IndexOf(cols, "amount");
    var f := DonationStandardizer(cols, conv);
    var std := MapSeq(rows, f);
    var p := Complete(cols, DonationRequired);
    var q := PositiveAmount(a);
    assert CleanDonationsUnder(cols, rows, conv).value.rows == Filter(Filter(std, p), q);
    FilterTwice(std, p, q, And(p, q));
    forall i | 0 <= i < |rows|
      ensures DonationTest(cols, conv)(rows[i]) == And(p, q)(f(rows[i]))
    {
      DonationTestAgrees(rows[i], cols, conv);
    }
    FilterMap(rows, f, And(p, q), DonationTest(cols, conv));
  }

  /** The raw-row test agrees with dropna followed by the positive-amount selection on the standardised row. */
  lemma DonationTestAgrees(row: seq<Cell>, cols: seq<string>, conv: Conversions)
    requires DonationHeaderOk(cols) && |row| == |cols|
    ensures "amount" in cols && "date" in cols
    ensures DonationTest(cols, conv)(row) ==
      And(Complete(cols, DonationRequired), PositiveAmount(IndexOf(cols, "amount")))(DonationStandardizer(cols, conv)(row))
  {
    var a := IndexOf(cols, "amount");
    var d := IndexOf(cols, "date");
    var r := StandardizeDonation(row, cols, conv);
    assert DonationStandardizer(cols, conv)(row) == r;
    DonationCompleteAt(row, cols, conv);
    assert r[a] == AmountValue(row[a]);
    assert r[d] == DateCell(row[d], conv);
    assert DonationTest(cols, conv)(row) == DonationKept(row, cols, conv);
  }

  /** The output keeps input order, and the number of rows removed is the number of rows that fail the test. */
  lemma CleanDonationsSubsequence(cols: seq<string>, rows: seq<seq<Cell>>, conv: Conversions)
    requires Fit(rows, |cols|) && CleanDonationsUnder(cols, rows, conv).Ok?
    ensures "amount" in cols && "date" in cols
    ensures IsSubsequence(Filter(rows, DonationTest(cols, conv)), rows)
    ensures |rows| - |CleanDonationsUnder(cols, rows, conv).value.rows| == CountFailing(rows, DonationTest(cols, conv))
  {
    CleanDonationsRows(cols, rows, conv);
    FilterSelects(rows, DonationTest(cols, conv));
    FilterDropsFailing(rows, DonationTest(cols, conv));
  }

  /** `fillna("Uncategorized")` never changes a campaign: the cell is already text. */
  lemma CampaignNeverFilled(c: Cell, conv: Conversions)
    ensures DonationCell("campaign", c, conv) == Str(TitleRule(Render(c, conv)))
    ensures DonationCell("donor_name", c, conv).Str?
  {
  }

  // ---------------------------------------------------------------------
  // clean_volunteers

  /** The volunteer columns that are rewritten, so whose repetition makes clean_volunteers raise. */
  const VolunteerTextColumns: seq<string> := ["name", "dept", "phone"]

  const VolunteerRequired: set<string> := {"name", "hours"}

  /**
   * The one required column that can still be missing before the name is
   * rendered: a missing name has become the text "None" by then.
   */
  const HoursRequired: set<string> := {"hours"}

  /**
   * The column rewrites of clean_volunteers on one cell, by column name:
   * name and dept are stringified, stripped and title-cased; phone is
   * stringified and keeps its digits only.
   */
  function VolunteerCell(name: string, c: Cell, conv: Conversions): (r: Cell)
    ensures name == "name" || name == "dept" ==> r.Str? && Stripped(r.text)
    ensures name == "phone" ==> r.Str? && AllDigits(r.text)
    ensures name != "name" && name != "dept" && name != "phone" ==> r == c
  {
    if name == "name" || name == "dept" then Str(TitleRule(Render(c, conv)))
    else if name == "phone" then Str(DigitsOnly(Render(c, conv)))
    else c
  }

  function StandardizeVolunteer(row: seq<Cell>, cols: seq<string>, conv: Conversions): (r: seq<Cell>)
    ensures |r| == |row|
  {
    seq(|row|, j requires 0 <= j < |row| => if j < |cols| then VolunteerCell(cols[j], row[j], conv) else row[j])
  }

  function VolunteerStandardizer(cols: seq<string>, conv: Conversions): seq<Cell> -> seq<Cell> {
    row => StandardizeVolunteer(row, cols, conv)
  }

  /** `clean_volunteers(df)`: the cleaned frame, or the error it raises. */
  function CleanVolunteers(t: Frame, conv: Conversions): (r: Result<Frame, CleanError>)
    ensures r.Ok? ==> r.value.columns == NormalizeHeaders(t.columns) && |r.value.rows| <= |t.rows|
    ensures MissingFrom(VolunteerColumns, NormalizeHeaders(t.columns)) != [] <==> r.Err? && r.error.MissingColumns?
    ensures r.Err? && r.error.MissingColumns? ==> r.error.names == MissingFrom(VolunteerColumns, NormalizeHeaders(t.columns))
  {
    CleanVolunteersUnder(NormalizeHeaders(t.columns), t.rows, conv)
  }

  /** clean_volunteers once the header has been normalised to `cols`. */
  function CleanVolunteersUnder(cols: seq<string>, rows: seq<seq<Cell>>, conv: Conversions): (r: Result<Frame, CleanError>)
    requires Fit(rows, |cols|)
    ensures r.Ok? ==> r.value.columns == cols && |r.value.rows| <= |rows|
    ensures MissingFrom(VolunteerColumns, cols) != [] <==> r.Err? && r.error.MissingColumns?
    ensures r.Err? && r.error.MissingColumns? ==> r.error.names == MissingFrom(VolunteerColumns, cols)
    ensures r.Err? ==> !r.error.NotNumeric?
  {
    var missing := MissingFrom(VolunteerColumns, cols);
    if missing != [] then Err(MissingColumns(missing))
    else
      match FirstRepeated(VolunteerTextColumns, cols)
      case Some(c) => Err(NotUnique(c))
      case None => Ok(Table(cols, VolunteersKept(cols, rows, conv)))
  }

  /** The rewritten rows that have a name and hours. */
  function VolunteersKept(cols: seq<string>, rows: seq<seq<Cell>>, conv: Conversions): (kept: seq<seq<Cell>>)
    requires Fit(rows, |cols|)
    ensures Fit(kept, |cols|) && |kept| <= |rows|
  {
    var std := MapSeq(rows, VolunteerStandardizer(cols, conv));
    assert Fit(std, |cols|);
    DropNa(std, cols, VolunteerRequired)
  }

  /** Every required volunteer column is present, and the rewritten ones occur once. */
  predicate VolunteerHeaderOk(cols: seq<string>) {
    "hours" in cols && Occurrences(cols, "name") == 1 && Occurrences(cols, "dept") == 1 && Occurrences(cols, "phone") == 1
  }

  /** The two header checks of clean_volunteers pass exactly when the header is right. */
  lemma VolunteerHeaderChecks(cols: seq<string>)
    ensures VolunteerHeaderOk(cols) <==>
      MissingFrom(VolunteerColumns, cols) == [] && FirstRepeated(VolunteerTextColumns, cols).None?
  {
    var present := forall c :: c in VolunteerColumns ==> c in cols;
    assert present <==> ("name" in cols && "dept" in cols && "phone" in cols && "hours" in cols);
    var once := forall c :: c in VolunteerTextColumns ==> Occurrences(cols, c) <= 1;
    assert once <==> (Occurrences(cols, "name") <= 1 && Occurrences(cols, "dept") <= 1 && Occurrences(cols, "phone") <= 1);
    assert "name" in cols <==> Occurrences(cols, "name") >= 1;
    assert "dept" in cols <==> Occurrences(cols, "dept") >= 1;
    assert "phone" in cols <==> Occurrences(cols, "phone") >= 1;
  }

  /** clean_volunteers succeeds exactly when the header is right: no cell makes it raise. */
  lemma CleanVolunteersSucceeds(cols: seq<string>, rows: seq<seq<Cell>>, conv: Conversions)
    requires Fit(rows, |cols|)
    ensures CleanVolunteersUnder(cols, rows, conv).Ok? <==> VolunteerHeaderOk(cols)
  {
    VolunteerHeaderChecks(cols);
  }

  /** The standardised row is complete in name and hours exactly when the raw row has every hours cell present. */
  lemma VolunteerTestAgrees(row: seq<Cell>, cols: seq<string>, conv: Conversions)
    requires |row| == |cols|
    ensures Complete(cols, HoursRequired)(row) == Complete(cols, VolunteerRequired)(VolunteerStandardizer(cols, conv)(row))
  {
    var r := StandardizeVolunteer(row, cols, conv);
    assert forall j :: 0 <= j < |r| && cols[j] == "name" ==> r[j].Str?;
    assert forall j :: 0 <= j < |r| && cols[j] == "hours" ==> r[j] == row[j];
  }

  /**
   * The rows clean_volunteers returns are the input rows whose hours are
   * present, in input order, each rewritten by the column rules. A missing
   * name never removes a row: it has become the text "None".
   */
  lemma CleanVolunteersRows(cols: seq<string>, rows: seq<seq<Cell>>, conv: Conversions)
    requires Fit(rows, |cols|) && CleanVolunteersUnder(cols, rows, conv).Ok?
    ensures CleanVolunteersUnder(cols, rows, conv).value.rows
      == MapSeq(Filter(rows, Complete(cols, HoursRequired)), VolunteerStandardizer(cols, conv))
    ensures IsSubsequence(Filter(rows, Complete(cols, HoursRequired)), rows)
  {
    var f := VolunteerStandardizer(cols, conv);
    forall i | 0 <= i < |rows|
      ensures Complete(cols, HoursRequired)(rows[i]) == Complete(cols, VolunteerRequired)(f(rows[i]))
    {
      VolunteerTestAgrees(rows[i], cols, conv);
    }
    FilterMap(rows, f, Complete(cols, VolunteerRequired), Complete(cols, HoursRequired));
    FilterSelects(rows, Complete(cols, HoursRequired));
  }
}
