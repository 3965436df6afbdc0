/**
 * The derived reports of non_profit.py: the before/after hygiene report and
 * the donation and volunteer summaries.
 */
module Reports {
  import opened Text
  import opened Frames
  import opened Tally
  import opened Cleaning

  // ---------------------------------------------------------------------
  // generate_hygiene_report

  datatype Hygiene = Hygiene(
    dataset: string,
    originalRows: nat,
    cleanedRows: nat,
    rowsRemoved: int,
    missingByColumn: map<string, nat>)

  /**
   * `isnull().sum()` restricted to positive counts, then `to_dict()`, over
   * the first `n` columns: a later column of the same name overwrites an
   * earlier one.
   */
  function MissingUpTo(t: Frame, n: nat): (m: map<string, nat>)
    requires n <= |t.columns|
    ensures forall c :: c in m ==> m[c] > 0
  {
    if n == 0 then map[]
    else
      var m := MissingUpTo(t, n - 1);
      var k := NullCount(t.rows, n - 1);
      if k > 0 then m[t.columns[n - 1] := k] else m
  }

  /** Over the first `n` columns: an entry exactly for the names of columns with nulls, holding the count of such a column. */
  lemma {:induction false} MissingUpToEntries(t: Frame, n: nat)
    requires n <= |t.columns|
    ensures forall c :: c in MissingUpTo(t, n) <==> exists j :: 0 <= j < n && t.columns[j] == c && NullCount(t.rows, j) > 0
    ensures forall c :: c in MissingUpTo(t, n) ==>
      exists j :: 0 <= j < n && t.columns[j] == c && MissingUpTo(t, n)[c] == NullCount(t.rows, j)
  {
    if n > 0 {
      MissingUpToEntries(t, n - 1);
      var m := MissingUpTo(t, n - 1);
      var r := MissingUpTo(t, n);
      forall c | c in r
        ensures exists j :: 0 <= j < n && t.columns[j] == c && r[c] == NullCount(t.rows, j)
      {
        if c != t.columns[n - 1] || NullCount(t.rows, n - 1) == 0 {
          var j :| 0 <= j < n - 1 && t.columns[j] == c && m[c] == NullCount(t.rows, j);
          assert r[c] == m[c];
        } else {
          assert r[c] == NullCount(t.rows, n - 1);
        }
      }
    }
  }

  /** The missing-values map of the hygiene report: the columns with a positive null count, and that count. */
  function MissingByColumn(t: Frame): (m: map<string, nat>)
    ensures forall c :: c in m <==> exists j :: 0 <= j < |t.columns| && t.columns[j] == c && NullCount(t.rows, j) > 0
    ensures forall c :: c in m ==> m[c] > 0
  {
    MissingUpToEntries(t, |t.columns|);
    MissingUpTo(t, |t.columns|)
  }

  /** With distinct column names, each entry is the null count of the column of that name. */
  lemma MissingByColumnCounts(t: Frame)
    requires Distinct(t.columns)
    ensures forall c :: c in MissingByColumn(t) ==> MissingByColumn(t)[c] == NullCount(t.rows, IndexOf(t.columns, c))
  {
    var m := MissingByColumn(t);
    MissingUpToEntries(t, |t.columns|);
    forall c | c in m ensures m[c] == NullCount(t.rows, IndexOf(t.columns, c)) {
      var j :| 0 <= j < |t.columns| && t.columns[j] == c && m[c] == NullCount(t.rows, j);
      assert IndexOf(t.columns, c) == j;
    }
  }

  /**
   * `generate_hygiene_report(original_df, cleaned_df, name)`: the row counts
   * before and after, their difference, and the original table's missing
   * values by column.
   */
  function HygieneReport(original: Frame, cleaned: Frame, name: string): (r: Hygiene)
    ensures r.dataset == name && r.originalRows == |original.rows| && r.cleanedRows == |cleaned.rows|
    ensures r.rowsRemoved == r.originalRows - r.cleanedRows
    ensures forall c :: c in r.missingByColumn <==>
      exists j :: 0 <= j < |original.columns| && original.columns[j] == c && NullCount(original.rows, j) > 0
  {
    Hygiene(name, |original.rows|, |cleaned.rows|, |original.rows| - |cleaned.rows|, MissingByColumn(original))
  }

  /** The report reads nothing of the cleaned table but its number of rows. */
  lemma HygieneReadsCleanedCountOnly(original: Frame, a: Frame, b: Frame, name: string)
    requires |a.rows| == |b.rows|
    ensures HygieneReport(original, a, name) == HygieneReport(original, b, name)
  {
  }

  /** For clean_donations' output, the rows removed are exactly the rows that fail its test, so never negative. */
  lemma DonationHygiene(t: Frame, conv: Conversions, name: string)
    requires CleanDonations(t, conv).Ok?
    ensures var cols := NormalizeHeaders(t.columns);
      "amount" in cols && "date" in cols &&
      HygieneReport(t, CleanDonations(t, conv).value, name).rowsRemoved == CountFailing(t.rows, DonationTest(cols, conv))
  {
    var cols := NormalizeHeaders(t.columns);
    assert Fit(t.rows, |cols|);
    CleanDonationsSubsequence(cols, t.rows, conv);
  }

  /** For clean_volunteers' output, the rows removed are exactly the rows with a missing hours value. */
  lemma VolunteerHygiene(t: Frame, conv: Conversions, name: string)
    requires CleanVolunteers(t, conv).Ok?
    ensures HygieneReport(t, CleanVolunteers(t, conv).value, name).rowsRemoved
      == CountFailing(t.rows, Complete(NormalizeHeaders(t.columns), HoursRequired))
  {
    var cols := NormalizeHeaders(t.columns);
    NormalizedFit(t);
    var out := CleanVolunteers(t, conv).value;
    assert out == CleanVolunteersUnder(cols, t.rows, conv).value;
    VolunteersDropped(cols, t.rows, conv);
  }

  /** A frame's rows fit its normalised header. */
  lemma NormalizedFit(t: Frame)
    ensures Fit(t.rows, |NormalizeHeaders(t.columns)|)
  {
  }

  /** clean_volunteers removes exactly the rows with a missing hours cell. */
  lemma VolunteersDropped(cols: seq<string>, rows: seq<seq<Cell>>, conv: Conversions)
    requires Fit(rows, |cols|) && CleanVolunteersUnder(cols, rows, conv).Ok?
    ensures |rows| - |CleanVolunteersUnder(cols, rows, conv).value.rows| == CountFailing(rows, Complete(cols, HoursRequired))
  {
    CleanVolunteersRows(cols, rows, conv);
    FilterDropsFailing(rows, Complete(cols, HoursRequired));
  }

  // ---------------------------------------------------------------------
  // Column extraction

  predicate TextColumn(rows: seq<seq<Cell>>, j: nat) {
    forall i :: 0 <= i < |rows| ==> j < |rows[i]| && rows[i][j].Str?
  }

  predicate NumColumn(rows: seq<seq<Cell>>, j: nat) {
    forall i :: 0 <= i < |rows| ==> j < |rows[i]| && rows[i][j].Num?
  }

  predicate StampColumn(rows: seq<seq<Cell>>, j: nat) {
    forall i :: 0 <= i < |rows| ==> j < |rows[i]| && rows[i][j].Stamp?
  }

  function TextsAt(rows: seq<seq<Cell>>, j: nat): (r: seq<string>)
    requires TextColumn(rows, j)
    ensures |r| == |rows|
  {
    seq(|rows|, i requires 0 <= i < |rows| => rows[i][j].text)
  }

  function NumsAt(rows: seq<seq<Cell>>, j: nat): (r: seq<real>)
    requires NumColumn(rows, j)
    ensures |r| == |rows|
  {
    seq(|rows|, i requires 0 <= i < |rows| => rows[i][j].value)
  }

  function DatesAt(rows: seq<seq<Cell>>, j: nat): (r: seq<Date>)
    requires StampColumn(rows, j)
    ensures |r| == |rows|
  {
    seq(|rows|, i requires 0 <= i < |rows| => rows[i][j].date)
  }

  // ---------------------------------------------------------------------
  // generate_donation_summary

  /** A monthly period, `dt.to_period("M")`. */
  datatype Period = Period(year: int, month: Month)

  function PeriodOf(d: Date): Period {
    Period(d.year, d.month)
  }

  /** Months counted from year 0: the order of `sort_index()` on periods. */
  function PeriodIndex(p: Period): int {
    p.year * 12 + (p.month - 1)
  }

  lemma PeriodIndexInjective()
    ensures Injective(PeriodIndex)
  {
    forall a: Period, b: Period | PeriodIndex(a) == PeriodIndex(b) ensures a == b {
      assert a.year == b.year by {
        if a.year < b.year {
          assert false;
        } else if a.year > b.year {
          assert false;
        }
      }
    }
  }

  /**
   * The cleaned shape the donation summary reads: each required column
   * once, donor_name, method and campaign as text, amount as numbers and
   * date as timestamps.
   */
  predicate DonationReady(t: Frame) {
    DonationHeaderOk(t.columns) &&
    var cols := t.columns;
    assert "donor_name" in cols && "method" in cols && "campaign" in cols && "amount" in cols && "date" in cols;
    TextColumn(t.rows, IndexOf(cols, "donor_name")) && TextColumn(t.rows, IndexOf(cols, "method"))
    && TextColumn(t.rows, IndexOf(cols, "campaign")) && NumColumn(t.rows, IndexOf(cols, "amount"))
    && StampColumn(t.rows, IndexOf(cols, "date"))
  }

  /** A table clean_donations returns is in the shape the donation summary reads. */
  lemma CleanedDonationsReady(t: Frame, conv: Conversions)
    requires CleanDonations(t, conv).Ok?
    ensures DonationReady(CleanDonations(t, conv).value)
  {
    var cols := NormalizeHeaders(t.columns);
    assert Fit(t.rows, |cols|);
    DonationsOkOnlyIf(cols, t.rows, conv);
    DonationRowsReady(cols, t.rows, conv);
  }

  /** Every row clean_donations keeps has text names, a number amount and a date. */
  lemma DonationRowsReady(cols: seq<string>, rows: seq<seq<Cell>>, conv: Conversions)
    requires Fit(rows, |cols|) && CleanDonationsUnder(cols, rows, conv).Ok?
    ensures DonationReady(CleanDonationsUnder(cols, rows, conv).value)
  {
    DonationsOkOnlyIf(cols, rows, conv);
    CleanDonationsRows(cols, rows, conv);
    assert "donor_name" in cols && "method" in cols && "campaign" in cols && "amount" in cols && "date" in cols;
    var out: seq<seq<Cell>> := CleanDonationsUnder(cols, rows, conv).value.rows;
    var kept := Filter(rows, DonationTest(cols, conv));
    forall i | 0 <= i < |out|
      ensures out[i][IndexOf(cols, "donor_name")].Str? && out[i][IndexOf(cols, "method")].Str?
      ensures out[i][IndexOf(cols, "campaign")].Str? && out[i][IndexOf(cols, "amount")].Num?
      ensures out[i][IndexOf(cols, "date")].Stamp?
    {
      assert DonationTest(cols, conv)(kept[i]) && kept[i] in rows;
      StandardizedDonationReady(kept[i], cols, conv);
    }
  }

  /** A row that passes clean_donations' test has text in its text columns, a number as amount and a timestamp as date. */
  lemma StandardizedDonationReady(row: seq<Cell>, cols: seq<string>, conv: Conversions)
    requires DonationHeaderOk(cols) && |row| == |cols| && "amount" in cols && "date" in cols
    requires DonationKept(row, cols, conv)
    ensures "donor_name" in cols && "method" in cols && "campaign" in cols
    ensures var r := StandardizeDonation(row, cols, conv);
      r[IndexOf(cols, "donor_name")].Str? && r[IndexOf(cols, "method")].Str? && r[IndexOf(cols, "campaign")].Str?
      && r[IndexOf(cols, "amount")].Num? && r[IndexOf(cols, "date")].Stamp?
  {
    assert "donor_name" in cols && "method" in cols && "campaign" in cols;
    var a := IndexOf(cols, "amount");
    var d := IndexOf(cols, "date");
    StandardizedAt(row, cols, conv, IndexOf(cols, "donor_name"));
    StandardizedAt(row, cols, conv, IndexOf(cols, "method"));
    StandardizedAt(row, cols, conv, IndexOf(cols, "campaign"));
    StandardizedAt(row, cols, conv, a);
    StandardizedAt(row, cols, conv, d);
    TextCellKinds(row[IndexOf(cols, "donor_name")], row[IndexOf(cols, "method")], row[IndexOf(cols, "campaign")], conv);
  }

  lemma TextCellKinds(name: Cell, paidBy: Cell, campaign: Cell, conv: Conversions)
    ensures DonationCell("donor_name", name, conv).Str? && DonationCell("method", paidBy, conv).Str?
    ensures DonationCell("campaign", campaign, conv).Str?
  {
  }

  datatype DonationSummary = DonationSummary(
    totalDonations: real,
    uniqueDonors: nat,
    campaignTotals: seq<(string, real)>,
    donationsByMethod: seq<(string, nat)>,
    donationsByMonth: seq<(Period, nat)>)

  /** The columns the donation summary reads, one value per row. */
  function Donors(t: Frame): seq<string>
    requires DonationReady(t)
  {
    TextsAt(t.rows, IndexOf(t.columns, "donor_name"))
  }

  function Methods(t: Frame): seq<string>
    requires DonationReady(t)
  {
    TextsAt(t.rows, IndexOf(t.columns, "method"))
  }

  function Campaigns(t: Frame): seq<string>
    requires DonationReady(t)
  {
    TextsAt(t.rows, IndexOf(t.columns, "campaign"))
  }

  function Amounts(t: Frame): seq<real>
    requires DonationReady(t)
  {
    NumsAt(t.rows, IndexOf(t.columns, "amount"))
  }

  /** `df["date"].dt.to_period("M")`. */
  function Months(t: Frame): (r: seq<Period>)
    requires DonationReady(t)
    ensures |r| == |t.rows|
  {
    var dates := DatesAt(t.rows, IndexOf(t.columns, "date"));
    seq(|dates|, i requires 0 <= i < |dates| => PeriodOf(dates[i]))
  }

  /**
   * `generate_donation_summary(df)`: the total is the sum of the amount
   * column and the donor count its number of distinct names; the campaign
   * totals hold each campaign present once with its own total, largest
   * first; the method counts hold each method present once with its number
   * of rows, most frequent first; the months hold each month present once
   * with its number of rows, in calendar order.
   */
  function SummarizeDonations(t: Frame): (r: DonationSummary)
    requires DonationReady(t)
    ensures r.totalDonations == Sum(Amounts(t)) && r.uniqueDonors == CountDistinct(Donors(t))
    ensures forall k :: k in KeysOf(r.campaignTotals) <==> k in Campaigns(t)
    ensures forall p :: p in r.campaignTotals ==> p.1 == SumFor(Campaigns(t), Amounts(t), p.0)
    ensures SumOf(r.campaignTotals, Total) == r.totalDonations
    ensures SortedBy(r.campaignTotals, Total) && Distinct(KeysOf(r.campaignTotals))
    ensures forall k :: k in KeysOf(r.donationsByMethod) <==> k in Methods(t)
    ensures forall p :: p in r.donationsByMethod ==> p.1 == multiset(Methods(t))[p.0]
    ensures SumOf(r.donationsByMethod, Tallied) == |t.rows| as real
    ensures SortedBy(r.donationsByMethod, Tallied) && Distinct(KeysOf(r.donationsByMethod))
    ensures forall k :: k in KeysOf(r.donationsByMonth) <==> k in Months(t)
    ensures forall p :: p in r.donationsByMonth ==> p.1 == multiset(Months(t))[p.0]
    ensures forall a, b :: 0 <= a < b < |r.donationsByMonth| ==>
      PeriodIndex(r.donationsByMonth[a].0) < PeriodIndex(r.donationsByMonth[b].0)
    ensures SumOf(r.donationsByMonth, Tallied) == |t.rows| as real
    ensures r.uniqueDonors <= |t.rows|
  {
    PeriodIndexInjective();
    DonationSummary(
      Sum(Amounts(t)),
      CountDistinct(Donors(t)),
      GroupSumsDesc(Campaigns(t), Amounts(t)),
      ValueCounts(Methods(t)),
      CountsByKey(Months(t), PeriodIndex))
  }

  // ---------------------------------------------------------------------
  // generate_volunteer_summary

  /** The shape the volunteer summary reads: each column once, name, dept and phone as text, hours as numbers. */
  predicate VolunteerReady(t: Frame) {
    var cols := t.columns;
    Occurrences(cols, "name") == 1 && Occurrences(cols, "dept") == 1 && Occurrences(cols, "phone") == 1
    && Occurrences(cols, "hours") == 1 &&
    assert "name" in cols && "dept" in cols && "phone" in cols && "hours" in cols;
    TextColumn(t.rows, IndexOf(cols, "name")) && TextColumn(t.rows, IndexOf(cols, "dept"))
    && TextColumn(t.rows, IndexOf(cols, "phone")) && NumColumn(t.rows, IndexOf(cols, "hours"))
  }

  datatype VolunteerSummary = VolunteerSummary(
    totalHours: real,
    volunteersCount: nat,
    departmentsInvolved: nat,
    hoursByDepartment: seq<(string, real)>,
    volunteersByPhoneLength: seq<(nat, nat)>)

  function Identity(n: nat): int { n }

  /** The columns the volunteer summary reads, one value per row. */
  function Names(t: Frame): seq<string>
    requires VolunteerReady(t)
  {
    TextsAt(t.rows, IndexOf(t.columns, "name"))
  }

  function Depts(t: Frame): seq<string>
    requires VolunteerReady(t)
  {
    TextsAt(t.rows, IndexOf(t.columns, "dept"))
  }

  function Phones(t: Frame): seq<string>
    requires VolunteerReady(t)
  {
    TextsAt(t.rows, IndexOf(t.columns, "phone"))
  }

  function Hours(t: Frame): seq<real>
    requires VolunteerReady(t)
  {
    NumsAt(t.rows, IndexOf(t.columns, "hours"))
  }

  /**
   * `generate_volunteer_summary(df)`: the total is the sum of the hours
   * column; the two counts are the numbers of distinct names and
   * departments; the department totals hold each department present once
   * with its own hours, largest first; the phone lengths hold each length
   * present once with its number of rows, shortest first.
   */
  function SummarizeVolunteers(t: Frame): (r: VolunteerSummary)
    requires VolunteerReady(t)
    ensures r.totalHours == Sum(Hours(t))
    ensures r.volunteersCount == CountDistinct(Names(t)) && r.departmentsInvolved == CountDistinct(Depts(t))
    ensures forall k :: k in KeysOf(r.hoursByDepartment) <==> k in Depts(t)
    ensures forall p :: p in r.hoursByDepartment ==> p.1 == SumFor(Depts(t), Hours(t), p.0)
    ensures SumOf(r.hoursByDepartment, Total) == r.totalHours
    ensures SortedBy(r.hoursByDepartment, Total) && Distinct(KeysOf(r.hoursByDepartment))
    ensures |r.hoursByDepartment| == r.departmentsInvolved
    ensures forall k :: k in KeysOf(r.volunteersByPhoneLength) <==> k in Lengths(Phones(t))
    ensures forall p :: p in r.volunteersByPhoneLength ==> p.1 == multiset(Lengths(Phones(t)))[p.0]
    ensures forall a, b :: 0 <= a < b < |r.volunteersByPhoneLength| ==>
      r.volunteersByPhoneLength[a].0 < r.volunteersByPhoneLength[b].0
    ensures SumOf(r.volunteersByPhoneLength, Tallied) == |t.rows| as real
    ensures r.volunteersCount <= |t.rows| && r.departmentsInvolved <= |t.rows|
  {
    VolunteerFigures(Names(t), Depts(t), Phones(t), Hours(t))
  }

  /** The volunteer summary over the four columns it reads. */
  function VolunteerFigures(names: seq<string>, depts: seq<string>, phones: seq<string>, hours: seq<real>): (r: VolunteerSummary)
    requires |depts| == |hours| == |names| == |phones|
    ensures r.totalHours == Sum(hours)
    ensures r.volunteersCount == CountDistinct(names) && r.departmentsInvolved == CountDistinct(depts)
    ensures forall k :: k in KeysOf(r.hoursByDepartment) <==> k in depts
    ensures forall p :: p in r.hoursByDepartment ==> p.1 == SumFor(depts, hours, p.0)
    ensures SumOf(r.hoursByDepartment, Total) == r.totalHours
    ensures SortedBy(r.hoursByDepartment, Total) && Distinct(KeysOf(r.hoursByDepartment))
    ensures |r.hoursByDepartment| == r.departmentsInvolved
    ensures forall k :: k in KeysOf(r.volunteersByPhoneLength) <==> k in Lengths(phones)
    ensures forall p :: p in r.volunteersByPhoneLength ==> p.1 == multiset(Lengths(phones))[p.0]
    ensures forall a, b :: 0 <= a < b < |r.volunteersByPhoneLength| ==>
      r.volunteersByPhoneLength[a].0 < r.volunteersByPhoneLength[b].0
    ensures SumOf(r.volunteersByPhoneLength, Tallied) == |phones| as real
    ensures r.volunteersCount <= |names| && r.departmentsInvolved <= |depts|
  {
    assert Injective(Identity);
    VolunteerSummary(
      Sum(hours),
      CountDistinct(names),
      CountDistinct(depts),
      GroupSumsDesc(depts, hours),
      CountsByKey(Lengths(phones), Identity))
  }

  function Lengths(phones: seq<string>): (r: seq<nat>)
    ensures |r| == |phones|
  {
    seq(|phones|, i requires 0 <= i < |phones| => |phones[i]|)
  }
}
