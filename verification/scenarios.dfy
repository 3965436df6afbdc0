/**
 * The two cleaning scenarios of test_cleaning.py: what each column rule
 * makes of the test's values, and which rows the cleaners keep.
 */
module Scenarios {
  import opened Text
  import opened Frames
  import opened Cleaning
  import Tally
  import Reports
  import Merge

  // ---------------------------------------------------------------------
  // Names, campaigns and departments: strip, then title-case

  /** A donor name with leading spaces and no capitals. */
  lemma JaneDoeName()
    ensures TitleRule("  jane doe") == "Jane Doe"
  {
    JaneStrip();
    JaneTitle();
  }

  lemma JaneStrip()
    ensures Strip("  jane doe") == "jane doe"
  {
    StripExactly("  jane doe", 2, 10);
    assert "  jane doe"[2..10] == "jane doe";
  }

  lemma JaneTitle()
    ensures Title("jane doe") == "Jane Doe"
  {
    var s := "jane doe";
    forall i | 0 <= i < |s| ensures Title(s)[i] == "Jane Doe"[i] {
      TitleAt(s, i);
    }
  }

  /** A volunteer name padded on both sides. */
  lemma AliceName()
    ensures TitleRule(" alice ") == "Alice"
  {
    AliceStrip();
    AliceTitle();
  }

  lemma AliceStrip()
    ensures Strip(" alice ") == "alice"
  {
    StripExactly(" alice ", 1, 6);
    assert " alice "[1..6] == "alice";
  }

  lemma AliceTitle()
    ensures Title("alice") == "Alice"
  {
    var s := "alice";
    forall i | 0 <= i < |s| ensures Title(s)[i] == "Alice"[i] {
      TitleAt(s, i);
    }
  }

  /** An upper-case name keeps its first capital only. */
  lemma BobName()
    ensures TitleRule("BOB") == "Bob"
  {
    StripOfStripped("BOB");
    var s := "BOB";
    forall i | 0 <= i < |s| ensures Title(s)[i] == "Bob"[i] {
      TitleAt(s, i);
    }
  }

  /** A title-cased word is its own title. */
  lemma TitledWord(s: string)
    requires |s| > 0 && IsUpper(s[0]) && forall i :: 1 <= i < |s| ==> IsLower(s[i])
    ensures TitleRule(s) == s
  {
    StripOfStripped(s);
    forall i | 0 <= i < |s| ensures Title(s)[i] == s[i] {
      TitleAt(s, i);
    }
  }

  /** The test's departments and campaigns. */
  lemma DepartmentNames()
    ensures TitleRule("health") == "Health" && TitleRule("Education") == "Education"
    ensures TitleRule("Health") == "Health"
  {
    TitledWord("Education");
    TitledWord("Health");
    HealthTitle();
  }

  /** A missing campaign becomes the text "None", never "Uncategorized". */
  lemma MissingCampaign(conv: Conversions)
    ensures DonationCell("campaign", Missing, conv) == Str("None")
  {
    TitledWord("None");
  }

  lemma EducationTitle()
    ensures TitleRule("Education") == "Education"
  {
    TitledWord("Education");
  }

  lemma HealthTitle()
    ensures TitleRule("health") == "Health"
  {
    StripOfStripped("health");
    var s := "health";
    forall i | 0 <= i < |s| ensures Title(s)[i] == "Health"[i] {
      TitleAt(s, i);
    }
  }

  // ---------------------------------------------------------------------
  // Payment methods: strip, then lower-case

  lemma MethodNames()
    ensures LowerRule("CREDIT") == "credit" && LowerRule("paypal") == "paypal"
    ensures LowerRule("CASH") == "cash" && LowerRule("credit") == "credit"
  {
    CreditMethod();
    LowerOfStripped("paypal");
    CashMethod();
    LowerOfStripped("credit");
  }

  lemma CreditMethod()
    ensures LowerRule("CREDIT") == "credit"
  {
    LowerOfStripped("CREDIT");
  }

  lemma CashMethod()
    ensures LowerRule("CASH") == "cash"
  {
    LowerOfStripped("CASH");
  }

  lemma LowerOfStripped(s: string)
    requires Stripped(s)
    ensures LowerRule(s) == Lower(s)
  {
    StripOfStripped(s);
  }

  // ---------------------------------------------------------------------
  // Phones: digits only

  /** The punctuation of a phone number goes, its ten digits stay. */
  lemma PhoneDigits()
    ensures DigitsOnly("(555)-123-4567") == "5551234567"
  {
    DigitGroups("(", "555", ")-", "123", "-", "4567", "");
    PhoneParts();
  }

  lemma PhoneParts()
    ensures "(" + "555" + (")-" + "123" + ("-" + "4567" + "")) == "(555)-123-4567"
    ensures "555" + ("123" + ("4567" + DigitsOnly(""))) == "5551234567"
  {
  }

  /** A country prefix is kept as a digit. */
  lemma PrefixedPhoneDigits()
    ensures DigitsOnly("+1-555-789-4321") == "15557894321"
  {
    DigitGroups("+", "1", "-", "555", "-", "789", "-4321");
    Segment("-", "4321", "");
    PrefixedPhoneParts();
  }

  lemma PrefixedPhoneParts()
    ensures "+" + "1" + ("-" + "555" + ("-" + "789" + "-4321")) == "+1-555-789-4321"
    ensures "-" + "4321" + "" == "-4321"
    ensures "1" + ("555" + ("789" + ("4321" + DigitsOnly("")))) == "15557894321"
  {
  }

  /** The text "NaN" has no digit. */
  lemma NaNPhoneDigits()
    ensures DigitsOnly("NaN") == ""
  {
  }

  /** Three groups of digits, each after some punctuation, then the rest. */
  lemma DigitGroups(p1: string, d1: string, p2: string, d2: string, p3: string, d3: string, rest: string)
    requires NoDigit(p1) && NoDigit(p2) && NoDigit(p3)
    requires AllDigits(d1) && AllDigits(d2) && AllDigits(d3)
    ensures DigitsOnly(p1 + d1 + (p2 + d2 + (p3 + d3 + rest))) == d1 + (d2 + (d3 + DigitsOnly(rest)))
  {
    Segment(p3, d3, rest);
    Segment(p2, d2, p3 + d3 + rest);
    Segment(p1, d1, p2 + d2 + (p3 + d3 + rest));
  }

  predicate NoDigit(p: string) {
    forall i :: 0 <= i < |p| ==> !IsDigit(p[i])
  }

  lemma {:induction false} NoDigits(p: string)
    requires NoDigit(p)
    ensures DigitsOnly(p) == []
  {
    if p != [] {
      NoDigits(p[1..]);
    }
  }

  lemma Segment(p: string, d: string, rest: string)
    requires NoDigit(p) && AllDigits(d)
    ensures DigitsOnly(p + d + rest) == d + DigitsOnly(rest)
  {
    DigitsOnlyAppend(p + d, rest);
    DigitsOnlyAppend(p, d);
    NoDigits(p);
    DigitsOnlyOfDigits(d);
    assert DigitsOnly(p + d) == d;
  }

  // ---------------------------------------------------------------------
  // Amounts: currency marks dropped, then float()

  /** The test's amounts; "$0" converts, and is dropped later as not positive. */
  lemma TestAmounts()
    ensures AmountCell(Str("$100")) == Some(Num(100.0))
    ensures AmountCell(Str("$0")) == Some(Num(0.0))
    ensures AmountCell(Str("$25.00")) == Some(Num(25.0))
    ensures AmountCell(Str("$75.5")) == Some(Num(75.5))
  {
    HundredAmount();
    ZeroAmount();
    TwentyFiveAmount();
    SeventyFiveAmount();
  }

  lemma HundredAmount()
    ensures AmountCell(Str("$100")) == Some(Num(100.0))
  {
    assert NatText(100) == "100" by {
      assert NatText(10) == "10";
    }
    WholeAmount("$100", 100);
  }

  lemma ZeroAmount()
    ensures AmountCell(Str("$0")) == Some(Num(0.0))
  {
    WholeAmount("$0", 0);
  }

  lemma TwentyFiveAmount()
    ensures AmountCell(Str("$25.00")) == Some(Num(25.0))
  {
    TwentyFiveMarks();
    TwentyFiveParses();
    ParsedAmount("$25.00", "25.00", 25.0);
  }

  lemma TwentyFiveParses()
    ensures ParseFloat("25.00") == Some(Finite(25.0))
  {
    TwentyFiveParts();
    DecimalOf("25.00", "25", "00", 25.0);
  }

  lemma TwentyFiveParts()
    ensures "25.00" == "25" + "." + "00"
    ensures AllDigits("25") && AllDigits("00") && DecimalValue("25", "00") == 25.0
  {
    TwoDigits("25");
    TwoDigits("00");
  }

  lemma TwoDigits(s: string)
    requires |s| == 2 && AllDigits(s)
    ensures DigitsValue(s) == 10 * DigitValue(s[0]) + DigitValue(s[1])
  {
    OneDigit(s[..1]);
  }

  lemma OneDigit(s: string)
    requires |s| == 1 && AllDigits(s)
    ensures DigitsValue(s) == DigitValue(s[0])
  {
    assert s[..0] == [];
  }

  /** A spelling split at its point into digit parts of value `v` reads as `v`. */
  lemma DecimalOf(t: string, whole: string, frac: string, v: real)
    requires t == whole + "." + frac
    requires whole != [] && frac != [] && AllDigits(whole) && AllDigits(frac) && DecimalValue(whole, frac) == v
    ensures ParseFloat(t) == Some(Finite(v))
  {
    ParseDecimal(t, whole, frac);
  }

  lemma SeventyFiveAmount()
    ensures AmountCell(Str("$75.5")) == Some(Num(75.5))
  {
    SeventyFiveMarks();
    SeventyFiveParses();
    ParsedAmount("$75.5", "75.5", 75.5);
  }

  lemma SeventyFiveParses()
    ensures ParseFloat("75.5") == Some(Finite(75.5))
  {
    SeventyFiveParts();
    DecimalOf("75.5", "75", "5", 75.5);
  }

  lemma SeventyFiveParts()
    ensures "75.5" == "75" + "." + "5"
    ensures AllDigits("75") && AllDigits("5") && DecimalValue("75", "5") == 75.5
  {
    TwoDigits("75");
    OneDigit("5");
    assert Pow10(1) == 10;
  }

  lemma TwentyFiveMarks()
    ensures DeleteCurrencyMarks("$25.00") == "25.00"
  {
  }

  lemma SeventyFiveMarks()
    ensures DeleteCurrencyMarks("$75.5") == "75.5"
  {
  }

  lemma ParsedAmount(s: string, t: string, v: real)
    requires DeleteCurrencyMarks(s) == t && ParseFloat(t) == Some(Finite(v))
    ensures AmountCell(Str(s)) == Some(Num(v))
  {
  }

  lemma WholeAmount(s: string, n: nat)
    requires DeleteCurrencyMarks(s) == NatText(n)
    ensures AmountCell(Str(s)) == Some(Num(n as real))
  {
    ParseNatText(n);
  }

  // ---------------------------------------------------------------------
  // test_clean_volunteers

  const VolunteerColumnsIn: seq<string> := [" Name ", "Dept", "Phone", "Hours"]
  const AliceRow: seq<Cell> := [Str(" alice "), Str("health"), Str("(555)-123-4567"), Num(2.0)]
  const BobRow: seq<Cell> := [Str("BOB"), Str("Education"), Str("+1-555-789-4321"), Num(4.0)]
  const NamelessRow: seq<Cell> := [Missing, Str("Food"), Str("NaN"), Missing]

  /** The volunteer frame of the test: the third row has neither a name nor hours. */
  const VolunteerInput: Frame := Table(VolunteerColumnsIn, [AliceRow, BobRow, NamelessRow])

  /**
   * clean_volunteers on the test frame: the header is normalised, the row
   * without hours is dropped, names and departments are title-cased and
   * phones keep their digits.
   */
  lemma VolunteerScenario(conv: Conversions)
    ensures CleanVolunteers(VolunteerInput, conv).Ok?
    ensures CleanVolunteers(VolunteerInput, conv).value.columns == VolunteerColumns
    ensures CleanVolunteers(VolunteerInput, conv).value.rows == [
      [Str("Alice"), Str("Health"), Str("5551234567"), Num(2.0)],
      [Str("Bob"), Str("Education"), Str("15557894321"), Num(4.0)]]
  {
    var cols := VolunteerColumns;
    var rows := VolunteerInput.rows;
    VolunteerHeaders();
    assert CleanVolunteers(VolunteerInput, conv) == CleanVolunteersUnder(cols, rows, conv);
    VolunteerHeaderOkHere();
    CleanVolunteersSucceeds(cols, rows, conv);
    CleanVolunteersRows(cols, rows, conv);
    VolunteerRowsKept();
    var f := VolunteerStandardizer(cols, conv);
    MapTwo(AliceRow, BobRow, f);
    AliceCleaned(conv);
    BobCleaned(conv);
  }

  lemma MapTwo(a: seq<Cell>, b: seq<Cell>, f: seq<Cell> -> seq<Cell>)
    ensures MapSeq([a, b], f) == [f(a), f(b)]
  {
  }

  lemma VolunteerHeaders()
    ensures NormalizeHeaders(VolunteerColumnsIn) == VolunteerColumns
  {
    var r := NormalizeHeaders(VolunteerColumnsIn);
    assert r[0] == "name" by { VolunteerHeaderAt(0, "name"); }
    assert r[1] == "dept" by { VolunteerHeaderAt(1, "dept"); }
    assert r[2] == "phone" by { VolunteerHeaderAt(2, "phone"); }
    assert r[3] == "hours" by { VolunteerHeaderAt(3, "hours"); }
    SameNames(r, VolunteerColumns);
  }

  lemma VolunteerHeaderAt(j: nat, h: string)
    requires j < 4 && h == VolunteerColumns[j]
    ensures NormalizeHeaders(VolunteerColumnsIn)[j] == h
  {
    NormalizeHeadersAt(VolunteerColumnsIn, j);
    if j == 0 {
      PaddedNameHeader();
    } else if j == 1 {
      DeptHeader();
    } else if j == 2 {
      PhoneHeader();
    } else {
      HoursHeader();
    }
  }

  lemma DeptHeader() ensures NormalizeHeader("Dept") == "dept" { PlainHeader("Dept", "dept"); }
  lemma PhoneHeader() ensures NormalizeHeader("Phone") == "phone" { PlainHeader("Phone", "phone"); }
  lemma HoursHeader() ensures NormalizeHeader("Hours") == "hours" { PlainHeader("Hours", "hours"); }

  /** A one-word header without surrounding space is just lower-cased. */
  lemma PlainHeader(h: string, l: string)
    requires Stripped(h) && ' ' !in h && Lower(h) == l
    ensures NormalizeHeader(h) == l
  {
    StripOfStripped(h);
    assert ' ' !in l by {
      forall i | 0 <= i < |l| ensures l[i] != ' ' {
        assert h[i] != ' ';
      }
    }
    assert SpacesToUnderscores(l) == l;
  }

  lemma VolunteerHeaderOkHere()
    ensures VolunteerHeaderOk(VolunteerColumns)
  {
  }

  lemma VolunteerRowsKept()
    ensures Filter(VolunteerInput.rows, Complete(VolunteerColumns, HoursRequired)) == [AliceRow, BobRow]
  {
    var p := Complete(VolunteerColumns, HoursRequired);
    var rows := VolunteerInput.rows;
    assert p(AliceRow) && p(BobRow);
    assert !p(NamelessRow) by {
      assert VolunteerColumns[3] in HoursRequired && NamelessRow[3].Missing?;
    }
    assert rows[1..] == [BobRow, NamelessRow] && rows[1..][1..] == [NamelessRow] && rows[1..][1..][1..] == [];
    assert Filter([NamelessRow], p) == [];
    assert Filter([BobRow, NamelessRow], p) == [BobRow];
  }

  lemma AliceCleaned(conv: Conversions)
    ensures StandardizeVolunteer(AliceRow, VolunteerColumns, conv)
      == [Str("Alice"), Str("Health"), Str("5551234567"), Num(2.0)]
  {
    AliceCell0(conv);
    AliceCell1(conv);
    AliceCell2(conv);
    AliceCell3(conv);
    FourCells(StandardizeVolunteer(AliceRow, VolunteerColumns, conv), Str("Alice"), Str("Health"), Str("5551234567"), Num(2.0));
  }

  lemma AliceCell0(conv: Conversions)
    ensures StandardizeVolunteer(AliceRow, VolunteerColumns, conv)[0] == Str("Alice")
  {
    AliceName();
  }

  lemma AliceCell1(conv: Conversions)
    ensures StandardizeVolunteer(AliceRow, VolunteerColumns, conv)[1] == Str("Health")
  {
    HealthTitle();
  }

  lemma AliceCell2(conv: Conversions)
    ensures StandardizeVolunteer(AliceRow, VolunteerColumns, conv)[2] == Str("5551234567")
  {
    PhoneCell(AliceRow, conv, "(555)-123-4567");
    PhoneDigits();
  }

  lemma AliceCell3(conv: Conversions)
    ensures StandardizeVolunteer(AliceRow, VolunteerColumns, conv)[3] == Num(2.0)
  {
  }

  lemma BobCleaned(conv: Conversions)
    ensures StandardizeVolunteer(BobRow, VolunteerColumns, conv)
      == [Str("Bob"), Str("Education"), Str("15557894321"), Num(4.0)]
  {
    BobCell0(conv);
    BobCell1(conv);
    BobCell2(conv);
    BobCell3(conv);
    FourCells(StandardizeVolunteer(BobRow, VolunteerColumns, conv), Str("Bob"), Str("Education"), Str("15557894321"), Num(4.0));
  }

  lemma BobCell0(conv: Conversions)
    ensures StandardizeVolunteer(BobRow, VolunteerColumns, conv)[0] == Str("Bob")
  {
    BobName();
  }

  lemma BobCell1(conv: Conversions)
    ensures StandardizeVolunteer(BobRow, VolunteerColumns, conv)[1] == Str("Education")
  {
    EducationTitle();
  }

  lemma BobCell2(conv: Conversions)
    ensures StandardizeVolunteer(BobRow, VolunteerColumns, conv)[2] == Str("15557894321")
  {
    PhoneCell(BobRow, conv, "+1-555-789-4321");
    PrefixedPhoneDigits();
  }

  lemma BobCell3(conv: Conversions)
    ensures StandardizeVolunteer(BobRow, VolunteerColumns, conv)[3] == Num(4.0)
  {
  }

  lemma FourCells(r: seq<Cell>, a: Cell, b: Cell, c: Cell, d: Cell)
    requires |r| == 4 && r[0] == a && r[1] == b && r[2] == c && r[3] == d
    ensures r == [a, b, c, d]
  {
  }

  lemma PhoneCell(row: seq<Cell>, conv: Conversions, phone: string)
    requires |row| == 4 && row[2] == Str(phone)
    ensures StandardizeVolunteer(row, VolunteerColumns, conv)[2] == Str(DigitsOnly(phone))
  {
  }

  // ---------------------------------------------------------------------
  // test_clean_donations

  const DonationColumnsIn: seq<string> := ["Donor Name", "Method", "Campaign", "Amount", "Date"]
  const JaneRow: seq<Cell> := [Str("  jane doe"), Str("CREDIT"), Str("Holiday Fund"), Str("$100"), Str("2024-01-01")]
  const JohnRow: seq<Cell> := [Str("JOHN smith"), Str("paypal"), Missing, Str("$0"), Str("2024-02-10")]
  const NoNameRow: seq<Cell> := [Missing, Str("CASH"), Str("Health"), Str("$25.00"), Str("not_a_date")]
  const AmyRow: seq<Cell> := [Str("Amy"), Str("credit"), Str("Health"), Str("$75.5"), Str("2024-03-15")]

  /** The donation frame of the test. */
  const DonationInput: Frame := Table(DonationColumnsIn, [JaneRow, JohnRow, NoNameRow, AmyRow])

  /** The date parser, on the test's dates. */
  predicate TestDates(conv: Conversions) {
    conv.parseDate("2024-01-01") == Some(Date(2024, 1, 1))
    && conv.parseDate("2024-03-15") == Some(Date(2024, 3, 15))
    && conv.parseDate("not_a_date") == None
  }

  /**
   * clean_donations on the test frame keeps Jane Doe and Amy, in that
   * order: the "$0" donation is not positive, and the row without a name
   * goes because its date does not parse (its name has become "None").
   */
  lemma DonationScenario(conv: Conversions)
    requires TestDates(conv)
    ensures CleanDonations(DonationInput, conv).Ok?
    ensures CleanDonations(DonationInput, conv).value.columns == DonationColumns
    ensures CleanDonations(DonationInput, conv).value.rows == [
      [Str("Jane Doe"), Str("credit"), Str("Holiday Fund"), Num(100.0), Stamp(Date(2024, 1, 1))],
      [Str("Amy"), Str("credit"), Str("Health"), Num(75.5), Stamp(Date(2024, 3, 15))]]
  {
    DonationKeeps(conv);
    DonationRowsCleaned(conv);
  }

  lemma DonationKeeps(conv: Conversions)
    requires TestDates(conv)
    ensures CleanDonations(DonationInput, conv)
      == Ok(Table(DonationColumns, MapSeq([JaneRow, AmyRow], DonationStandardizer(DonationColumns, conv))))
  {
    DonationHeaders();
    DonationHeaderOkHere();
    AmountsConvert();
    DonationRowsKept(conv);
    CleanDonationsOf(DonationInput, conv, DonationColumns, [JaneRow, AmyRow]);
  }

  lemma DonationRowsCleaned(conv: Conversions)
    requires TestDates(conv)
    ensures MapSeq([JaneRow, AmyRow], DonationStandardizer(DonationColumns, conv)) == [
      [Str("Jane Doe"), Str("credit"), Str("Holiday Fund"), Num(100.0), Stamp(Date(2024, 1, 1))],
      [Str("Amy"), Str("credit"), Str("Health"), Num(75.5), Stamp(Date(2024, 3, 15))]]
  {
    MapTwo(JaneRow, AmyRow, DonationStandardizer(DonationColumns, conv));
    JaneCleaned(conv);
    AmyCleaned(conv);
  }

  /** clean_donations on a frame whose header, amounts and kept rows are known. */
  lemma CleanDonationsOf(t: Frame, conv: Conversions, cols: seq<string>, kept: seq<seq<Cell>>)
    requires NormalizeHeaders(t.columns) == cols && DonationHeaderOk(cols)
    requires "amount" in cols && "date" in cols
    requires forall i :: 0 <= i < |t.rows| ==> AmountCell(t.rows[i][IndexOf(cols, "amount")]).Some?
    requires Filter(t.rows, DonationTest(cols, conv)) == kept
    ensures CleanDonations(t, conv) == Ok(Table(cols, MapSeq(kept, DonationStandardizer(cols, conv))))
  {
    CleanDonationsSucceeds(cols, t.rows, conv);
    CleanDonationsRows(cols, t.rows, conv);
  }

  lemma DonationHeaders()
    ensures NormalizeHeaders(DonationColumnsIn) == DonationColumns
  {
    DonationHeaderAt(0, "donor_name");
    DonationHeaderAt(1, "method");
    DonationHeaderAt(2, "campaign");
    DonationHeaderAt(3, "amount");
    DonationHeaderAt(4, "date");
    SameNames(NormalizeHeaders(DonationColumnsIn), DonationColumns);
  }

  /** Two headers of the same length that agree at every position are equal. */
  lemma SameNames(a: seq<string>, b: seq<string>)
    requires |a| == |b| && forall j :: 0 <= j < |a| ==> a[j] == b[j]
    ensures a == b
  {
  }

  lemma DonationHeaderAt(j: nat, h: string)
    requires j < 5 && h == DonationColumns[j]
    ensures NormalizeHeaders(DonationColumnsIn)[j] == h
  {
    NormalizeHeadersAt(DonationColumnsIn, j);
    if j == 0 {
      DonorNameHeader();
    } else if j == 1 {
      MethodHeader();
    } else if j == 2 {
      CampaignHeader();
    } else if j == 3 {
      AmountHeader();
    } else {
      DateHeader();
    }
  }

  lemma MethodHeader() ensures NormalizeHeader("Method") == "method" { PlainHeader("Method", "method"); }
  lemma CampaignHeader() ensures NormalizeHeader("Campaign") == "campaign" { PlainHeader("Campaign", "campaign"); }
  lemma AmountHeader() ensures NormalizeHeader("Amount") == "amount" { PlainHeader("Amount", "amount"); }
  lemma DateHeader() ensures NormalizeHeader("Date") == "date" { PlainHeader("Date", "date"); }

  lemma DonationHeaderOkHere()
    ensures DonationHeaderOk(DonationColumns) && IndexOf(DonationColumns, "amount") == 3
    ensures IndexOf(DonationColumns, "date") == 4
  {
  }

  lemma AmountsConvert()
    ensures "amount" in DonationColumns
    ensures forall i :: 0 <= i < 4 ==> AmountCell(DonationInput.rows[i][IndexOf(DonationColumns, "amount")]).Some?
  {
    DonationHeaderOkHere();
    var rows := DonationInput.rows;
    HundredCell(rows[0][3]);
    ZeroCell(rows[1][3]);
    TwentyFiveCell(rows[2][3]);
    SeventyFiveCell(rows[3][3]);
    FourConvert(rows);
  }

  lemma FourConvert(rows: seq<seq<Cell>>)
    requires |rows| == 4 && forall i :: 0 <= i < 4 ==> |rows[i]| == 5
    requires AmountCell(rows[0][3]).Some? && AmountCell(rows[1][3]).Some?
    requires AmountCell(rows[2][3]).Some? && AmountCell(rows[3][3]).Some?
    ensures forall i :: 0 <= i < 4 ==> AmountCell(rows[i][3]).Some?
  {
  }

  lemma HundredCell(c: Cell)
    requires c == Str("$100")
    ensures AmountCell(c) == Some(Num(100.0))
  {
    HundredAmount();
  }

  lemma ZeroCell(c: Cell)
    requires c == Str("$0")
    ensures AmountCell(c) == Some(Num(0.0))
  {
    ZeroAmount();
  }

  lemma TwentyFiveCell(c: Cell)
    requires c == Str("$25.00")
    ensures AmountCell(c) == Some(Num(25.0))
  {
    TwentyFiveAmount();
  }

  lemma SeventyFiveCell(c: Cell)
    requires c == Str("$75.5")
    ensures AmountCell(c) == Some(Num(75.5))
  {
    SeventyFiveAmount();
  }

  lemma DonationRowsKept(conv: Conversions)
    requires TestDates(conv)
    ensures "amount" in DonationColumns && "date" in DonationColumns
    ensures Filter(DonationInput.rows, DonationTest(DonationColumns, conv)) == [JaneRow, AmyRow]
  {
    JaneKept(conv);
    JohnDropped(conv);
    NoNameDropped(conv);
    AmyKept(conv);
    FirstAndLast(DonationInput.rows, DonationTest(DonationColumns, conv));
  }

  /** Of four rows, the first and the last pass. */
  lemma FirstAndLast(rows: seq<seq<Cell>>, p: seq<Cell> -> bool)
    requires |rows| == 4 && p(rows[0]) && !p(rows[1]) && !p(rows[2]) && p(rows[3])
    ensures Filter(rows, p) == [rows[0], rows[3]]
  {
    var s1, s2, s3 := rows[1..], rows[2..], rows[3..];
    assert s1[1..] == s2 && s2[1..] == s3 && s3[1..] == [];
    assert s1[0] == rows[1] && s2[0] == rows[2] && s3[0] == rows[3];
    assert Filter(s3, p) == [rows[3]];
    assert Filter(s2, p) == [rows[3]];
    assert Filter(s1, p) == [rows[3]];
  }

  /** The row test on a row of the test header, once its amount is known. */
  lemma KeptWhen(row: seq<Cell>, conv: Conversions, v: real)
    requires |row| == 5 && AmountCell(row[3]) == Some(Num(v))
    ensures "amount" in DonationColumns && "date" in DonationColumns
    ensures DonationKept(row, DonationColumns, conv) == (v > 0.0 && DateCell(row[4], conv).Stamp?)
  {
    DonationHeaderOkHere();
    KeptAt(row, DonationColumns, conv, v);
  }

  /** The keep test on a row whose amount and date sit at positions 3 and 4. */
  lemma KeptAt(row: seq<Cell>, cols: seq<string>, conv: Conversions, v: real)
    requires "amount" in cols && "date" in cols && IndexOf(cols, "amount") == 3 && IndexOf(cols, "date") == 4
    requires |row| == 5 && AmountCell(row[3]) == Some(Num(v))
    ensures DonationKept(row, cols, conv) == (v > 0.0 && DateCell(row[4], conv).Stamp?)
  {
  }

  lemma JaneKept(conv: Conversions)
    requires TestDates(conv)
    ensures "amount" in DonationColumns && "date" in DonationColumns
    ensures DonationKept(JaneRow, DonationColumns, conv)
  {
    HundredCell(JaneRow[3]);
    KeptWhen(JaneRow, conv, 100.0);
  }

  /** "$0" converts, but is not a positive amount. */
  lemma JohnDropped(conv: Conversions)
    ensures "amount" in DonationColumns && "date" in DonationColumns
    ensures !DonationKept(JohnRow, DonationColumns, conv)
  {
    ZeroCell(JohnRow[3]);
    KeptWhen(JohnRow, conv, 0.0);
  }

  /** The nameless row has a valid amount but a date that does not parse. */
  lemma NoNameDropped(conv: Conversions)
    requires TestDates(conv)
    ensures "amount" in DonationColumns && "date" in DonationColumns
    ensures !DonationKept(NoNameRow, DonationColumns, conv)
  {
    TwentyFiveCell(NoNameRow[3]);
    KeptWhen(NoNameRow, conv, 25.0);
  }

  lemma AmyKept(conv: Conversions)
    requires TestDates(conv)
    ensures "amount" in DonationColumns && "date" in DonationColumns
    ensures DonationKept(AmyRow, DonationColumns, conv)
  {
    SeventyFiveCell(AmyRow[3]);
    KeptWhen(AmyRow, conv, 75.5);
  }

  /** The amount column of a standardised row of the test header. */
  lemma AmountAt(row: seq<Cell>, conv: Conversions, v: Cell)
    requires |row| == 5 && AmountCell(row[3]) == Some(v)
    ensures StandardizeDonation(row, DonationColumns, conv)[3] == v
  {
  }

  lemma JaneCleaned(conv: Conversions)
    requires TestDates(conv)
    ensures StandardizeDonation(JaneRow, DonationColumns, conv)
      == [Str("Jane Doe"), Str("credit"), Str("Holiday Fund"), Num(100.0), Stamp(Date(2024, 1, 1))]
  {
    JaneCell0(conv);
    JaneCell1(conv);
    JaneCell2(conv);
    JaneCell3(conv);
    JaneCell4(conv);
    FiveCells(StandardizeDonation(JaneRow, DonationColumns, conv),
      Str("Jane Doe"), Str("credit"), Str("Holiday Fund"), Num(100.0), Stamp(Date(2024, 1, 1)));
  }

  lemma JaneCell0(conv: Conversions)
    ensures StandardizeDonation(JaneRow, DonationColumns, conv)[0] == Str("Jane Doe")
  {
    JaneDoeName();
  }

  lemma JaneCell1(conv: Conversions)
    ensures StandardizeDonation(JaneRow, DonationColumns, conv)[1] == Str("credit")
  {
    CreditMethod();
  }

  lemma JaneCell2(conv: Conversions)
    ensures StandardizeDonation(JaneRow, DonationColumns, conv)[2] == Str("Holiday Fund")
  {
    HolidayFundTitle();
  }

  lemma JaneCell3(conv: Conversions)
    ensures StandardizeDonation(JaneRow, DonationColumns, conv)[3] == Num(100.0)
  {
    HundredCell(JaneRow[3]);
    AmountAt(JaneRow, conv, Num(100.0));
  }

  lemma JaneCell4(conv: Conversions)
    requires TestDates(conv)
    ensures StandardizeDonation(JaneRow, DonationColumns, conv)[4] == Stamp(Date(2024, 1, 1))
  {
  }

  lemma AmyCleaned(conv: Conversions)
    requires TestDates(conv)
    ensures StandardizeDonation(AmyRow, DonationColumns, conv)
      == [Str("Amy"), Str("credit"), Str("Health"), Num(75.5), Stamp(Date(2024, 3, 15))]
  {
    AmyCell0(conv);
    AmyCell1(conv);
    AmyCell2(conv);
    AmyCell3(conv);
    AmyCell4(conv);
    FiveCells(StandardizeDonation(AmyRow, DonationColumns, conv),
      Str("Amy"), Str("credit"), Str("Health"), Num(75.5), Stamp(Date(2024, 3, 15)));
  }

  lemma AmyCell0(conv: Conversions)
    ensures StandardizeDonation(AmyRow, DonationColumns, conv)[0] == Str("Amy")
  {
    AmyTitle();
  }

  lemma AmyCell1(conv: Conversions)
    ensures StandardizeDonation(AmyRow, DonationColumns, conv)[1] == Str("credit")
  {
    LowerOfStripped("credit");
  }

  lemma AmyCell2(conv: Conversions)
    ensures StandardizeDonation(AmyRow, DonationColumns, conv)[2] == Str("Health")
  {
    TitledWord("Health");
  }

  lemma AmyCell3(conv: Conversions)
    ensures StandardizeDonation(AmyRow, DonationColumns, conv)[3] == Num(75.5)
  {
    SeventyFiveCell(AmyRow[3]);
    AmountAt(AmyRow, conv, Num(75.5));
  }

  lemma AmyCell4(conv: Conversions)
    requires TestDates(conv)
    ensures StandardizeDonation(AmyRow, DonationColumns, conv)[4] == Stamp(Date(2024, 3, 15))
  {
  }

  lemma FiveCells(r: seq<Cell>, a: Cell, b: Cell, c: Cell, d: Cell, e: Cell)
    requires |r| == 5 && r[0] == a && r[1] == b && r[2] == c && r[3] == d && r[4] == e
    ensures r == [a, b, c, d, e]
  {
  }

  lemma AmyTitle()
    ensures TitleRule("Amy") == "Amy"
  {
    TitledWord("Amy");
  }

  lemma HolidayFundTitle()
    ensures TitleRule("Holiday Fund") == "Holiday Fund"
  {
    assert "Holiday Fund" == "Holiday" + " " + "Fund";
    TitledPair("Holiday", "Fund");
  }

  /** Two title-cased words joined by a space are already title-cased. */
  lemma TitledPair(a: string, b: string)
    requires |a| > 0 && IsUpper(a[0]) && forall i :: 1 <= i < |a| ==> IsLower(a[i])
    requires |b| > 0 && IsUpper(b[0]) && forall i :: 1 <= i < |b| ==> IsLower(b[i])
    ensures TitleRule(a + " " + b) == a + " " + b
  {
    var s := a + " " + b;
    var n := |a|;
    assert s[0] == a[0] && s[|s| - 1] == b[|b| - 1];
    StripOfStripped(s);
    forall i | 0 <= i < |s| ensures Title(s)[i] == s[i] {
      TitleAt(s, i);
      if i < n {
        assert s[i] == a[i];
        if i > 0 {
          assert s[i - 1] == a[i - 1];
        }
      } else if i > n {
        assert s[i] == b[i - n - 1];
        if i > n + 1 {
          assert s[i - 1] == b[i - n - 2];
        }
      }
    }
  }

  // ---------------------------------------------------------------------
  // The summary of the cleaned donations

  /**
   * The donation summary of the test's cleaned frame: 175.5 in total, from
   * two distinct donors.
   */
  lemma DonationScenarioSummary(conv: Conversions)
    requires TestDates(conv)
    ensures CleanDonations(DonationInput, conv).Ok? && Reports.DonationReady(CleanDonations(DonationInput, conv).value)
      && Reports.SummarizeDonations(CleanDonations(DonationInput, conv).value).totalDonations == 175.5
      && Reports.SummarizeDonations(CleanDonations(DonationInput, conv).value).uniqueDonors == 2
  {
    DonationScenario(conv);
    assert CleanDonations(DonationInput, conv).value == DonationOutput;
    DonationOutputSummary();
  }

  /** The frame clean_donations returns for the test's input. */
  const DonationOutput: Frame := Table(DonationColumns, [
    [Str("Jane Doe"), Str("credit"), Str("Holiday Fund"), Num(100.0), Stamp(Date(2024, 1, 1))],
    [Str("Amy"), Str("credit"), Str("Health"), Num(75.5), Stamp(Date(2024, 3, 15))]])

  lemma DonationOutputSummary()
    ensures Reports.DonationReady(DonationOutput)
      && Reports.SummarizeDonations(DonationOutput).totalDonations == 175.5
      && Reports.SummarizeDonations(DonationOutput).uniqueDonors == 2
  {
    var t := DonationOutput;
    RowShape(t.rows[0], "Jane Doe", "credit", "Holiday Fund", 100.0, Date(2024, 1, 1));
    RowShape(t.rows[1], "Amy", "credit", "Health", 75.5, Date(2024, 3, 15));
    TwoRowSummary(t, t.rows[0], t.rows[1]);
    assert "Jane Doe" != "Amy" by {
      assert |"Jane Doe"| != |"Amy"|;
    }
  }

  /** A cleaned donation row: three texts, an amount and a timestamp. */
  lemma RowShape(a: seq<Cell>, name: string, paidBy: string, campaign: string, v: real, d: Date)
    requires a == [Str(name), Str(paidBy), Str(campaign), Num(v), Stamp(d)]
    ensures |a| == 5 && a[0].Str? && a[1].Str? && a[2].Str? && a[3].Num? && a[4].Stamp?
    ensures a[0].text == name && a[3].value == v
  {
  }

  /** The summary of a cleaned frame of two rows in the standard column order. */
  lemma TwoRowSummary(t: Frame, a: seq<Cell>, b: seq<Cell>)
    requires t.columns == DonationColumns && t.rows == [a, b]
    requires |a| == 5 && a[0].Str? && a[1].Str? && a[2].Str? && a[3].Num? && a[4].Stamp?
    requires |b| == 5 && b[0].Str? && b[1].Str? && b[2].Str? && b[3].Num? && b[4].Stamp?
    ensures Reports.DonationReady(t)
      && Reports.SummarizeDonations(t).totalDonations == a[3].value + b[3].value
      && Reports.SummarizeDonations(t).uniqueDonors == if a[0].text == b[0].text then 1 else 2
  {
    TwoRowReady(t, a, b);
    DonationPositions();
    assert Reports.Donors(t) == Reports.TextsAt(t.rows, 0);
    assert Reports.Amounts(t) == Reports.NumsAt(t.rows, 3);
    TwoRowFigures(Reports.TextsAt(t.rows, 0), Reports.NumsAt(t.rows, 3), a[0].text, b[0].text, a[3].value, b[3].value);
  }

  lemma TwoRowReady(t: Frame, a: seq<Cell>, b: seq<Cell>)
    requires t.columns == DonationColumns && t.rows == [a, b]
    requires |a| == 5 && a[0].Str? && a[1].Str? && a[2].Str? && a[3].Num? && a[4].Stamp?
    requires |b| == 5 && b[0].Str? && b[1].Str? && b[2].Str? && b[3].Num? && b[4].Stamp?
    ensures Reports.DonationReady(t)
    ensures Reports.TextsAt(t.rows, 0) == [a[0].text, b[0].text] && Reports.NumsAt(t.rows, 3) == [a[3].value, b[3].value]
    ensures IndexOf(t.columns, "amount") == 3 && IndexOf(t.columns, "donor_name") == 0
  {
    DonationHeaderOkHere();
    DonationPositions();
    RowKinds(t.rows, a, b);
  }

  /** Two rows with text in columns 0 to 2, a number in column 3 and a timestamp in column 4. */
  lemma RowKinds(rows: seq<seq<Cell>>, a: seq<Cell>, b: seq<Cell>)
    requires rows == [a, b]
    requires |a| == 5 && a[0].Str? && a[1].Str? && a[2].Str? && a[3].Num? && a[4].Stamp?
    requires |b| == 5 && b[0].Str? && b[1].Str? && b[2].Str? && b[3].Num? && b[4].Stamp?
    ensures Reports.TextColumn(rows, 0) && Reports.TextColumn(rows, 1) && Reports.TextColumn(rows, 2)
    ensures Reports.NumColumn(rows, 3) && Reports.StampColumn(rows, 4)
    ensures Reports.TextsAt(rows, 0) == [a[0].text, b[0].text] && Reports.NumsAt(rows, 3) == [a[3].value, b[3].value]
  {
  }

  /** Two donations: their sum, and one donor or two. */
  lemma TwoRowFigures(donors: seq<string>, amounts: seq<real>, x: string, y: string, u: real, v: real)
    requires donors == [x, y] && amounts == [u, v]
    ensures Tally.Sum(amounts) == u + v
    ensures Tally.CountDistinct(donors) == if x == y then 1 else 2
  {
    assert amounts[1..] == [v] && amounts[1..][1..] == [];
    assert Tally.Sum(amounts[1..]) == v + Tally.Sum([]);
    assert (set k | k in donors) == {x, y};
  }

  lemma DonationPositions()
    ensures IndexOf(DonationColumns, "donor_name") == 0 && IndexOf(DonationColumns, "method") == 1
    ensures IndexOf(DonationColumns, "campaign") == 2
  {
  }

  // ---------------------------------------------------------------------
  // Merging donors and volunteers

  /** An ascending list of pairs of positions below 1 that holds (0, 0) holds nothing else. */
  lemma SinglePair(ps: seq<(nat, nat)>)
    requires Merge.Ascending(ps) && (0, 0) in ps
    requires forall p :: p in ps ==> p.0 < 1 && p.1 < 1
    ensures |ps| == 1
  {
    forall i | 0 <= i < |ps| ensures ps[i] == (0, 0) {
      assert ps[i] in ps;
    }
    assert |ps| > 1 ==> Merge.Before(ps[0], ps[1]);
  }

  const JaneDonor: Frame := Table(["donor_name"], [[Str("Jane Doe")]])
  const JaneVolunteer: Frame := Table(["name"], [[Str("jane doe")]])

  /** Donor "Jane Doe" and volunteer "jane doe" meet in exactly one merged row. */
  lemma JaneMeetsJane(conv: Conversions)
    ensures Merge.MergeDonorsVolunteers(JaneDonor, JaneVolunteer, conv).Ok?
    ensures |Merge.MergeDonorsVolunteers(JaneDonor, JaneVolunteer, conv).value.rows| == 1
  {
    JaneKeys(conv, JaneDonor.rows[0][0], JaneVolunteer.rows[0][0]);
    OneEach(JaneDonor, JaneVolunteer, conv);
  }

  /** Both spellings of the name become the key "jane doe". */
  lemma JaneKeys(conv: Conversions, upper: Cell, lower: Cell)
    requires upper == Str("Jane Doe") && lower == Str("jane doe")
    ensures Merge.KeyOf(upper, conv) == Merge.KeyOf(lower, conv)
  {
    StripOfStripped(upper.text);
    StripOfStripped(lower.text);
    assert Lower(upper.text) == lower.text;
    assert Lower(lower.text) == lower.text;
  }

  /** One donor and one volunteer with the same key meet in exactly one merged row. */
  lemma OneEach(d: Frame, v: Frame, conv: Conversions)
    requires d.columns == ["donor_name"] && v.columns == ["name"] && |d.rows| == 1 && |v.rows| == 1
    requires Merge.KeyOf(d.rows[0][0], conv) == Merge.KeyOf(v.rows[0][0], conv)
    ensures Merge.MergeDonorsVolunteers(d, v, conv).Ok?
    ensures |Merge.MergeDonorsVolunteers(d, v, conv).value.rows| == 1
  {
    assert Occurrences(d.columns, "donor_name") == 1 && Occurrences(v.columns, "name") == 1;
    assert IndexOf(d.columns, "donor_name") == 0 && IndexOf(v.columns, "name") == 0;
    var lk := Merge.KeysAt(d.rows, 0, conv);
    var rk := Merge.KeysAt(v.rows, 0, conv);
    var ps := Merge.MatchingPairs(lk, rk);
    assert |Merge.JoinOn(d, v, 0, 0, conv).rows| == |ps|;
    assert (0, 0) in ps;
    SinglePair(ps);
  }
}
