/**
 * The column-inference side of the Streamlit front end: guessing which
 * column holds which field, recognising the workflow a table belongs to,
 * the per-column missing-value report, and the non-interactive steps of
 * the column mapper (duplicate-column removal and the confirmed rename).
 */
module Mapping {
  import opened Text
  import opened Frames
  import opened Tally

  // ---------------------------------------------------------------------
  // guess_columns

  /**
   * The alias table of guess_columns, key by key in its declaration order.
   * The second alias of "name" is the one string "personvolunteer": two
   * adjacent literals with no comma between them.
   */
  const Aliases: seq<(string, seq<string>)> := [
    ("id", ["id", "identifier", "unique_id", "case_number", "client_id", "volunteer_id", "donor_id", "supporter_id", "client_identifier"]),
    ("name", ["name", "personvolunteer", "full_name", "identity", "donor_name", "supporter", "id", "unique_id", "volunteer_name", "volunteer_full_name", "volunteer_identity", "volunteer_person", "volunteer_full_name", "volunteer_identity", "volunteer_person"]),
    ("donor_name", ["donor", "supporter", "giver", "contributor", "donation_name"]),
    ("amount", ["amount", "donation", "gift", "contribution", "value", "price", "donation_amount", "donation_value", "donation_total", "totals"]),
    ("hours", ["hours", "time", "duration", "logged", "length", "volunteer_hours", "time_spent", "volunteer_time", "volunteer_duration"]),
    ("department", ["department", "program", "campaign", "ministry", "area", "track", "initiative", "project", "service_area", "service_department", "service_program", "church", "organization", "nonprofit", "nonprofit_name", "organization_name", "nonprofit_department", "nonprofit_program", "nonprofit_campaign", "nonprofit_ministry", "nonprofit_area", "nonprofit_track", "nonprofit_initiative", "nonprofit_project", "nonprofit_service_area", "nonprofit_service_department", "nonprofit_service_program", "nonprofit_service_campaign"]),
    ("campaign", ["campaign", "initiative", "project", "program", "funding_program", "funding_initiative", "fundraiser", "event", "funding", "funding_campaign", "funding_initiative", "funding_project", "funding_event", "funding_fundraiser", "funding_source", "category", "subcategory", "fund", "funding_source", "funding_source_name", "funding_source_type", "funding_source_category", "funding_source_subcategory", "funding_source_project", "funding_source_initiative", "funding_source_event"]),
    ("date", ["date", "timestamp", "donation_date", "served"]),
    ("client_id", ["id", "case_number", "client_identifier"]),
    ("service_type", ["program", "track", "service"]),
    ("contact", ["email", "phone", "contact_info"]),
    ("gender", ["gender", "sex", "identity", "gender_identity", "prefix", "pronouns", "Mr", "Mrs", "Ms", "Mx", "Dr", "male", "female", "non_binary", "genderqueer", "genderfluid", "agender", "bigender", "two_spirit"]),
    ("ethnicity", ["race", "ethnicity", "background"]),
    ("notes", ["notes", "remarks", "comments"]),
    ("location", ["location", "address", "site"]),
    ("age", ["age", "years", "birth_year"]),
    ("status", ["status", "case_status", "volunteer_status"]),
    ("volunteer_status", ["volunteer_status", "engagement", "participation"]),
    ("service_date", ["service_date", "visit_date", "appointment_date", "project_date"])
  ]

  /** `any(alias in text for alias in aliases)`. */
  predicate AnyAliasIn(aliases: seq<string>, text: string) {
    exists a :: a in aliases && Contains(text, a)
  }

  /** A column is claimed by an alias list when its lower-cased name contains one of the aliases. */
  predicate Matches(aliases: seq<string>, column: string) {
    AnyAliasIn(aliases, Lower(column))
  }

  /** The first column, in table order, that the alias list claims. */
  function FirstMatch(columns: seq<string>, aliases: seq<string>): (r: Option<nat>)
    ensures r.Some? ==> r.value < |columns|
  {
    if columns == [] then None
    else if Matches(aliases, columns[0]) then Some(0)
    else
      match FirstMatch(columns[1..], aliases)
      case None => None
      case Some(i) => Some(i + 1)
  }

  /**
   * FirstMatch finds a claimed column exactly when there is one, and then
   * no column before it is claimed.
   */
  lemma {:induction false} FirstMatchShape(columns: seq<string>, aliases: seq<string>)
    ensures var r := FirstMatch(columns, aliases);
      (r.Some? ==> Matches(aliases, columns[r.value]))
      && (r.Some? ==> forall j :: 0 <= j < r.value ==> !Matches(aliases, columns[j]))
      && (r.None? <==> forall j :: 0 <= j < |columns| ==> !Matches(aliases, columns[j]))
  {
    if columns != [] && !Matches(aliases, columns[0]) {
      FirstMatchShape(columns[1..], aliases);
      var r := FirstMatch(columns[1..], aliases);
      if r.Some? {
        assert columns[r.value + 1] == columns[1..][r.value];
        forall j | 0 <= j < r.value + 1 ensures !Matches(aliases, columns[j]) {
          if j > 0 {
            assert columns[j] == columns[1..][j - 1];
          }
        }
      } else {
        forall j | 0 <= j < |columns| ensures !Matches(aliases, columns[j]) {
          if j > 0 {
            assert columns[j] == columns[1..][j - 1];
          }
        }
      }
    }
  }

  /** The guesses for the first `n` keys of an alias table, in table order. */
  function GuessUpTo(table: seq<(string, seq<string>)>, columns: seq<string>, n: nat): (g: seq<(string, string)>)
    requires n <= |table|
    ensures |g| <= n
  {
    if n == 0 then []
    else
      var g := GuessUpTo(table, columns, n - 1);
      match FirstMatch(columns, table[n - 1].1)
      case None => g
      case Some(i) => g + [(table[n - 1].0, columns[i])]
  }

  /** A guess is the guesses for the keys before it, plus the key's own guess if it has one. */
  lemma GuessUpToStep(table: seq<(string, seq<string>)>, columns: seq<string>, n: nat)
    requires 0 < n <= |table|
    ensures FirstMatch(columns, table[n - 1].1).None? ==> GuessUpTo(table, columns, n) == GuessUpTo(table, columns, n - 1)
    ensures FirstMatch(columns, table[n - 1].1).Some? ==>
      GuessUpTo(table, columns, n) ==
      GuessUpTo(table, columns, n - 1) + [(table[n - 1].0, columns[FirstMatch(columns, table[n - 1].1).value])]
  {
  }

  /** Each guess pairs a key of the table with the first column one of the key's aliases claims. */
  lemma {:induction false} GuessUpToSound(table: seq<(string, seq<string>)>, columns: seq<string>, n: nat)
    requires n <= |table|
    ensures forall p :: p in GuessUpTo(table, columns, n) ==>
      exists k :: 0 <= k < n && table[k].0 == p.0 && FirstMatch(columns, table[k].1).Some?
        && p.1 == columns[FirstMatch(columns, table[k].1).value]
  {
    if n > 0 {
      GuessUpToSound(table, columns, n - 1);
      GuessUpToStep(table, columns, n);
      var g0 := GuessUpTo(table, columns, n - 1);
      forall p | p in GuessUpTo(table, columns, n)
        ensures exists k ::
          0 <= k < n && table[k].0 == p.0 && FirstMatch(columns, table[k].1).Some?
          && p.1 == columns[FirstMatch(columns, table[k].1).value]
      {
        if p in g0 {
          var k :| 0 <= k < n - 1 && table[k].0 == p.0 && FirstMatch(columns, table[k].1).Some?
            && p.1 == columns[FirstMatch(columns, table[k].1).value];
        } else {
          assert table[n - 1].0 == p.0;
        }
      }
    }
  }

  /** Every key with a claimed column is guessed, with the first such column. */
  lemma {:induction false} GuessUpToComplete(table: seq<(string, seq<string>)>, columns: seq<string>, n: nat)
    requires n <= |table|
    ensures forall k :: 0 <= k < n && FirstMatch(columns, table[k].1).Some? ==>
      (table[k].0, columns[FirstMatch(columns, table[k].1).value]) in GuessUpTo(table, columns, n)
  {
    if n > 0 {
      GuessUpToComplete(table, columns, n - 1);
      GuessUpToStep(table, columns, n);
      var g0 := GuessUpTo(table, columns, n - 1);
      var g := GuessUpTo(table, columns, n);
      assert forall p :: p in g0 ==> p in g;
      forall k | 0 <= k < n && FirstMatch(columns, table[k].1).Some?
        ensures (table[k].0, columns[FirstMatch(columns, table[k].1).value]) in g
      {
        if k < n - 1 {
          assert (table[k].0, columns[FirstMatch(columns, table[k].1).value]) in g0;
        }
      }
    }
  }

  /** Every guessed column is a column of the table. */
  lemma GuessUpToColumns(table: seq<(string, seq<string>)>, columns: seq<string>, n: nat)
    requires n <= |table|
    ensures forall p :: p in GuessUpTo(table, columns, n) ==> p.1 in columns
  {
    GuessUpToSound(table, columns, n);
  }

  /** The dictionary guess_columns returns, as its (key, column) items in insertion order. */
  function Guess(columns: seq<string>): (g: seq<(string, string)>)
    ensures |g| <= |Aliases|
  {
    GuessUpTo(Aliases, columns, |Aliases|)
  }

  /** `guess_columns(df)`: the loops below run over the fixed alias table. */
  method GuessColumns(columns: seq<string>) returns (result: seq<(string, string)>)
    ensures result == Guess(columns)
  {
    result := GuessWith(Aliases, columns);
  }

  /**
   * The loops of guess_columns: for each key of the table, scan the columns
   * and keep the first one some alias of the key claims.
   */
  method GuessWith(expected: seq<(string, seq<string>)>, columns: seq<string>) returns (result: seq<(string, string)>)
    ensures result == GuessUpTo(expected, columns, |expected|)
  {
    result := [];
    var k := 0;
    while k < |expected|
      invariant 0 <= k <= |expected|
      invariant result == GuessUpTo(expected, columns, k)
    {
      var key, aliases := expected[k].0, expected[k].1;
      var c := 0;
      while c < |columns|
        invariant 0 <= c <= |columns|
        invariant result == GuessUpTo(expected, columns, k)
        invariant forall j :: 0 <= j < c ==> !Matches(aliases, columns[j])
      {
        if Matches(aliases, columns[c]) {
          FirstMatchAt(columns, aliases, c);
          result := result + [(key, columns[c])];
          break;
        }
        c := c + 1;
      }
      if c == |columns| {
        FirstMatchShape(columns, aliases);
      }
      assert result == GuessUpTo(expected, columns, k + 1);
      k := k + 1;
    }
  }

  /** The first column claimed, found by a scan from the left. */
  lemma FirstMatchAt(columns: seq<string>, aliases: seq<string>, c: nat)
    requires c < |columns| && Matches(aliases, columns[c])
    requires forall j :: 0 <= j < c ==> !Matches(aliases, columns[j])
    ensures FirstMatch(columns, aliases) == Some(c)
  {
    FirstMatchShape(columns, aliases);
    var r := FirstMatch(columns, aliases);
    assert r.Some?;
    assert !(r.value < c);
    assert !(c < r.value);
  }

  /** Every key of the alias table is a different string. */
  lemma AliasKeysDistinct()
    ensures Distinct(KeysOf(Aliases))
  {
  }

  /** The guess keys come from the alias table and the guessed columns from the table. */
  lemma GuessKeysAndColumns(columns: seq<string>)
    ensures forall p :: p in Guess(columns) ==> p.0 in KeysOf(Aliases) && p.1 in columns
  {
    KeysFromTable(Aliases, columns);
  }

  lemma KeysFromTable(table: seq<(string, seq<string>)>, columns: seq<string>)
    ensures forall p :: p in GuessUpTo(table, columns, |table|) ==> p.0 in KeysOf(table) && p.1 in columns
  {
    GuessUpToSound(table, columns, |table|);
    GuessUpToColumns(table, columns, |table|);
    forall p | p in GuessUpTo(table, columns, |table|) ensures p.0 in KeysOf(table) {
      var k :| 0 <= k < |table| && table[k].0 == p.0 && FirstMatch(columns, table[k].1).Some?;
      assert KeysOf(table)[k] == p.0;
    }
  }

  /**
   * A key is guessed exactly when some column matches one of its aliases,
   * and then its column is the first such column in table order.
   */
  lemma GuessLookup(columns: seq<string>, k: nat)
    requires k < |Aliases|
    ensures match FirstMatch(columns, Aliases[k].1)
      case Some(i) => (Aliases[k].0, columns[i]) in Guess(columns)
        && forall p :: p in Guess(columns) && p.0 == Aliases[k].0 ==> p.1 == columns[i]
      case None => forall p :: p in Guess(columns) ==> p.0 != Aliases[k].0
  {
    AliasKeysDistinct();
    LookupIn(Aliases, columns, k);
  }

  lemma LookupIn(table: seq<(string, seq<string>)>, columns: seq<string>, k: nat)
    requires k < |table| && Distinct(KeysOf(table))
    ensures match FirstMatch(columns, table[k].1)
      case Some(i) => (table[k].0, columns[i]) in GuessUpTo(table, columns, |table|)
        && forall p :: p in GuessUpTo(table, columns, |table|) && p.0 == table[k].0 ==> p.1 == columns[i]
      case None => forall p :: p in GuessUpTo(table, columns, |table|) ==> p.0 != table[k].0
  {
    var g := GuessUpTo(table, columns, |table|);
    forall p | p in g && p.0 == table[k].0
      ensures FirstMatch(columns, table[k].1).Some? && p.1 == columns[FirstMatch(columns, table[k].1).value]
    {
      GuessedKeyAt(table, columns, k, p);
    }
    if FirstMatch(columns, table[k].1).Some? {
      GuessUpToComplete(table, columns, |table|);
    }
  }

  /** A guess for the key at `k` of a table with distinct keys carries that key's first claimed column. */
  lemma GuessedKeyAt(table: seq<(string, seq<string>)>, columns: seq<string>, k: nat, p: (string, string))
    requires k < |table| && Distinct(KeysOf(table))
    requires p in GuessUpTo(table, columns, |table|) && p.0 == table[k].0
    ensures FirstMatch(columns, table[k].1).Some? && p.1 == columns[FirstMatch(columns, table[k].1).value]
  {
    GuessUpToSound(table, columns, |table|);
    var k' :| 0 <= k' < |table| && table[k'].0 == p.0 && FirstMatch(columns, table[k'].1).Some?
      && p.1 == columns[FirstMatch(columns, table[k'].1).value];
    assert KeysOf(table)[k] == table[k].0 && KeysOf(table)[k'] == table[k'].0;
    assert k == k';
  }

  /** Claims are not exclusive: the one column "donor_name" is guessed for both "name" and "donor_name". */
  lemma DonorNameClaimedTwice()
    ensures ("name", "donor_name") in Guess(["donor_name"])
    ensures ("donor_name", "donor_name") in Guess(["donor_name"])
  {
    var col := "donor_name";
    forall i | 0 <= i < |col| ensures Lower(col)[i] == col[i] {
    }
    assert Lower(col) == col;
    assert OccursAt(col, "name", 6);
    ContainsMeansOccurs(col, "name");
    assert OccursAt(col, "donor", 0);
    ContainsMeansOccurs(col, "donor");
    assert Aliases[1].0 == "name" && "name" in Aliases[1].1;
    assert Aliases[2].0 == "donor_name" && "donor" in Aliases[2].1;
    assert Matches(Aliases[1].1, col) && Matches(Aliases[2].1, col);
    FirstMatchAt([col], Aliases[1].1, 0);
    FirstMatchAt([col], Aliases[2].1, 0);
    GuessLookup([col], 1);
    GuessLookup([col], 2);
  }

  /** Dropping the aliases that hold an upper-case letter never changes which columns an alias list claims. */
  lemma UpperAliasesIdle(aliases: seq<string>, column: string)
    ensures Matches(aliases, column) <==> Matches(Filter(aliases, NoUpper), column)
  {
    LowerHasNoUpper(column);
    if Matches(aliases, column) {
      var a :| a in aliases && Contains(Lower(column), a);
      if HasUpper(a) {
        UpperNeverInLower(Lower(column), a);
      }
      FilterKeeps(aliases, NoUpper, a);
    }
  }

  function NoUpper(s: string): bool { !HasUpper(s) }

  lemma {:induction false} FilterKeeps<T>(s: seq<T>, p: T -> bool, x: T)
    requires x in s && p(x)
    ensures x in Filter(s, p)
  {
    if s[0] != x {
      FilterKeeps(s[1..], p, x);
    }
  }

  /** The gender aliases Mr, Mrs, Ms, Mx and Dr are in the table but can never claim a column. */
  lemma TitleAliasesNeverMatch(column: string)
    ensures Aliases[11].0 == "gender"
    ensures forall a :: a in ["Mr", "Mrs", "Ms", "Mx", "Dr"] ==> a in Aliases[11].1 && !Contains(Lower(column), a)
  {
    LowerHasNoUpper(column);
    forall a | a in ["Mr", "Mrs", "Ms", "Mx", "Dr"] ensures a in Aliases[11].1 && !Contains(Lower(column), a) {
      assert IsUpper(a[0]);
      UpperNeverInLower(Lower(column), a);
    }
  }

  /** "person" on its own is not an alias of "name": it is fused with the next literal. */
  lemma PersonVolunteerAlias()
    ensures Aliases[1].0 == "name"
    ensures "personvolunteer" in Aliases[1].1 && "person" !in Aliases[1].1 && "volunteer" !in Aliases[1].1
  {
  }

  // ---------------------------------------------------------------------
  // detect_workflow

  const DonationSignals: set<string> := {"amount", "date"}
  const VolunteerSignals: set<string> := {"name", "hours", "department"}

  datatype Workflow = Workflow(isDonation: bool, isVolunteer: bool, donationMatches: set<string>, volunteerMatches: set<string>)

  /**
   * `detect_workflow(df_std)`: a donation table has amount and date, a
   * volunteer table has name, hours and department; the matches are the
   * signal columns present.
   */
  function DetectWorkflow(columns: seq<string>): (w: Workflow)
    ensures w.isDonation <==> "amount" in columns && "date" in columns
    ensures w.isVolunteer <==> "name" in columns && "hours" in columns && "department" in columns
    ensures forall c :: c in w.donationMatches <==> c in DonationSignals && c in columns
    ensures forall c :: c in w.volunteerMatches <==> c in VolunteerSignals && c in columns
  {
    var dm := set c | c in DonationSignals && c in columns;
    var vm := set c | c in VolunteerSignals && c in columns;
    SubsetSameSize(dm, DonationSignals);
    SubsetSameSize(vm, VolunteerSignals);
    Workflow(|dm| == |DonationSignals|, |vm| == |VolunteerSignals|, dm, vm)
  }

  /** A subset as large as its superset is the superset. */
  lemma {:induction false} SubsetSameSize<T>(a: set<T>, b: set<T>)
    requires a <= b
    ensures |a| == |b| <==> a == b
  {
    if a != b {
      var x :| x in b && x !in a;
      SubsetSize(a, b - {x});
    }
  }

  lemma {:induction false} SubsetSize<T>(a: set<T>, b: set<T>)
    requires a <= b
    ensures |a| <= |b|
    decreases |a|
  {
    if a != {} {
      var x :| x in a;
      SubsetSize(a - {x}, b - {x});
    }
  }

  /** A table can be recognised as both kinds at once. */
  lemma BothWorkflows()
    ensures var w := DetectWorkflow(["amount", "date", "name", "hours", "department"]);
      w.isDonation && w.isVolunteer
  {
    var cols := ["amount", "date", "name", "hours", "department"];
    assert cols[0] == "amount" && cols[1] == "date" && cols[2] == "name" && cols[3] == "hours" && cols[4] == "department";
  }

  /** The cleaned volunteer header (dept, not department) is not recognised as a volunteer table. */
  lemma DeptIsNotDepartment()
    ensures !DetectWorkflow(["name", "dept", "phone", "hours"]).isVolunteer
  {
    var cols := ["name", "dept", "phone", "hours"];
    assert "department" !in cols;
  }

  // ---------------------------------------------------------------------
  // missing_value_report

  datatype MissingEntry = MissingEntry(missingRows: nat, important: bool)

  /** `col in key_fields if key_fields else False`: no list and the empty list both mean no key fields. */
  function Important(column: string, keyFields: Option<seq<string>>): (b: bool)
    ensures b <==> keyFields.Some? && column in keyFields.value
  {
    match keyFields
    case None => false
    case Some(ks) => if ks != [] then column in ks else false
  }

  /** The report over the first `n` columns, as the loop builds it. */
  function ReportUpTo(t: Frame, keyFields: Option<seq<string>>, n: nat): (m: map<string, MissingEntry>)
    requires n <= |t.columns|
    ensures forall c :: c in m ==> m[c].missingRows > 0
  {
    if n == 0 then map[]
    else
      var m := ReportUpTo(t, keyFields, n - 1);
      var missing := NullCount(t.rows, n - 1);
      if missing > 0 then m[t.columns[n - 1] := MissingEntry(missing, Important(t.columns[n - 1], keyFields))] else m
  }

  /** Over distinct names, the report has an entry exactly for each column with a missing value, holding its count. */
  lemma {:induction false} ReportUpToEntries(t: Frame, keyFields: Option<seq<string>>, n: nat)
    requires n <= |t.columns|
    requires forall a, b :: 0 <= a < b < n ==> t.columns[a] != t.columns[b]
    ensures forall i :: 0 <= i < n ==>
      (t.columns[i] in ReportUpTo(t, keyFields, n) <==> NullCount(t.rows, i) > 0)
    ensures forall i :: 0 <= i < n && t.columns[i] in ReportUpTo(t, keyFields, n) ==>
      ReportUpTo(t, keyFields, n)[t.columns[i]] == MissingEntry(NullCount(t.rows, i), Important(t.columns[i], keyFields))
    ensures forall c :: c in ReportUpTo(t, keyFields, n) ==> c in t.columns[..n]
  {
    if n > 0 {
      ReportUpToEntries(t, keyFields, n - 1);
      var m := ReportUpTo(t, keyFields, n - 1);
      var m' := ReportUpTo(t, keyFields, n);
      var c := t.columns[n - 1];
      assert t.columns[..n] == t.columns[..n - 1] + [c];
      assert c !in t.columns[..n - 1] by {
        assert forall i :: 0 <= i < n - 1 ==> t.columns[i] != c;
      }
      assert c !in m;
      forall i | 0 <= i < n - 1
        ensures (t.columns[i] in m' <==> t.columns[i] in m)
        ensures t.columns[i] in m ==> m'[t.columns[i]] == m[t.columns[i]]
      {
        assert t.columns[i] != c;
      }
    }
  }

  /**
   * `missing_value_report(df, key_fields)`: an entry for each column with a
   * missing value, holding the count and whether the column is a key
   * field. A repeated column name makes `df[col]` a frame whose count has
   * no single truth value, so the call fails (None).
   */
  method MissingValueReport(t: Frame, keyFields: Option<seq<string>>) returns (r: Option<map<string, MissingEntry>>)
    ensures r.None? <==> !Distinct(t.columns)
    ensures r.Some? ==> r.value == ReportUpTo(t, keyFields, |t.columns|)
  {
    var report: map<string, MissingEntry> := map[];
    var j := 0;
    while j < |t.columns|
      invariant 0 <= j <= |t.columns|
      invariant forall i :: 0 <= i < j ==> Occurrences(t.columns, t.columns[i]) == 1
      invariant report == ReportUpTo(t, keyFields, j)
    {
      var col := t.columns[j];
      if Occurrences(t.columns, col) > 1 {
        DistinctIffOnce(t.columns);
        return None;
      }
      var missing := NullCount(t.rows, j);
      if missing > 0 {
        report := report[col := MissingEntry(missing, Important(col, keyFields))];
      }
      assert report == ReportUpTo(t, keyFields, j + 1);
      j := j + 1;
    }
    DistinctIffOnce(t.columns);
    r := Some(report);
  }

  /**
   * The report of a header without repeated names: an entry exactly for
   * each column with a missing value, holding that count and whether the
   * column is one of the key fields.
   */
  lemma MissingReportEntries(t: Frame, keyFields: Option<seq<string>>)
    requires Distinct(t.columns)
    ensures var m := ReportUpTo(t, keyFields, |t.columns|);
      forall c :: (c in m <==> c in t.columns && NullCount(t.rows, IndexOf(t.columns, c)) > 0)
        && (c in m ==> (m[c].missingRows == NullCount(t.rows, IndexOf(t.columns, c)) && m[c].missingRows > 0
          && (m[c].important <==> keyFields.Some? && c in keyFields.value)))
  {
    ReportUpToEntries(t, keyFields, |t.columns|);
    assert t.columns[..|t.columns|] == t.columns;
  }

  // ---------------------------------------------------------------------
  // run_column_mapper

  /** The positions below `n` that hold the first occurrence of their name: `~df.columns.duplicated()`. */
  function FirstPositions(columns: seq<string>, n: nat): (ps: seq<nat>)
    requires n <= |columns|
    ensures |ps| <= n && forall k :: 0 <= k < |ps| ==> ps[k] < n
  {
    if n == 0 then []
    else
      var ps := FirstPositions(columns, n - 1);
      if columns[n - 1] in columns[..n - 1] then ps else ps + [n - 1]
  }

  /** The positions kept are first occurrences, every first occurrence is kept, and they ascend. */
  lemma FirstPositionsShape(columns: seq<string>, n: nat)
    requires n <= |columns|
    ensures forall k :: 0 <= k < |FirstPositions(columns, n)| ==>
      columns[FirstPositions(columns, n)[k]] !in columns[..FirstPositions(columns, n)[k]]
    ensures forall j :: 0 <= j < n && columns[j] !in columns[..j] ==> j in FirstPositions(columns, n)
    ensures forall a, b :: 0 <= a < b < |FirstPositions(columns, n)| ==>
      FirstPositions(columns, n)[a] < FirstPositions(columns, n)[b]
  {
    FirstPositionsAreFirst(columns, n);
    FirstPositionsComplete(columns, n);
    FirstPositionsAscend(columns, n);
  }

  lemma {:induction false} FirstPositionsAreFirst(columns: seq<string>, n: nat)
    requires n <= |columns|
    ensures forall k :: 0 <= k < |FirstPositions(columns, n)| ==>
      columns[FirstPositions(columns, n)[k]] !in columns[..FirstPositions(columns, n)[k]]
  {
    if n > 0 {
      FirstPositionsAreFirst(columns, n - 1);
      var prev := FirstPositions(columns, n - 1);
      if columns[n - 1] !in columns[..n - 1] {
        var ps := prev + [n - 1];
        assert FirstPositions(columns, n) == ps;
        forall k | 0 <= k < |ps| ensures columns[ps[k]] !in columns[..ps[k]] {
          if k < |prev| {
            assert ps[k] == prev[k];
          }
        }
      } else {
        assert FirstPositions(columns, n) == prev;
      }
    }
  }

  lemma {:induction false} FirstPositionsComplete(columns: seq<string>, n: nat)
    requires n <= |columns|
    ensures forall j :: 0 <= j < n && columns[j] !in columns[..j] ==> j in FirstPositions(columns, n)
  {
    if n > 0 {
      FirstPositionsComplete(columns, n - 1);
      var prev := FirstPositions(columns, n - 1);
      if columns[n - 1] !in columns[..n - 1] {
        var ps := prev + [n - 1];
        assert FirstPositions(columns, n) == ps;
        forall j | 0 <= j < n && columns[j] !in columns[..j] ensures j in ps {
          if j < n - 1 {
            assert j in prev;
          } else {
            assert ps[|prev|] == j;
          }
        }
      } else {
        assert FirstPositions(columns, n) == prev;
      }
    }
  }

  lemma {:induction false} FirstPositionsAscend(columns: seq<string>, n: nat)
    requires n <= |columns|
    ensures forall a, b :: 0 <= a < b < |FirstPositions(columns, n)| ==>
      FirstPositions(columns, n)[a] < FirstPositions(columns, n)[b]
  {
    if n > 0 {
      FirstPositionsAscend(columns, n - 1);
      var prev := FirstPositions(columns, n - 1);
      if columns[n - 1] !in columns[..n - 1] {
        var ps := prev + [n - 1];
        assert FirstPositions(columns, n) == ps;
        forall a, b | 0 <= a < b < |ps| ensures ps[a] < ps[b] {
          assert ps[a] == prev[a];
        }
      } else {
        assert FirstPositions(columns, n) == prev;
      }
    }
  }

  /** A position holding the first occurrence of its name is where IndexOf finds the name. */
  lemma FirstOccurrence(columns: seq<string>, j: nat)
    requires j < |columns| && columns[j] !in columns[..j]
    ensures IndexOf(columns, columns[j]) == j
  {
  }

  /** The names at the first-occurrence positions: each name of the header once, in header order. */
  lemma FirstNames(columns: seq<string>)
    ensures var ps := FirstPositions(columns, |columns|);
      (forall k :: 0 <= k < |ps| ==> IndexOf(columns, columns[ps[k]]) == ps[k])
      && (forall c :: c in columns ==> exists k :: 0 <= k < |ps| && columns[ps[k]] == c)
  {
    var ps := FirstPositions(columns, |columns|);
    FirstPositionsShape(columns, |columns|);
    forall k | 0 <= k < |ps| ensures IndexOf(columns, columns[ps[k]]) == ps[k] {
      FirstOccurrence(columns, ps[k]);
    }
    forall c | c in columns ensures exists k :: 0 <= k < |ps| && columns[ps[k]] == c {
      var j := IndexOf(columns, c);
      assert j in ps;
      var k :| 0 <= k < |ps| && ps[k] == j;
    }
  }

  /** The columns at positions `ps`, in that order, with their cells: `df.iloc[:, ps]`. */
  function SelectColumns(t: Frame, ps: seq<nat>): (r: Frame)
    requires forall k :: 0 <= k < |ps| ==> ps[k] < |t.columns|
    ensures |r.columns| == |ps| && forall k :: 0 <= k < |ps| ==> r.columns[k] == t.columns[ps[k]]
    ensures |r.rows| == |t.rows|
    ensures forall i, k :: 0 <= i < |t.rows| && 0 <= k < |ps| ==> r.rows[i][k] == t.rows[i][ps[k]]
  {
    var cols := seq(|ps|, k requires 0 <= k < |ps| => t.columns[ps[k]]);
    var rows := seq(|t.rows|, i requires 0 <= i < |t.rows| => seq(|ps|, k requires 0 <= k < |ps| => t.rows[i][ps[k]]));
    Table(cols, rows)
  }

  /** `df.loc[:, ~df.columns.duplicated()]`: keeps the first column of each name. */
  function DropDuplicateColumns(t: Frame): (r: Frame)
    ensures |r.rows| == |t.rows| && |r.columns| <= |t.columns|
  {
    var ps := FirstPositions(t.columns, |t.columns|);
    SelectColumns(t, ps)
  }

  /** After dropping, every name of the header occurs once, and in the order of its first occurrence. */
  lemma DropDuplicatesNames(t: Frame)
    ensures var r := DropDuplicateColumns(t);
      Distinct(r.columns)
      && (forall c :: c in r.columns <==> c in t.columns)
      && forall a, b :: 0 <= a < b < |r.columns| ==>
        r.columns[a] in t.columns && r.columns[b] in t.columns &&
        IndexOf(t.columns, r.columns[a]) < IndexOf(t.columns, r.columns[b])
  {
    var ps := FirstPositions(t.columns, |t.columns|);
    var r := DropDuplicateColumns(t);
    FirstNames(t.columns);
    FirstPositionsShape(t.columns, |t.columns|);
    assert r.columns == SelectColumns(t, ps).columns;
    forall a, b | 0 <= a < b < |r.columns|
      ensures r.columns[a] in t.columns && r.columns[b] in t.columns
      ensures IndexOf(t.columns, r.columns[a]) < IndexOf(t.columns, r.columns[b])
      ensures r.columns[a] != r.columns[b]
    {
      assert r.columns[a] == t.columns[ps[a]] && r.columns[b] == t.columns[ps[b]];
    }
    forall c | c in t.columns ensures c in r.columns {
      var k :| 0 <= k < |ps| && t.columns[ps[k]] == c;
      assert r.columns[k] == c;
    }
  }

  /** After dropping, each column holds the cells of the first column of its name. */
  lemma DropDuplicatesCells(t: Frame)
    ensures var r := DropDuplicateColumns(t);
      forall i, k :: 0 <= i < |r.rows| && 0 <= k < |r.columns| ==>
        r.columns[k] in t.columns && r.rows[i][k] == t.rows[i][IndexOf(t.columns, r.columns[k])]
  {
    var ps := FirstPositions(t.columns, |t.columns|);
    FirstNames(t.columns);
    assert DropDuplicateColumns(t) == SelectColumns(t, ps);
  }

  /** A header without repeated names loses nothing. */
  lemma DropDuplicatesKeepsDistinct(t: Frame)
    requires Distinct(t.columns)
    ensures DropDuplicateColumns(t) == t
  {
    var ps := FirstPositions(t.columns, |t.columns|);
    forall j | 0 <= j < |t.columns| ensures t.columns[j] !in t.columns[..j] {
      assert forall i :: 0 <= i < j ==> t.columns[..j][i] == t.columns[i];
    }
    FirstPositionsShape(t.columns, |t.columns|);
    AllPositions(ps, |t.columns|);
    var r := DropDuplicateColumns(t);
    assert r.columns == t.columns;
    assert r.rows == t.rows by {
      forall i | 0 <= i < |t.rows| ensures r.rows[i] == t.rows[i] {
        assert |r.rows[i]| == |t.rows[i]|;
      }
    }
  }

  /** Strictly ascending positions below `n` that include every one of them are exactly 0 .. n-1. */
  lemma AllPositions(ps: seq<nat>, n: nat)
    requires forall k :: 0 <= k < |ps| ==> ps[k] < n
    requires forall j :: 0 <= j < n ==> j in ps
    requires forall a, b :: 0 <= a < b < |ps| ==> ps[a] < ps[b]
    ensures |ps| == n && forall k :: 0 <= k < n ==> ps[k] == k
  {
    if n > 0 {
      PositionsUpTo(ps, n, n - 1);
      assert n - 1 < |ps|;
    }
    if |ps| > 0 {
      AtLeastIndex(ps, |ps| - 1);
      assert ps[|ps| - 1] < n;
    }
  }

  lemma {:induction false} PositionsUpTo(ps: seq<nat>, n: nat, k: nat)
    requires k < n
    requires forall k :: 0 <= k < |ps| ==> ps[k] < n
    requires forall j :: 0 <= j < n ==> j in ps
    requires forall a, b :: 0 <= a < b < |ps| ==> ps[a] < ps[b]
    ensures k < |ps| && forall m :: 0 <= m <= k ==> ps[m] == m
  {
    if k > 0 {
      PositionsUpTo(ps, n, k - 1);
    }
    assert k in ps;
    var m :| 0 <= m < |ps| && ps[m] == k;
    AtLeastIndex(ps, k);
  }

  lemma {:induction false} AtLeastIndex(ps: seq<nat>, k: nat)
    requires k < |ps|
    requires forall a, b :: 0 <= a < b < |ps| ==> ps[a] < ps[b]
    ensures ps[k] >= k
  {
    if k > 0 {
      AtLeastIndex(ps, k - 1);
    }
  }

  /**
   * `{v: k for k, v in confirmed.items()}`: each confirmed column maps to
   * its key; when several keys confirm one column, the later key wins.
   */
  function InvertConfirmed(confirmed: seq<(string, string)>): (m: map<string, string>)
    ensures forall v :: v in m <==> exists i :: 0 <= i < |confirmed| && confirmed[i].1 == v
  {
    if confirmed == [] then map[]
    else
      var n := |confirmed| - 1;
      assert forall i :: 0 <= i < n ==> confirmed[..n][i] == confirmed[i];
      InvertConfirmed(confirmed[..n])[confirmed[n].1 := confirmed[n].0]
  }

  /** The key a column maps to is the key of its last confirmation. */
  lemma {:induction false} LaterKeyWins(confirmed: seq<(string, string)>, i: nat)
    requires i < |confirmed|
    requires forall j :: i < j < |confirmed| ==> confirmed[j].1 != confirmed[i].1
    ensures InvertConfirmed(confirmed)[confirmed[i].1] == confirmed[i].0
  {
    var n := |confirmed| - 1;
    if i < n {
      LaterKeyWins(confirmed[..n], i);
    }
  }

  /** `df.rename(columns=mapping)`: the mapped names change, the rest and every cell stay. */
  function RenameColumns(t: Frame, mapping: map<string, string>): (r: Frame)
    ensures r.rows == t.rows && |r.columns| == |t.columns|
    ensures forall j :: 0 <= j < |t.columns| ==>
      r.columns[j] == if t.columns[j] in mapping then mapping[t.columns[j]] else t.columns[j]
  {
    Table(seq(|t.columns|, j requires 0 <= j < |t.columns| =>
      if t.columns[j] in mapping then mapping[t.columns[j]] else t.columns[j]), t.rows)
  }

  /** The column the user leaves or picks for a guessed key: the pick if there is one, else the guess. */
  function Chosen(item: (string, string), picks: map<string, string>): string {
    if item.0 in picks then picks[item.0] else item.1
  }

  /** The confirmed mapping, one (key, chosen column) per guess, in guess order. */
  function Confirm(guess: seq<(string, string)>, picks: map<string, string>): (c: seq<(string, string)>)
    ensures |c| == |guess|
    ensures forall i :: 0 <= i < |guess| ==> c[i] == (guess[i].0, Chosen(guess[i], picks))
  {
    if guess == [] then []
    else Confirm(guess[..|guess| - 1], picks) + [(guess[|guess| - 1].0, Chosen(guess[|guess| - 1], picks))]
  }

  /**
   * The non-interactive part of `run_column_mapper(df)`: an empty frame
   * gives None; repeated columns are dropped; each guessed key is
   * confirmed with the user's pick for it, by default its guess; an empty
   * confirmation gives None, any other renames each confirmed column to
   * its (last) key. `picks` stands for the sidebar select boxes, which
   * only offer the frame's columns.
   */
  method ColumnMapper(t: Frame, picks: map<string, string>) returns (r: Option<Frame>)
    requires forall k :: k in picks ==> picks[k] in t.columns
    ensures |t.rows| == 0 || |t.columns| == 0 ==> r.None?
    ensures |t.rows| > 0 && |t.columns| > 0 ==> r == Mapped(DropDuplicateColumns(t), picks)
  {
    if |t.rows| == 0 || |t.columns| == 0 {
      return None;
    }
    var d := t;
    if !Distinct(t.columns) {
      d := DropDuplicateColumns(t);
    } else {
      DropDuplicatesKeepsDistinct(t);
    }
    r := ConfirmAndRename(d, picks);
  }

  /** The rename the mapper applies to a frame without repeated columns, or None when nothing was guessed. */
  function Mapped(d: Frame, picks: map<string, string>): (r: Option<Frame>)
    ensures r.None? <==> Guess(d.columns) == []
  {
    var confirmed := Confirm(Guess(d.columns), picks);
    if confirmed == [] then None else Some(RenameColumns(d, InvertConfirmed(confirmed)))
  }

  /** The guessing, confirming and renaming steps of the mapper. */
  method ConfirmAndRename(d: Frame, picks: map<string, string>) returns (r: Option<Frame>)
    ensures r == Mapped(d, picks)
  {
    var columnMap := GuessColumns(d.columns);
    var confirmed: seq<(string, string)> := [];
    var i := 0;
    while i < |columnMap|
      invariant 0 <= i <= |columnMap|
      invariant confirmed == Confirm(columnMap[..i], picks)
    {
      var key, guess := columnMap[i].0, columnMap[i].1;
      var choice := if key in picks then picks[key] else guess;
      ConfirmStep(columnMap, picks, i);
      confirmed := confirmed + [(key, choice)];
      i := i + 1;
    }
    assert columnMap[..i] == columnMap;
    if confirmed == [] {
      return None;
    }
    return Some(RenameColumns(d, InvertConfirmed(confirmed)));
  }

  lemma ConfirmStep(g: seq<(string, string)>, picks: map<string, string>, i: nat)
    requires i < |g|
    ensures Confirm(g[..i + 1], picks) == Confirm(g[..i], picks) + [(g[i].0, Chosen(g[i], picks))]
  {
    assert g[..i + 1][..i] == g[..i];
  }

  /**
   * The mapper's rename keeps every cell; a column no key confirmed keeps
   * its name, and a confirmed column takes the key of its last
   * confirmation.
   */
  lemma RenameConfirmed(d: Frame, confirmed: seq<(string, string)>, j: nat)
    requires j < |d.columns|
    ensures RenameColumns(d, InvertConfirmed(confirmed)).rows == d.rows
    ensures (forall i :: 0 <= i < |confirmed| ==> confirmed[i].1 != d.columns[j]) ==>
      RenameColumns(d, InvertConfirmed(confirmed)).columns[j] == d.columns[j]
    ensures forall i ::
      (0 <= i < |confirmed| && confirmed[i].1 == d.columns[j]
       && (forall k :: i < k < |confirmed| ==> confirmed[k].1 != d.columns[j])) ==>
      RenameColumns(d, InvertConfirmed(confirmed)).columns[j] == confirmed[i].0
  {
    forall i | 0 <= i < |confirmed| && confirmed[i].1 == d.columns[j]
      && (forall k :: i < k < |confirmed| ==> confirmed[k].1 != d.columns[j])
      ensures RenameColumns(d, InvertConfirmed(confirmed)).columns[j] == confirmed[i].0
    {
      LaterKeyWins(confirmed, i);
    }
  }

  /** When two keys confirm the same column, the later key names it. */
  lemma LaterKeyNamesColumn()
    ensures InvertConfirmed([("name", "donor_name"), ("donor_name", "donor_name")]) == map["donor_name" := "donor_name"]
  {
  }
}
