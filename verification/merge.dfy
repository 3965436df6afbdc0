/**
 * merge_donor_volunteer_data: an inner join of donor rows and volunteer
 * rows on their names, trimmed and lower-cased, with the overlapping
 * column names suffixed.
 */
module Merge {
  import opened Text
  import opened Frames

  datatype Side = Donors | Volunteers

  /** Selecting the key column fails: it is absent (KeyError) or repeated (a frame has no `.str`). */
  datatype MergeError = NoKeyColumn(side: Side) | RepeatedKeyColumn(side: Side)

  /** `astype(str).str.strip().str.lower()` on one cell. */
  function KeyOf(c: Cell, conv: Conversions): (k: string)
    ensures !HasUpper(k) && Stripped(k)
  {
    StripShape(Render(c, conv));
    LowerKeepsStripped(Strip(Render(c, conv)));
    LowerHasNoUpper(Strip(Render(c, conv)));
    LowerRule(Render(c, conv))
  }

  /** The key of every row, read from column `j`. */
  function KeysAt(rows: seq<seq<Cell>>, j: nat, conv: Conversions): (ks: seq<string>)
    requires forall i :: 0 <= i < |rows| ==> j < |rows[i]|
    ensures |ks| == |rows|
    ensures forall i :: 0 <= i < |rows| ==> ks[i] == KeyOf(rows[i][j], conv)
  {
    seq(|rows|, i requires 0 <= i < |rows| => KeyOf(rows[i][j], conv))
  }

  /** Every row with its key cell replaced by the normalised key text. */
  function Rekeyed(rows: seq<seq<Cell>>, j: nat, conv: Conversions): (r: seq<seq<Cell>>)
    requires forall i :: 0 <= i < |rows| ==> j < |rows[i]|
    ensures |r| == |rows|
    ensures forall i :: 0 <= i < |rows| ==> r[i] == rows[i][j := Str(KeyOf(rows[i][j], conv))]
  {
    seq(|rows|, i requires 0 <= i < |rows| => rows[i][j := Str(KeyOf(rows[i][j], conv))])
  }

  // ---------------------------------------------------------------------
  // Matching pairs

  /** Pairs in ascending order of left row, then right row. */
  predicate Before(p: (nat, nat), q: (nat, nat)) {
    p.0 < q.0 || (p.0 == q.0 && p.1 < q.1)
  }

  predicate Ascending(ps: seq<(nat, nat)>) {
    forall a, b :: 0 <= a < b < |ps| ==> Before(ps[a], ps[b])
  }

  /** The pairs (i, j) for the right rows j whose key is `x`, in ascending j. */
  function RowPairs(i: nat, x: string, rk: seq<string>): (ps: seq<(nat, nat)>)
    ensures forall p :: p in ps ==> p.0 == i && p.1 < |rk| && rk[p.1] == x
    ensures forall j :: 0 <= j < |rk| && rk[j] == x ==> (i, j) in ps
    ensures Ascending(ps)
  {
    if rk == [] then []
    else
      var n := |rk| - 1;
      var front := RowPairs(i, x, rk[..n]);
      if rk[n] == x then front + [(i, n)] else front
  }

  /**
   * Every pair of a left row and a right row with equal keys, once each,
   * in the order of the left rows and, within one left row, of the right
   * rows.
   */
  function MatchingPairs(lk: seq<string>, rk: seq<string>): (ps: seq<(nat, nat)>)
    ensures forall p :: p in ps ==> p.0 < |lk| && p.1 < |rk| && lk[p.0] == rk[p.1]
    ensures forall i, j :: 0 <= i < |lk| && 0 <= j < |rk| && lk[i] == rk[j] ==> (i, j) in ps
    ensures Ascending(ps)
  {
    if lk == [] then []
    else
      var n := |lk| - 1;
      var front := MatchingPairs(lk[..n], rk);
      var last := RowPairs(n, lk[n], rk);
      assert forall a, b :: 0 <= a < |front| && 0 <= b < |last| ==> Before(front[a], last[b]) by {
        forall a, b | 0 <= a < |front| && 0 <= b < |last| ensures Before(front[a], last[b]) {
          assert front[a] in front && last[b] in last;
        }
      }
      front + last
  }

  // ---------------------------------------------------------------------
  // The join

  /** The output header: a name present on both sides gets the side's suffix. */
  function MergedColumns(left: seq<string>, right: seq<string>): (cols: seq<string>)
    ensures |cols| == |left| + |right|
    ensures forall j :: 0 <= j < |left| ==> cols[j] == if left[j] in right then left[j] + "_donor" else left[j]
    ensures forall j :: 0 <= j < |right| ==>
      cols[|left| + j] == if right[j] in left then right[j] + "_volunteer" else right[j]
  {
    seq(|left|, j requires 0 <= j < |left| => if left[j] in right then left[j] + "_donor" else left[j])
    + seq(|right|, j requires 0 <= j < |right| => if right[j] in left then right[j] + "_volunteer" else right[j])
  }

  /** The key column of one side, or the error selecting it raises. */
  function KeyColumn(cols: seq<string>, name: string, side: Side): (r: Result<nat, MergeError>)
    ensures r.Ok? <==> Occurrences(cols, name) == 1
    ensures r.Ok? ==> r.value < |cols| && cols[r.value] == name
    ensures r.Err? ==> r.error.side == side && (r.error.NoKeyColumn? <==> name !in cols)
  {
    if name !in cols then Err(NoKeyColumn(side))
    else if Occurrences(cols, name) > 1 then Err(RepeatedKeyColumn(side))
    else Ok(IndexOf(cols, name))
  }

  /**
   * `merge_donor_volunteer_data(donors_df, volunteers_df)`: the join on the
   * one donor_name column and the one name column, or the error selecting
   * a key column raises. The donor key is selected first, so its error is
   * the one raised when both sides lack their key.
   */
  function MergeDonorsVolunteers(donors: Frame, volunteers: Frame, conv: Conversions): (r: Result<Frame, MergeError>)
    ensures r.Err? <==> Occurrences(donors.columns, "donor_name") != 1 || Occurrences(volunteers.columns, "name") != 1
    ensures r.Err? && Occurrences(donors.columns, "donor_name") != 1 ==> r.error.side == Donors
    ensures r.Ok? ==> ("donor_name" in donors.columns && "name" in volunteers.columns
      && r.value == JoinOn(donors, volunteers, IndexOf(donors.columns, "donor_name"), IndexOf(volunteers.columns, "name"), conv))
  {
    match KeyColumn(donors.columns, "donor_name", Donors)
    case Err(e) => Err(e)
    case Ok(dk) =>
      match KeyColumn(volunteers.columns, "name", Volunteers)
      case Err(e) => Err(e)
      case Ok(vk) =>
        OnlyOccurrence(donors.columns, "donor_name", dk);
        OnlyOccurrence(volunteers.columns, "name", vk);
        Ok(JoinOn(donors, volunteers, dk, vk, conv))
  }

  /**
   * The inner join on donor column `dk` and volunteer column `vk`: one
   * output row per pair of a donor row and a volunteer row whose normalised
   * keys are equal, the donor's cells then the volunteer's, both key cells
   * holding the normalised key.
   */
  function JoinOn(donors: Frame, volunteers: Frame, dk: nat, vk: nat, conv: Conversions): (t: Frame)
    requires dk < |donors.columns| && vk < |volunteers.columns|
    ensures t.columns == MergedColumns(donors.columns, volunteers.columns)
    ensures var ps := MatchingPairs(KeysAt(donors.rows, dk, conv), KeysAt(volunteers.rows, vk, conv));
      |t.rows| == |ps| &&
      forall k :: 0 <= k < |ps| ==>
        t.rows[k] == Rekeyed(donors.rows, dk, conv)[ps[k].0] + Rekeyed(volunteers.rows, vk, conv)[ps[k].1]
  {
    var left := Rekeyed(donors.rows, dk, conv);
    var right := Rekeyed(volunteers.rows, vk, conv);
    var ps := MatchingPairs(KeysAt(donors.rows, dk, conv), KeysAt(volunteers.rows, vk, conv));
    var cols := MergedColumns(donors.columns, volunteers.columns);
    assert forall i :: 0 <= i < |left| ==> |left[i]| == |donors.columns|;
    assert forall i :: 0 <= i < |right| ==> |right[i]| == |volunteers.columns|;
    Table(cols, PairedRows(left, right, ps, |cols|))
  }

  /** The left row and the right row of each pair, side by side. */
  function PairedRows(left: seq<seq<Cell>>, right: seq<seq<Cell>>, ps: seq<(nat, nat)>, width: nat): (rows: seq<seq<Cell>>)
    requires forall p :: p in ps ==> p.0 < |left| && p.1 < |right| && |left[p.0]| + |right[p.1]| == width
    ensures |rows| == |ps|
    ensures forall k :: 0 <= k < |ps| ==>
      ps[k].0 < |left| && ps[k].1 < |right| && rows[k] == left[ps[k].0] + right[ps[k].1] && |rows[k]| == width
  {
    seq(|ps|, k requires 0 <= k < |ps| => assert ps[k] in ps; left[ps[k].0] + right[ps[k].1])
  }

  /** No pair matches exactly when no left key equals a right key. */
  lemma PairsEmptyIffNoCommonKey(lk: seq<string>, rk: seq<string>)
    ensures MatchingPairs(lk, rk) == [] <==>
      forall i, j :: 0 <= i < |lk| && 0 <= j < |rk| ==> lk[i] != rk[j]
  {
    var ps := MatchingPairs(lk, rk);
    if ps != [] {
      var p := ps[0];
      assert p in ps;
      assert p.0 < |lk| && p.1 < |rk| && lk[p.0] == rk[p.1];
    }
    if exists i, j :: 0 <= i < |lk| && 0 <= j < |rk| && lk[i] == rk[j] {
      var i, j :| 0 <= i < |lk| && 0 <= j < |rk| && lk[i] == rk[j];
      assert (i, j) in ps;
    }
  }

  /** The join is empty exactly when no donor key equals a volunteer key. */
  lemma JoinEmptyIffNoCommonKey(donors: Frame, volunteers: Frame, dk: nat, vk: nat, conv: Conversions)
    requires dk < |donors.columns| && vk < |volunteers.columns|
    ensures JoinOn(donors, volunteers, dk, vk, conv).rows == [] <==>
      forall i, j :: 0 <= i < |donors.rows| && 0 <= j < |volunteers.rows| ==>
        KeyOf(donors.rows[i][dk], conv) != KeyOf(volunteers.rows[j][vk], conv)
  {
    var lk := KeysAt(donors.rows, dk, conv);
    var rk := KeysAt(volunteers.rows, vk, conv);
    PairsEmptyIffNoCommonKey(lk, rk);
  }

  /** A donor row and a volunteer row meet in an output row exactly when their keys agree. */
  lemma JoinMeetsEveryMatch(donors: Frame, volunteers: Frame, dk: nat, vk: nat, conv: Conversions, i: nat, j: nat)
    requires dk < |donors.columns| && vk < |volunteers.columns|
    requires i < |donors.rows| && j < |volunteers.rows|
    ensures var ps := MatchingPairs(KeysAt(donors.rows, dk, conv), KeysAt(volunteers.rows, vk, conv));
      (KeyOf(donors.rows[i][dk], conv) == KeyOf(volunteers.rows[j][vk], conv) <==> (i, j) in ps)
  {
    var lk := KeysAt(donors.rows, dk, conv);
    var rk := KeysAt(volunteers.rows, vk, conv);
    var a, b := KeyOf(donors.rows[i][dk], conv), KeyOf(volunteers.rows[j][vk], conv);
    assert lk[i] == a && rk[j] == b;
    PairsHoldMatch(lk, rk, i, j);
  }

  /** No pair of positions is listed twice, so each match gives exactly one output row. */
  lemma PairsOnce(lk: seq<string>, rk: seq<string>)
    ensures Distinct(MatchingPairs(lk, rk))
  {
    var ps := MatchingPairs(lk, rk);
    forall a, b | 0 <= a < b < |ps| ensures ps[a] != ps[b] {
      assert Before(ps[a], ps[b]);
    }
  }

  /** A pair of positions is listed exactly when its keys agree. */
  lemma PairsHoldMatch(lk: seq<string>, rk: seq<string>, i: nat, j: nat)
    requires i < |lk| && j < |rk|
    ensures lk[i] == rk[j] <==> (i, j) in MatchingPairs(lk, rk)
  {
    var ps := MatchingPairs(lk, rk);
    if (i, j) in ps {
      var p := (i, j);
      assert p.0 < |lk| && p.1 < |rk| && lk[p.0] == rk[p.1];
    }
  }

  /** Two donors whose names were both missing match each other's volunteers: both keys are the text "none". */
  lemma MissingNamesMatch(conv: Conversions)
    ensures KeyOf(Missing, conv) == KeyOf(Str("None"), conv) == "none"
  {
    assert Render(Missing, conv) == "None";
    StripExactly("None", 0, 4);
    assert "None"[0..4] == "None";
    forall k | 0 <= k < 4 ensures Lower("None")[k] == "none"[k] {
    }
  }
}
