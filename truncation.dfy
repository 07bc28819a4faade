/// `truncate_to_four_digits`: copy a table row by row, dropping empty rows and
/// cutting the identifier field (column 14) down to its first four characters.
module Truncation {
  import opened CsvTable

  /** What reaches the output file: every row, or the rows written before an IndexError. */
  datatype TruncateOutcome =
    | Done(written: Table)
    | IndexError(written: Table, row: nat)

  /** The rows the loop can process without an IndexError: every non-empty row has column 14. */
  predicate Indexable(rows: Table) {
    forall i :: 0 <= i < |rows| && rows[i] != [] ==> HasBatId(rows[i])
  }

  /** One row after `row[14] = row[14][:4]`. */
  function TruncateRow(row: Row): (r: Row)
    requires HasBatId(row)
    ensures |r| == |row|
    ensures |r[BatIdColumn]| <= PrefixLength && r[BatIdColumn] <= row[BatIdColumn]
    ensures |r[BatIdColumn]| ==
      if |row[BatIdColumn]| < PrefixLength then |row[BatIdColumn]| else PrefixLength
    ensures forall i :: 0 <= i < |row| && i != BatIdColumn ==> r[i] == row[i]
  {
    row[BatIdColumn := Prefix(row[BatIdColumn])]
  }

  /** Truncating a truncated row changes nothing. */
  lemma TruncateRowIdempotent(row: Row)
    requires HasBatId(row)
    ensures TruncateRow(TruncateRow(row)) == TruncateRow(row)
  {
    var once := TruncateRow(row);
    assert Prefix(once[BatIdColumn]) == once[BatIdColumn];
  }

  /** The rows written for `rows`: empty rows skipped, every other one truncated. */
  function Emitted(rows: Table): (out: Table)
    requires Indexable(rows)
    ensures AllHaveBatId(out)
    ensures forall j :: 0 <= j < |out| ==> |out[j][BatIdColumn]| <= PrefixLength
  {
    if rows == [] then []
    else
      var init := Emitted(rows[..|rows| - 1]);
      var last := rows[|rows| - 1];
      if last == [] then init else init + [TruncateRow(last)]
  }

  /** The positions of the non-empty rows of `rows`, in increasing order. */
  function Origin(rows: Table): (pos: seq<nat>)
    ensures forall j :: 0 <= j < |pos| ==> pos[j] < |rows| && rows[pos[j]] != []
    ensures forall j, k :: 0 <= j < k < |pos| ==> pos[j] < pos[k]
    ensures forall i :: 0 <= i < |rows| && rows[i] != [] ==> i in pos
  {
    if rows == [] then []
    else
      var init := Origin(rows[..|rows| - 1]);
      if rows[|rows| - 1] == [] then init else init + [|rows| - 1]
  }

  /** Output row j is the truncation of the j-th non-empty input row: one row out per
      non-empty row in, in the same order. */
  lemma {:induction false} EmittedFollowsOrigin(rows: Table)
    requires Indexable(rows)
    ensures |Emitted(rows)| == |Origin(rows)|
    ensures forall j :: 0 <= j < |Origin(rows)| ==>
      Emitted(rows)[j] == TruncateRow(rows[Origin(rows)[j]])
  {
    if rows != [] {
      var init := rows[..|rows| - 1];
      var last := rows[|rows| - 1];
      assert Indexable(init);
      EmittedFollowsOrigin(init);
      var out, pos := Emitted(rows), Origin(rows);
      var initOut, initPos := Emitted(init), Origin(init);
      assert |out| == |pos|;
      forall j | 0 <= j < |pos|
        ensures out[j] == TruncateRow(rows[pos[j]])
      {
        if j < |initPos| {
          assert pos[j] == initPos[j] && out[j] == initOut[j];
          assert rows[initPos[j]] == init[initPos[j]];
        } else {
          assert last != [] && pos[j] == |rows| - 1 && out[j] == TruncateRow(last);
        }
      }
    }
  }

  /** The header row is not exempt: a non-empty first row is written first, truncated. */
  lemma HeaderIsTruncated(rows: Table)
    requires Indexable(rows)
    requires rows != [] && rows[0] != []
    ensures Emitted(rows) != [] && Emitted(rows)[0] == TruncateRow(rows[0])
  {
    EmittedFollowsOrigin(rows);
    var pos := Origin(rows);
    assert 0 in pos;
    assert pos[0] == 0;
  }

  /** Running the transform on its own output succeeds and changes nothing. */
  lemma {:induction false} EmittedIdempotent(rows: Table)
    requires Indexable(rows)
    ensures Indexable(Emitted(rows))
    ensures Emitted(Emitted(rows)) == Emitted(rows)
  {
    if rows != [] {
      var init := rows[..|rows| - 1];
      var last := rows[|rows| - 1];
      assert Indexable(init);
      EmittedIdempotent(init);
      if last != [] {
        var out := Emitted(init) + [TruncateRow(last)];
        assert out[..|out| - 1] == Emitted(init);
        TruncateRowIdempotent(last);
      }
    }
  }

  /** The loop of `truncate_to_four_digits`: writes each non-empty row with its
      identifier truncated, and stops with an IndexError at the first non-empty
      row that has no column 14, leaving the rows written so far. */
  method TruncateToFourDigits(rows: Table) returns (outcome: TruncateOutcome)
    ensures outcome.Done? <==> Indexable(rows)
    ensures outcome.Done? ==> outcome.written == Emitted(rows)
    ensures outcome.IndexError? ==>
      var k := outcome.row;
      k < |rows| && rows[k] != [] && !HasBatId(rows[k]) &&
      Indexable(rows[..k]) && outcome.written == Emitted(rows[..k])
  {
    var written: Table := [];
    var i := 0;
    while i < |rows|
      invariant 0 <= i <= |rows|
      invariant Indexable(rows[..i])
      invariant written == Emitted(rows[..i])
    {
      var row := rows[i];
      assert rows[..i + 1][..i] == rows[..i];
      if row != [] {
        if |row| <= BatIdColumn {
          return IndexError(written, i);
        }
        var truncatedNumber := Prefix(row[BatIdColumn]);
        row := row[BatIdColumn := truncatedNumber];
        written := written + [row];
      }
      i := i + 1;
    }
    assert rows[..i] == rows;
    return Done(written);
  }
}
