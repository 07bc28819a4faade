/// Rows of an already-parsed CSV file, and the column conventions that the
/// bat-tracking assignment script relies on.
module CsvTable {
  /** One record as the csv reader yields it: a list of fields. */
  type Row = seq<string>
  type Table = seq<Row>

  /** The fixed, position-indexed column holding the bat identifier. */
  const BatIdColumn: nat := 14
  /** How many leading characters of the identifier are kept. */
  const PrefixLength: nat := 4
  /** The header name whose presence the summary insists on. */
  const BatIdHeader: string := "individual-taxon-canonical-name"

  /** Whether indexing `row[14]` succeeds. */
  predicate HasBatId(row: Row) {
    |row| > BatIdColumn
  }

  /** Every row of `rows` can be indexed at the identifier column. */
  predicate AllHaveBatId(rows: Table) {
    forall i :: 0 <= i < |rows| ==> HasBatId(rows[i])
  }

  /** Python's slice `s[:4]`: the first four characters, or all of a shorter string. */
  function Prefix(s: string): (r: string)
    ensures |r| <= PrefixLength
    ensures |r| == if |s| < PrefixLength then |s| else PrefixLength
    ensures r <= s
  {
    if |s| <= PrefixLength then s else s[..PrefixLength]
  }
}
