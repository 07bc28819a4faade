/// `generate_summary`: count the data rows of a table by their identifier
/// column and render one sentence per identifier, in order of first appearance.
module Summary {
  import opened CsvTable
  import opened Decimal
  import Truncation

  datatype Option<T> = None | Some(value: T)

  /** Outcome of a routine that may raise: a value, or the exception it raised. */
  datatype Result<T, E> = Ok(value: T) | Err(error: E)

  /** The exceptions `generate_summary` lets escape. */
  datatype SummaryError =
    | NoHeader            // `next(reader)` on a file without rows: StopIteration
    | MissingBatIdHeader  // `header.index(...)` without a match: ValueError
    | ShortRow(row: nat)  // `row[14]` on table row `row`, which has at most 14 fields: IndexError

  predicate Distinct(s: seq<string>) {
    forall a, b :: 0 <= a < b < |s| ==> s[a] != s[b]
  }

  /** The identifier field of each data row. */
  function BatIds(data: Table): (ids: seq<string>)
    requires AllHaveBatId(data)
    ensures |ids| == |data|
    ensures forall j :: 0 <= j < |data| ==> ids[j] == data[j][BatIdColumn]
  {
    seq(|data|, j requires 0 <= j < |data| => data[j][BatIdColumn])
  }

  /** The distinct identifiers in order of first appearance: the key order of the
      insertion-ordered dictionary. */
  function FirstSeen(ids: seq<string>): (keys: seq<string>)
    ensures forall k :: k in keys <==> k in ids
    ensures Distinct(keys)
  {
    if ids == [] then []
    else
      var init := FirstSeen(ids[..|ids| - 1]);
      var id := ids[|ids| - 1];
      assert ids == ids[..|ids| - 1] + [id];
      if id in init then init else init + [id]
  }

  /** There are no more distinct identifiers than rows. */
  lemma {:induction false} FirstSeenLength(ids: seq<string>)
    ensures |FirstSeen(ids)| <= |ids|
  {
    if ids != [] {
      FirstSeenLength(ids[..|ids| - 1]);
    }
  }

  /** The position at which `id` first occurs in `ids`. */
  function FirstIndex(ids: seq<string>, id: string): (i: nat)
    requires id in ids
    ensures i < |ids| && ids[i] == id
    ensures forall j :: 0 <= j < i ==> ids[j] != id
  {
    var init := ids[..|ids| - 1];
    if id in init then FirstIndex(init, id) else |ids| - 1
  }

  /** Keys are ordered by where each identifier first occurs. */
  lemma {:induction false} FirstSeenOrder(ids: seq<string>)
    ensures forall a, b :: 0 <= a < b < |FirstSeen(ids)| ==>
      FirstIndex(ids, FirstSeen(ids)[a]) < FirstIndex(ids, FirstSeen(ids)[b])
  {
    if ids != [] {
      var init := ids[..|ids| - 1];
      FirstSeenOrder(init);
      var keys, initKeys := FirstSeen(ids), FirstSeen(init);
      forall a, b | 0 <= a < b < |keys|
        ensures FirstIndex(ids, keys[a]) < FirstIndex(ids, keys[b])
      {
        assert keys[a] == initKeys[a] && keys[a] in init;
        if b < |initKeys| {
          assert keys[b] == initKeys[b] && keys[b] in init;
        } else {
          assert keys[b] !in init;
        }
      }
    }
  }

  /** Sum of the multiplicities in `m` of the identifiers `keys`. */
  function Sum(keys: seq<string>, m: multiset<string>): nat {
    if keys == [] then 0 else Sum(keys[..|keys| - 1], m) + m[keys[|keys| - 1]]
  }

  /** Adding one occurrence of `x` raises the sum by one exactly when `x` is a key. */
  lemma {:induction false} SumAddOne(keys: seq<string>, m: multiset<string>, x: string)
    requires Distinct(keys)
    ensures Sum(keys, m + multiset{x}) == Sum(keys, m) + if x in keys then 1 else 0
  {
    if keys != [] {
      var init := keys[..|keys| - 1];
      assert Distinct(init);
      SumAddOne(init, m, x);
      assert keys == init + [keys[|keys| - 1]];
    }
  }

  /** Every data row is counted once: the counts of the keys add up to the number of rows. */
  lemma {:induction false} CountsSumToRows(ids: seq<string>)
    ensures Sum(FirstSeen(ids), multiset(ids)) == |ids|
  {
    if ids != [] {
      var init := ids[..|ids| - 1];
      var x := ids[|ids| - 1];
      var keys := FirstSeen(init);
      CountsSumToRows(init);
      assert ids == init + [x];
      SumAddOne(keys, multiset(init), x);
      if x !in keys {
        var newKeys := keys + [x];
        assert newKeys[..|newKeys| - 1] == keys;
        assert multiset(init)[x] == 0;
      }
    }
  }

  const LineStart: string := "There are "
  const LineMiddle: string := " data points for bat_id "

  /** `f"There are {count} data points for bat_id {bat_id}."` */
  function SummaryLine(id: string, count: nat): (line: string)
    ensures |line| > |LineStart| + |LineMiddle| + |id| + 1
    ensures line[..|LineStart|] == LineStart
    ensures line[|line| - |LineMiddle| - |id| - 1..] == LineMiddle + id + "."
    ensures var numeral := line[|LineStart|..|line| - |LineMiddle| - |id| - 1];
      |numeral| >= 1 && AllDigits(numeral) && DecimalValue(numeral) == count &&
      (numeral[0] == '0' ==> |numeral| == 1)
  {
    var line := LineStart + DecimalString(count) + LineMiddle + id + ".";
    assert line[|LineStart|..|line| - |LineMiddle| - |id| - 1] == DecimalString(count);
    DecimalRoundTrip(count);
    line
  }

  /** The summary list: one sentence per distinct identifier, in order of first
      appearance, each carrying that identifier's number of occurrences. */
  function SummaryLines(ids: seq<string>): (lines: seq<string>)
    ensures |lines| == |FirstSeen(ids)|
    ensures forall i :: 0 <= i < |lines| ==>
      var k := FirstSeen(ids)[i];
      multiset(ids)[k] >= 1 && lines[i] == SummaryLine(k, multiset(ids)[k])
  {
    var keys := FirstSeen(ids);
    assert forall i :: 0 <= i < |keys| ==> keys[i] in ids;
    seq(|keys|, i requires 0 <= i < |keys| => SummaryLine(keys[i], multiset(ids)[keys[i]]))
  }

  /** Number of leading decimal digits of `s`. */
  function LeadingDigits(s: string): (n: nat)
    ensures n <= |s| && AllDigits(s[..n])
    ensures n < |s| ==> !IsDigit(s[n])
  {
    if s == [] || !IsDigit(s[0]) then 0
    else
      var n := 1 + LeadingDigits(s[1..]);
      assert s[..n] == [s[0]] + s[1..][..n - 1];
      n
  }

  /** Reads a summary sentence back into its identifier and count. */
  function ParseSummaryLine(line: string): Option<(string, nat)> {
    if |line| < |LineStart| || line[..|LineStart|] != LineStart then None
    else
      var rest := line[|LineStart|..];
      var n := LeadingDigits(rest);
      var tail := rest[n..];
      if n == 0 || |tail| < |LineMiddle| + 1 || tail[..|LineMiddle|] != LineMiddle
         || tail[|tail| - 1] != '.'
      then None
      else Some((tail[|LineMiddle|..|tail| - 1], DecimalValue(rest[..n])))
  }

  lemma {:induction false} LeadingDigitsOfNumeral(d: string, t: string)
    requires AllDigits(d)
    requires t != [] && !IsDigit(t[0])
    ensures LeadingDigits(d + t) == |d|
  {
    if d != [] {
      assert (d + t)[1..] == d[1..] + t;
      LeadingDigitsOfNumeral(d[1..], t);
    }
  }

  /** A summary sentence determines the identifier and the count it was made from. */
  lemma SummaryLineRoundTrip(id: string, count: nat)
    ensures ParseSummaryLine(SummaryLine(id, count)) == Some((id, count))
  {
    var digits := DecimalString(count);
    var line := SummaryLine(id, count);
    var after := LineMiddle + id + ".";
    assert line == LineStart + (digits + after);
    assert line[..|LineStart|] == LineStart;
    var rest := line[|LineStart|..];
    assert rest == digits + after;
    LeadingDigitsOfNumeral(digits, after);
    assert rest[..|digits|] == digits;
    var tail := rest[|digits|..];
    assert tail == after;
    assert tail[..|LineMiddle|] == LineMiddle;
    assert tail[|LineMiddle|..|tail| - 1] == id;
    DecimalRoundTrip(count);
  }

  /** Position of the first row without column 14, or `|data|` when there is none. */
  function FirstShort(data: Table): (k: nat)
    ensures k <= |data| && AllHaveBatId(data[..k])
    ensures k < |data| ==> !HasBatId(data[k])
  {
    if data == [] || !HasBatId(data[0]) then 0
    else
      var k := 1 + FirstShort(data[1..]);
      assert data[..k] == [data[0]] + data[1..][..k - 1];
      k
  }

  lemma FirstShortUnique(data: Table, k: nat)
    requires k <= |data| && AllHaveBatId(data[..k])
    requires k < |data| ==> !HasBatId(data[k])
    ensures FirstShort(data) == k
  {
    var f := FirstShort(data);
    assert forall j :: 0 <= j < k ==> data[..k][j] == data[j];
    assert forall j :: 0 <= j < f ==> data[..f][j] == data[j];
  }

  /** What `generate_summary` returns or raises for a whole table (header first). */
  function Summarize(table: Table): (r: Result<seq<string>, SummaryError>)
    ensures r.Ok? ==> table != [] && BatIdHeader in table[0] && AllHaveBatId(table[1..])
    ensures r.Ok? ==> |r.value| <= |table| - 1
    ensures r.Err? && r.error.ShortRow? ==>
      1 <= r.error.row < |table| && !HasBatId(table[r.error.row])
  {
    if table == [] then Err(NoHeader)
    else if BatIdHeader !in table[0] then Err(MissingBatIdHeader)
    else
      var data := table[1..];
      var k := FirstShort(data);
      if k < |data| then Err(ShortRow(k + 1))
      else
        assert data[..k] == data;
        FirstSeenLength(BatIds(data));
        Ok(SummaryLines(BatIds(data)))
  }

  /** When the summary succeeds and when it raises which exception. */
  lemma SummarizeOutcome(table: Table)
    ensures Summarize(table) == Err(NoHeader) <==> table == []
    ensures Summarize(table) == Err(MissingBatIdHeader) <==>
      table != [] && BatIdHeader !in table[0]
    ensures Summarize(table).Ok? <==>
      table != [] && BatIdHeader in table[0] && AllHaveBatId(table[1..])
    ensures Summarize(table).Err? && Summarize(table).error.ShortRow? ==>
      var k := Summarize(table).error.row;
      table != [] && BatIdHeader in table[0] &&
      1 <= k < |table| && !HasBatId(table[k]) && AllHaveBatId(table[1..k])
  {
    if table != [] && BatIdHeader in table[0] {
      var data := table[1..];
      var k := FirstShort(data);
      if k < |data| {
        assert data[..k] == table[1..k + 1];
        assert data[k] == table[k + 1];
      } else {
        assert data[..k] == data;
      }
    }
  }

  /** Where the header names the identifier column does not matter: only its presence. */
  lemma SummarizeIgnoresHeaderLayout(header1: Row, header2: Row, data: Table)
    requires BatIdHeader in header1 && BatIdHeader in header2
    ensures Summarize([header1] + data) == Summarize([header2] + data)
  {
    assert ([header1] + data)[1..] == data;
    assert ([header2] + data)[1..] == data;
  }

  /** One more identifier extends the key order only when it is new. */
  lemma FirstSeenSnoc(ids: seq<string>, x: string)
    ensures FirstSeen(ids + [x]) == if x in FirstSeen(ids) then FirstSeen(ids) else FirstSeen(ids) + [x]
  {
    assert (ids + [x])[..|ids|] == ids;
  }

  lemma BatIdsSnoc(table: Table, i: nat)
    requires 1 <= i < |table| && AllHaveBatId(table[1..i]) && HasBatId(table[i])
    ensures AllHaveBatId(table[1..i + 1])
    ensures BatIds(table[1..i + 1]) == BatIds(table[1..i]) + [table[i][BatIdColumn]]
  {
    assert table[1..i + 1] == table[1..i] + [table[i]];
  }

  lemma SummarizeAtShortRow(table: Table, i: nat)
    requires table != [] && BatIdHeader in table[0]
    requires 1 <= i < |table| && AllHaveBatId(table[1..i]) && !HasBatId(table[i])
    ensures Summarize(table) == Err(ShortRow(i))
  {
    assert table[1..][..i - 1] == table[1..i];
    FirstShortUnique(table[1..], i - 1);
  }

  lemma SummarizeComplete(table: Table)
    requires table != [] && BatIdHeader in table[0] && AllHaveBatId(table[1..])
    ensures Summarize(table) == Ok(SummaryLines(BatIds(table[1..])))
  {
    assert table[1..][..|table| - 1] == table[1..];
    FirstShortUnique(table[1..], |table| - 1);
  }

  /** The dictionary `counts`, with insertion order `order`, holds the counts of `seen`. */
  ghost predicate CountsAgree(counts: map<string, nat>, order: seq<string>, seen: seq<string>) {
    && order == FirstSeen(seen)
    && (forall id :: id in counts <==> id in order)
    && (forall id :: id in counts ==> counts[id] == multiset(seen)[id])
  }

  /** Counting one more identifier keeps the dictionary in step with the rows seen. */
  lemma CountStep(counts: map<string, nat>, order: seq<string>, seen: seq<string>, x: string)
    requires CountsAgree(counts, order, seen)
    ensures x in counts ==> CountsAgree(counts[x := counts[x] + 1], order, seen + [x])
    ensures x !in counts ==> CountsAgree(counts[x := 1], order + [x], seen + [x])
  {
    FirstSeenSnoc(seen, x);
    var more := multiset(seen + [x]);
    assert more == multiset(seen) + multiset{x};
    if x in counts {
      var counts' := counts[x := counts[x] + 1];
      assert x in FirstSeen(seen);
      assert forall id :: id in counts' ==> counts'[id] == more[id];
    } else {
      var counts' := counts[x := 1];
      assert x !in seen;
      assert forall id :: id in counts' ==> counts'[id] == more[id];
    }
  }

  /** The counting loop of `generate_summary` over the rows after the header (table
      rows 1 onwards): a dictionary from identifier to count, with its insertion
      order, or the table index of the first row that has no column 14. */
  method CountBatIds(table: Table) returns (counts: map<string, nat>, order: seq<string>, short: Option<nat>)
    requires table != []
    ensures short.None? ==> AllHaveBatId(table[1..])
    ensures short.None? ==> order == FirstSeen(BatIds(table[1..]))
    ensures short.None? ==> forall id :: id in counts <==> id in order
    ensures short.None? ==> forall id :: id in counts ==> counts[id] == multiset(BatIds(table[1..]))[id]
    ensures short.Some? ==>
      var k := short.value;
      1 <= k < |table| && AllHaveBatId(table[1..k]) && !HasBatId(table[k])
  {
    counts, order, short := map[], [], None;
    ghost var seen: seq<string> := [];
    var i := 1;
    while i < |table|
      invariant 1 <= i <= |table|
      invariant AllHaveBatId(table[1..i]) && seen == BatIds(table[1..i])
      invariant CountsAgree(counts, order, seen)
    {
      var row := table[i];
      if |row| <= BatIdColumn {
        return counts, order, Some(i);
      }
      var batId := row[BatIdColumn];
      BatIdsSnoc(table, i);
      CountStep(counts, order, seen, batId);
      if batId in counts {
        counts := counts[batId := counts[batId] + 1];
      } else {
        counts := counts[batId := 1];
        order := order + [batId];
      }
      seen := seen + [batId];
      i := i + 1;
    }
    assert table[1..] == table[1..i];
  }

  /** `generate_summary`: the header check, the counting loop, and one sentence per
      dictionary entry in insertion order. */
  method GenerateSummary(table: Table) returns (r: Result<seq<string>, SummaryError>)
    ensures r == Summarize(table)
  {
    if table == [] {
      return Err(NoHeader);
    }
    var header := table[0];
    if BatIdHeader !in header {
      return Err(MissingBatIdHeader);
    }
    var counts, order, short := CountBatIds(table);
    if short.Some? {
      SummarizeAtShortRow(table, short.value);
      return Err(ShortRow(short.value));
    }
    SummarizeComplete(table);
    var summaries := seq(|order|, j requires 0 <= j < |order| && order[j] in counts =>
      SummaryLine(order[j], counts[order[j]]));
    assert summaries == SummaryLines(BatIds(table[1..]));
    return Ok(summaries);
  }

  /** The two routines in sequence: once truncation has succeeded and its output still
      names the identifier column in its first row, the summary succeeds and counts
      identifiers of at most four characters. */
  lemma TruncatedTableSummary(rows: Table)
    requires Truncation.Indexable(rows)
    requires Truncation.Emitted(rows) != [] && BatIdHeader in Truncation.Emitted(rows)[0]
    ensures Summarize(Truncation.Emitted(rows)).Ok?
    ensures forall k :: k in FirstSeen(BatIds(Truncation.Emitted(rows)[1..])) ==>
      |k| <= PrefixLength
  {
    var out := Truncation.Emitted(rows);
    SummarizeOutcome(out);
    var ids := BatIds(out[1..]);
    forall k | k in FirstSeen(ids) ensures |k| <= PrefixLength {
      var j :| 0 <= j < |ids| && ids[j] == k;
      assert ids[j] == out[j + 1][BatIdColumn];
    }
  }
}
