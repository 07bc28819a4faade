# Bat telemetry table: identifier truncation and per-bat summary

This project models the two table transformations of the bat-tracking
assignment script `c121-assignment-1/main.py`. Both work on the rows of a CSV
file of GPS fixes of European free-tailed bats. The model starts from the rows
the csv reader has already split into fields, so a table is `seq<seq<string>>`.

- **Identifier truncation** (`truncate_to_four_digits`). The routine walks the
  rows in order and skips empty ones. In every other row it replaces field 14,
  the bat identifier, with its first four characters, then writes the row.
  The header row gets no special treatment. A non-empty row with 14 or fewer
  fields raises `IndexError`. The rows written before that stay in the output
  file. Modules: `CsvTable` (rows, the column constants, `Prefix` for `s[:4]`)
  and `Truncation`.
- **Per-bat summary** (`generate_summary`). The routine takes the first row as
  the header. It raises if there is no row, or if the header lacks
  `individual-taxon-canonical-name`. It then counts the remaining rows by field
  14 in an insertion-ordered dictionary. Any of those rows without a field 14
  (an empty row included) raises `IndexError`. The result is one sentence per
  identifier, in order of first appearance:
  `There are <count> data points for bat_id <id>.`. The header index that
  `header.index` finds is never used: counting always reads field 14. Modules:
  `Summary`, and `Decimal` for the rendering of the count.

Raised exceptions become data: `Truncation.TruncateOutcome` records the rows
written and the index of the offending row. `Summary.SummaryError` names
StopIteration (`NoHeader`), ValueError (`MissingBatIdHeader`) and IndexError
(`ShortRow`). The dictionary is a `map<string, nat>` plus a `seq<string>` of its
keys in insertion order. Counts are specified as multiplicities in the multiset
of identifiers.

## Model

| member | source | states |
|---|---|---|
| `CsvTable.Prefix` | c121-assignment-1/main.py:36 | `s[:4]` is a prefix of `s` of length min(4, len(s)), so at most four characters |
| `Truncation.TruncateRow` | c121-assignment-1/main.py:36-37 | the rewritten row has the same length, equals the input at every index except 14, and holds at 14 the prefix of the original field of length min(4, len(field)) |
| `Truncation.TruncateRowIdempotent` | c121-assignment-1/main.py:36-37 | rewriting an already rewritten row changes nothing |
| `Truncation.Emitted` | c121-assignment-1/main.py:33-38 | every written row has a field 14, and that field has at most four characters |
| `Truncation.Origin` | c121-assignment-1/main.py:33-35 | the positions of the non-empty input rows: strictly increasing, each non-empty, and every non-empty row is listed |
| `Truncation.EmittedFollowsOrigin` | c121-assignment-1/main.py:33-38 | exactly one output row per non-empty input row, in input order: output row j is the rewrite of the j-th non-empty input row, and empty rows produce nothing |
| `Truncation.HeaderIsTruncated` | c121-assignment-1/main.py:33-38 | a non-empty first (header) row is written first and is truncated like any other row |
| `Truncation.EmittedIdempotent` | c121-assignment-1/main.py:33-38 | the output can be truncated again without error, and doing so returns it unchanged |
| `Truncation.TruncateToFourDigits` | c121-assignment-1/main.py:29-38 | succeeds exactly when every non-empty row has a field 14, and then writes `Emitted(rows)`; otherwise it stops at the first non-empty short row k and has written exactly `Emitted(rows[..k])` |
| `Decimal.DecimalString` | c121-assignment-1/main.py:53 | `str(count)` is a non-empty string of decimal digits without a leading zero, except for "0" itself |
| `Decimal.DecimalRoundTrip` | c121-assignment-1/main.py:53 | reading the rendered count back as a decimal number gives the count |
| `Summary.FirstSeen` | c121-assignment-1/main.py:46-52 | the dictionary keys contain exactly the identifiers of the data rows, each once |
| `Summary.FirstSeenLength` | c121-assignment-1/main.py:46-52 | the dictionary never has more keys than there are data rows |
| `Summary.FirstIndex` | c121-assignment-1/main.py:49-52 | the row where an identifier first occurs: it has that identifier and no earlier row does |
| `Summary.FirstSeenOrder` | c121-assignment-1/main.py:46-53 | keys are ordered by first appearance: an earlier key first occurs at an earlier data row |
| `Summary.CountsSumToRows` | c121-assignment-1/main.py:46-52 | the counts of all keys add up to the number of data rows |
| `Summary.SummaryLine` | c121-assignment-1/main.py:53 | the sentence starts with `There are `, ends with ` data points for bat_id ` followed by the identifier and `.`, and the text between is a non-empty string of digits, without a leading zero unless it is "0", whose decimal value is the count: the canonical `str(count)` |
| `Summary.SummaryLines` | c121-assignment-1/main.py:53 | one sentence per distinct identifier, in key order; each sentence carries the identifier's number of occurrences, which is at least one |
| `Summary.SummaryLineRoundTrip` | c121-assignment-1/main.py:53 | a sentence `There are <count> data points for bat_id <id>.` can be parsed back into exactly that id and count |
| `Summary.Summarize` | c121-assignment-1/main.py:41-54 | a successful summary has a header naming the identifier column, a field 14 in every data row, and at most one sentence per data row; an IndexError names a data row without a field 14 |
| `Summary.SummarizeOutcome` | c121-assignment-1/main.py:44-48 | StopIteration exactly for an empty table; ValueError exactly when the header lacks `individual-taxon-canonical-name`; success exactly when every data row has a field 14; otherwise IndexError at the first data row without one |
| `Summary.SummarizeIgnoresHeaderLayout` | c121-assignment-1/main.py:45-48 | where the header names the identifier column does not change the result, only whether it names it at all; counting always uses field 14 |
| `Summary.CountStep` | c121-assignment-1/main.py:49-52 | incrementing an existing key, or inserting a new key with count 1 at the end of the key order, keeps the dictionary equal to the counts of the rows seen |
| `Summary.CountBatIds` | c121-assignment-1/main.py:46-52 | the loop either reports the first data row without a field 14, or returns a dictionary whose keys, in insertion order, are the distinct identifiers by first appearance, each mapped to its number of occurrences |
| `Summary.GenerateSummary` | c121-assignment-1/main.py:41-54 | returns or raises exactly what `Summarize` specifies for the table |
| `Summary.TruncatedTableSummary` | c121-assignment-1/main.py:33-53 | after a successful truncation whose first output row still names the identifier column, the summary succeeds and every identifier it reports has at most four characters |

## Left out

- `check_csv_file_path` (main.py:4-15) is a file-existence check with a print: pure filesystem I/O.
- `main` (main.py:57-95) is file paths, opening and closing files, and printing rows.
- The `csv` module's reader and writer (quoting, delimiters, newlines) are library code. The model takes the rows already split and returns the rows to write.
- The output file is modelled as the sequence of rows written, not as a stream. On an IndexError the model returns the rows written before it, which the `with` block leaves in the file.
- The in-place assignment `row[14] = ...` on the list the reader just produced becomes a value update of the row. The reader creates a fresh list per row, so no other reference can observe the change.
- `generate_summary` is modelled as two methods: `GenerateSummary` for the header checks and the sentences, and `CountBatIds` for the counting loop. The split keeps each proof small; the behaviour is that of the one Python function.
- `Summary.TruncatedTableSummary` feeds the rows truncation writes straight into the summary. It assumes the csv reader reads `output.csv` back as exactly the rows the csv writer wrote (main.py:82-93). The model does not capture that round trip, because the csv module is not modelled.
- The index returned by `header.index(...)` is not computed. Only the membership test that decides the ValueError is modelled, because the index is never used.
