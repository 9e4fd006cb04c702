# Apple Card statement parser, modelled in Dafny

This project models the parsing core of `AppleStatementParser`
(`applecardstatement.py`). That core takes the text tables a PDF extractor
pulls out of an Apple Card statement and turns their transaction rows into
nine-column ledger rows. It has four layers, one module each, plus a class
that holds the state:

- `Fields` holds the three cell recognisers. `ParsePercent` is
  `_parse_percent` with `PERCENT_PAT`. `ParseAmount` is `_parse_amount`
  with `AMOUNT_PAT`. `IsDate` is `DATE_PAT`. A `ParseException` becomes an
  `Err` carrying a `ParseError`, which holds the offending cell text.
  - Percentages are whole hundredths.
  - Amounts are exact decimals: the signed digits, and how many digits
    follow the point.
  - `Value` gives the real number a decimal stands for.
- `Rows` holds `TransformRow`, which is `_parse_row` as a value: one input
  row becomes one ledger row, or the first field error.
- `Scanner` holds `ScanTransactions`, which is `_parse_transaction_table` as
  a value.
  - It walks the table from a start row and skips rows whose first cell is
    not a date.
  - When a dated row is directly followed by a "Daily Cash Adjustment" row,
    the scanner gives that row the parent's date in the table itself and
    emits its ledger row as well.
  - It returns the table as left, the ledger rows emitted, and either the
    transaction count with the end index, or the error.
  - `KindAt`, `Selected` and `TransformAll` describe independently which
    rows a scan picks; `ScanSpec` proves the scanner agrees with them.
- `Tables` holds `_parse_table` and the loop of `parse`, as values.
  - `FindHeader` finds the first "Transactions" row followed by the exact
    column header.
  - `ScanTable` scans a table from two rows below that header.
  - `ScanDocument` folds the table scans of a statement in order, stopping
    at the first failure.
- `StatementParser` holds the class `AppleStatementParser`. Its field
  `statement` is the list `_parse_row` appends to. The methods `ParseRow`,
  `ParseTransactionTable`, `ParseTable` and `Parse` follow the source's
  loops. Each one is proved to leave exactly the state the matching function
  describes.
  - A table is an `array` of rows, so dating an adjustment row changes the
    table in place, as `adj_row[0] = row[0]` does.
  - The body of `_parse_transaction_table`'s loop is the method
    `ParseEntry`.
  - The class has two ghost constants. `transform` is `_parse_row` with the
    parser's negate flag. `tableScanner` is `_parse_table` with that
    transform. The constructor fixes them to `Transformer(negateAmount)`
    and `TableScannerOf(transform)`. `Valid()` ties them to `TransformRow`
    and `ScanTable` for every row and table the methods are given.
- `Scenarios` holds worked examples on concrete cells, rows and tables,
  each scan stated for any transform that accepts its rows and then for the
  statement parser's own.

The scanner and the table layer are stated for any transform (and any table
scanner) that is defined on every wide enough row (and every rectangular
table). The parser's own are `Transformer` and `TableScannerOf`.

The model follows the code where it differs from a plain reading of the
patterns:

- `PERCENT_PAT` and `AMOUNT_PAT` are applied with `re.match`. That anchors
  at the start only, so any cell with a valid prefix is accepted and the
  rest of the cell is ignored (`"3% bonus"` is 3%, `"$1.5 USD"` is 1.5).
- `DATE_PAT`'s `$` also matches just before one final newline, so
  `"09/01/2019\n"` counts as a date.
- A percentage's digits are exactly the digits before the `%`.
- An amount's fraction is the whole run of digits after the point.

## Model

| member | source | states |
|---|---|---|
| `Fields.DigitSpan` | applecardstatement.py:48 | the greedy `\d+` of the patterns: the longest run of digits at the start of the text, with no digit right after it |
| `Fields.DigitsValue` | applecardstatement.py:72-74 | `int(v)` on the matched digits: the decimal number the digit string writes, below `10^len(v)` |
| `Fields.MatchPercent` | applecardstatement.py:48 | a match of `(-?)(\d+)\%` has a non-empty group of digits |
| `Fields.ParsePercent` | applecardstatement.py:66-79 | the empty cell is 0; every failure is `InvalidPercent` carrying the cell text |
| `Fields.PercentOfForm` | applecardstatement.py:66-79 | every cell starting with `-?digits%` parses to the signed value of the digits, in hundredths, whatever follows |
| `Fields.PercentForm` | applecardstatement.py:66-79 | every non-empty cell that parses has the form `-?digits%rest` and its value is the signed digits; together with `PercentOfForm`, all other non-empty cells raise |
| `Fields.MatchAmount` | applecardstatement.py:51 | a match of `(-?)\$(\d+\.\d+)` has non-empty digit groups on both sides of the point |
| `Fields.MatchValue` | applecardstatement.py:89-93 | `float(m.group(2))` with the sign of `m.group(1)`, kept exact: the digits of both groups over `10^len(frac)`, its scale the fraction's length, never positive after a minus sign and never negative without one |
| `Fields.ParseAmount` | applecardstatement.py:82-96 | the empty cell is 0; every failure is `InvalidAmount` carrying the cell text |
| `Fields.AmountOfForm` | applecardstatement.py:82-96 | every cell starting with `-?$whole.frac`, where no digit follows `frac`, parses to that signed decimal, negated once more under `negate`, whatever follows |
| `Fields.AmountForm` | applecardstatement.py:82-96 | every non-empty cell that parses has the form `-?$whole.frac rest`, with `rest` not starting with a digit, and its value is that decimal |
| `Fields.MatchAmountSplit` | applecardstatement.py:85 | a cell that matches the amount pattern is the matched text followed by text that does not start with a digit |
| `Fields.AmountNegate` | applecardstatement.py:94-95 | with `negate` the result is the negation of the result without it; errors are identical |
| `Fields.AmountValue` | applecardstatement.py:89-93 | the exact decimal of a match stands for the number `±(whole + frac / 10^len(frac))`, which `float(m.group(2))` approximates |
| `Fields.NegateValue` | applecardstatement.py:92-95 | negating a decimal negates the number it stands for |
| `Fields.IsDate` | applecardstatement.py:54 | `DATE_PAT.match`: the first ten characters are `dd/dd/dddd` of digits, and at most one final newline follows; `DateOfForm` and `DateForm` prove this is exactly the language of the pattern |
| `Fields.DateOfForm` | applecardstatement.py:54 | every `dd/dd/dddd` of digits is a date, with or without one final newline |
| `Fields.DateForm` | applecardstatement.py:54 | every date is `dd/dd/dddd` of digits, followed by at most one newline and nothing else |
| `Rows.LedgerRow` | applecardstatement.py:103-112 | the row is built exactly when all three fields parse, and the first failing field in percent, bonus, amount order is the error; it has nine cells, the date and description copied, the parsed values in columns 5-7, and the placeholders empty |
| `Rows.TransformRow` | applecardstatement.py:100-112 | the same, stated in terms of the input row's cells 2, 3 and 4, with the parser's negate flag applied to the amount only |
| `Rows.TransformShape` | applecardstatement.py:36 | every transformed row has the ledger's nine-column shape, text where the header has text columns |
| `Rows.TransformNegate` | applecardstatement.py:111 | the negate flag changes only the amount column, to its negation; whether a row parses, and its error, do not depend on it |
| `Scanner.Dated` | applecardstatement.py:140 | the adjustment row with its date cell replaced by the parent's date and every other cell kept |
| `Scanner.IsAdjustment` | applecardstatement.py:135 | a row is a daily cash adjustment exactly when its description cell is `"Daily Cash Adjustment"`; `KindAt` and `ScanPair` use it for the row after a dated one |
| `Scanner.Transformer` | applecardstatement.py:100-112 | `_parse_row` with a negate flag as a transform, defined on every row of at least five cells |
| `Scanner.ScanTransactions` | applecardstatement.py:117-145 | the table keeps its length; a successful scan ends at `max(start, len(rows))`, and counts no more transactions than it emits and at least half as many |
| `Scanner.ScanFrame` | applecardstatement.py:128-145 | the scan changes no row before its start and leaves every row from the start on wide enough |
| `Scanner.ScanSkips` | applecardstatement.py:142-144 | a row whose first cell is not a date is skipped |
| `Scanner.ScanStops` | applecardstatement.py:132-133 | a dated row that fails to parse ends the scan with its error and nothing more emitted |
| `Scanner.ScanSingle` | applecardstatement.py:132-135 | a dated row without an adjustment after it adds its ledger row and one to the count, and the scan goes on at the next row |
| `Scanner.ScanPair` | applecardstatement.py:135-141 | a dated row followed by an adjustment row: the adjustment takes the parent's date, both ledger rows are added, the pair counts once, and the scan goes on two rows later |
| `Scanner.ScanPairStops` | applecardstatement.py:139-141 | when the dated adjustment row fails, the scan ends with its error, the parent's ledger row kept and the adjustment's date already changed |
| `Scanner.KindAt` | applecardstatement.py:132-141 | independent reference for the part each row plays: an adjustment only right after a transaction, otherwise a transaction exactly when dated, otherwise skipped |
| `Scanner.Selected` | applecardstatement.py:132-141 | the rows the scan transforms, in order: every transaction row, and every adjustment row dated with its parent's date |
| `Scanner.TransformAll` | applecardstatement.py:133 | transforming the selected rows in order, stopping at the first failure, yields no more ledger rows than rows |
| `Scanner.TransformAllSpec` | applecardstatement.py:133 | each ledger row of the run is the transform of the row at its position; a failure is the first failing row |
| `Scanner.ScanSpec` | applecardstatement.py:128-145 | the scanner emits the transforms of the selected rows up to the first failure, fails exactly when one of them fails, and on success counts the transaction rows and dates every adjustment row |
| `Scanner.ScanCounts` | applecardstatement.py:128-145 | on success the count is the number of transaction rows, the statement grows by that count plus the number of adjustment rows, and every adjustment row of the table has its parent's date |
| `Scanner.ScanEmitsDated` | applecardstatement.py:132-141 | every ledger row the parser's scan emits, also before a failure, has a date in its date cell |
| `Tables.FindHeader` | applecardstatement.py:170-175 | the result is -1 exactly when no row is a "Transactions" row followed by the exact header, with a data row still below it; otherwise it is the first such row |
| `Tables.IsHeaderAt` | applecardstatement.py:171-173 | row `r` is searched (`r < len - 2`), its first cell is `"Transactions"`, and the next row is exactly the five-cell column header; `FindHeader` returns the first such row |
| `Tables.FirstHeader` | applecardstatement.py:171-175 | the row the search loop breaks at is `FindHeader`'s |
| `Tables.NoHeader` | applecardstatement.py:171-175 | a search loop that runs to the end without a match means there is no header |
| `Tables.HeaderWidth` | applecardstatement.py:173 | in a rectangular table every row below the five-cell header is as wide as the transformer needs |
| `Tables.ScanTable` | applecardstatement.py:149-186 | the table keeps its length |
| `Tables.TableWithoutHeader` | applecardstatement.py:160-186 | a table without a transaction block, including any table of fewer than three rows, emits nothing, changes nothing and counts 0 |
| `Tables.TableScanShape` | applecardstatement.py:181-185 | with the first header at row `h`, the table scan is the scanner's from `h + 2`, and a successful scan ends at the table's last row |
| `Tables.TableKeepsHeader` | applecardstatement.py:183 | the header rows and everything above them are left as they are |
| `Tables.TableEmitsDated` | applecardstatement.py:149-186 | every ledger row a table emits has a date in its date cell |
| `Tables.TableScannerOf` | applecardstatement.py:149-186 | `_parse_table` with a transform, as a table scanner defined on every rectangular table |
| `Tables.TableScans` | applecardstatement.py:200-201 | one scan per table, in order |
| `Tables.Fold` | applecardstatement.py:200-203 | `parse`'s loop: each table's ledger rows appended in order and the counts summed, the first failure ending it with the rows emitted so far; `FoldOk`, `FoldFails`, `FoldStep` and `FoldStops` state its meaning |
| `Tables.FoldOk` | applecardstatement.py:200-203 | the fold succeeds exactly when every table scan does, and then holds every scan's rows in order and the sum of their counts |
| `Tables.FoldFails` | applecardstatement.py:200-203 | when scan `n` is the first that fails, the fold fails with its error, holding the rows of the scans before it and what scan `n` emitted |
| `Tables.FoldStep` | applecardstatement.py:200-203 | one more table scan extends the statement and the count, unless the statement has already failed |
| `Tables.FoldStops` | applecardstatement.py:200-203 | once a scan has failed, later tables change nothing |
| `Tables.FoldDated` | applecardstatement.py:200-203 | the fold emits only rows some scan emitted, so dated rows stay dated |
| `Tables.ScanDocument` | applecardstatement.py:190-203 | `parse` as a value: the table scans of the statement, folded; `DocumentOk` and `DocumentFails` state its result, `Parse` is proved to end in it |
| `Tables.DocumentOk` | applecardstatement.py:190-203 | a statement succeeds exactly when every table does, and then holds every table's ledger rows in order and the total count |
| `Tables.DocumentFails` | applecardstatement.py:190-203 | a statement whose table `n` is the first to fail fails with that table's error, keeping what was emitted before |
| `Tables.DocumentStep` | applecardstatement.py:200-203 | one turn of `parse`'s loop: a table that succeeds adds its rows and its count; one that fails ends the statement |
| `Tables.DocumentEmitsDated` | applecardstatement.py:190-203 | every ledger row of the statement has a date in its date cell |
| `StatementParser.AppleStatementParser.constructor` | applecardstatement.py:58-62 | an empty statement and the negate flag kept; the transform and the table scanner are those of the flag |
| `StatementParser.AppleStatementParser.ParseRow` | applecardstatement.py:100-113 | on success appends exactly the transformed row; on a field error returns it and leaves the statement unchanged |
| `StatementParser.AppleStatementParser.ParseEntry` | applecardstatement.py:131-144 | one turn of the scanner's loop: the rows it appends and the row where the loop goes on, such that the rest of the scan completes the scan from `i`; on an error, the scan from `i` ends with it |
| `StatementParser.AppleStatementParser.ParseTransactionTable` | applecardstatement.py:117-145 | the statement gains exactly the scan's ledger rows, the table becomes the scan's table, and the result is the scan's count and end index, or its error |
| `StatementParser.AppleStatementParser.ParseTable` | applecardstatement.py:149-186 | the statement gains exactly the table scan's rows, the table becomes the one the scan leaves, and the result is its count or its error |
| `StatementParser.AppleStatementParser.ParseTableRows` | applecardstatement.py:200-201 | `ParseTable` on a fresh array holding a table's rows |
| `StatementParser.AppleStatementParser.Parse` | applecardstatement.py:190-204 | the statement is reset and ends up as the statement fold's rows; the result is the total count or the first error |
| `Scenarios.PercentEmpty` | applecardstatement.py:67-68 | `""` is 0 |
| `Scenarios.PercentPlain` | applecardstatement.py:66-79 | `"2%"` is 2 hundredths |
| `Scenarios.PercentMinus` | applecardstatement.py:77-78 | `"-15%"` is -15 hundredths |
| `Scenarios.AdjustmentPercent` | applecardstatement.py:77-78 | `"-2%"` is -2 hundredths |
| `Scenarios.PercentZero` | applecardstatement.py:66-79 | `"0%"` is 0 |
| `Scenarios.PercentPrefix` | applecardstatement.py:69 | `"3% bonus"` is 3 hundredths: the match is a prefix match |
| `Scenarios.PercentWithoutSign` | applecardstatement.py:70-71 | `"15"` raises |
| `Scenarios.PercentLeadingSpace` | applecardstatement.py:70-71 | `" 2%"` raises |
| `Scenarios.AmountEmpty` | applecardstatement.py:83-84 | `""` is 0 under either flag |
| `Scenarios.AmountPlain` | applecardstatement.py:82-96 | `"$0.10"` is 0.10 |
| `Scenarios.AdjustmentAmount` | applecardstatement.py:92-93 | `"-$0.10"` is -0.10 |
| `Scenarios.AmountPurchase` | applecardstatement.py:94-95 | `"$5.00"` is 5.00, and -5.00 with the negate flag |
| `Scenarios.AmountRefund` | applecardstatement.py:92-95 | `"-$5.00"` is -5.00, and 5.00 with the negate flag |
| `Scenarios.AmountCashBack` | applecardstatement.py:82-96 | `"$1.50"` is 1.50, negated under the flag |
| `Scenarios.AmountPrefix` | applecardstatement.py:85 | `"$1.5 USD"` is 1.5: the match is a prefix match |
| `Scenarios.AmountWithoutDollar` | applecardstatement.py:86-87 | `"12.34"` raises |
| `Scenarios.AmountWithoutPoint` | applecardstatement.py:86-87 | `"$12"` raises |
| `Scenarios.DateWithNewline` | applecardstatement.py:54 | `"09/01/2019\n"` is a date |
| `Scenarios.DateShortFields` | applecardstatement.py:54 | `"9/1/2019"` is not a date |
| `Scenarios.DateShortYear` | applecardstatement.py:54 | `"09/01/19"` is not a date |
| `Scenarios.RowDates` | applecardstatement.py:132 | the example's purchase and refund rows are dated and its total row is not |
| `Scenarios.PurchaseRow` | applecardstatement.py:100-112 | the example purchase row parses |
| `Scenarios.RefundRow` | applecardstatement.py:100-112 | the example refund row, with empty bonus cells, parses |
| `Scenarios.AdjustmentRow` | applecardstatement.py:139-141 | the adjustment row, dated like the refund, parses to -2% and -0.10 on the refund's date |
| `Scenarios.RefundScan` | applecardstatement.py:128-145 | purchase, refund, adjustment, total: two transactions, three ledger rows in table order, the adjustment dated in the table, the total row skipped, end index 4 |
| `Scenarios.StoreARow` | applecardstatement.py:100-112 | the example transaction parses |
| `Scenarios.CashBackRow` | applecardstatement.py:139-141 | its adjustment row parses to 0% and 1.50 on the transaction's date |
| `Scenarios.CashBackScan` | applecardstatement.py:128-145 | a transaction and its adjustment: two ledger rows, one transaction, end index 2, the adjustment dated in the table |
| `Scenarios.ParserCashBackScan` | applecardstatement.py:128-145 | with the statement parser's own transform, under either flag: one transaction, two ledger rows in order, the second the transform of the adjustment dated like the transaction |
| `Scenarios.ParserRefundScan` | applecardstatement.py:128-145 | with the statement parser's own transform, under either flag: two transactions, three ledger rows, the last the transform of the adjustment dated like the refund |
| `Scenarios.ShortTable` | applecardstatement.py:161-163 | a two-row table emits nothing and counts 0 |
| `Scenarios.BlockHeader` | applecardstatement.py:171-175 | a table that opens with the "Transactions" row and the column header has its header at row 0 |
| `Scenarios.BlockScan` | applecardstatement.py:128-145 | the rows below that header, a transaction with its adjustment and two more transactions: three transactions, four ledger rows in table order, every row consumed, the adjustment dated in the table |
| `Scenarios.BlockTable` | applecardstatement.py:160-186 | the whole table scanned: count 3, the four ledger rows in table order, and only the adjustment row changed |
| `Scenarios.ParserBlock` | applecardstatement.py:160-186 | the same table with the statement parser's own transform, under either flag: count 3, four ledger rows, the second the dated adjustment's |

## Left out

- `camelot.read_pdf` is not part of this model. `Parse` takes the extracted
  tables as values and copies each one into a fresh array, as the extractor
  builds fresh lists.
- `write`, `dump_tables` and the argument parsing and `sys.exit` driver are
  file, CSV and command-line glue around the core.
- All `print` diagnostics, the `table_number` parameters that only feed
  them, and the `debug` field are left out. `Parse` returns the total count
  instead of printing it.
- `ParseException` is modelled as an `Err` result, which each method returns
  at once, as the exception propagates. The ledger rows appended before the
  failure stay in `statement`, as they do in the source. The formatted
  message is not modelled, only the offending cell text.
- Python's floats are replaced by exact values: hundredths for a
  percentage, an exact decimal for an amount. `v/100.0` and `float(...)`
  rounding is not modelled.
- The digits of the patterns are the ASCII digits. Python's `\d` also takes
  other Unicode decimal digits, which `int()` and `float()` accept as well.
- The "Invalid percentage value" and "Invalid amount value" branches of
  `_parse_percent` and `_parse_amount` cannot be reached for ASCII digits,
  because `int()` and `float()` always accept the matched text. They have no
  counterpart in the model.
- An `IndexError` on a row with fewer than five cells is not modelled; the
  methods below require rows wide enough instead.
- StatementParser.AppleStatementParser.ParseRow requires a row of at least
  five cells, and `ParseTransactionTable` and `ParseEntry` require that of
  every row from the start index on.
- StatementParser.AppleStatementParser.ParseTable requires a rectangular
  table, as the extractor produces. With that, every row below the
  five-cell header is wide enough. `Parse` requires every table to be
  rectangular.
- `IDCA_PERCENT` and `IDCA_AMOUNT` are declared in the source but never
  used.
