/**
 * The statement parser as an object: it keeps the ledger rows of the last
 * statement in `statement` and appends to it as it goes; the transaction
 * tables it scans are arrays, and dating an adjustment row changes the
 * table in place.
 *
 * Each method is proved to do what the matching function of `Rows`,
 * `Scanner` or `Tables` describes.
 */
module StatementParser {
  import opened Fields
  import opened Rows
  import opened Scanner
  import opened Tables

  /** Appending to a statement one piece after another is appending the pieces joined. */
  lemma AppendRows(a: seq<OutRow>, b: seq<OutRow>, c: seq<OutRow>)
    ensures a + b + c == a + (b + c)
  {
  }

  class AppleStatementParser {
    /** Whether transaction amounts are negated. */
    const negateAmount: bool

    /**
     * `_parse_row` with this parser's negate flag, as the transform the
     * scans are stated with; the constructor fixes it to `Transformer(negateAmount)`.
     */
    ghost const transform: Transform

    /**
     * `_parse_table` with that transform, as the table scanner the
     * statement is stated with; the constructor fixes it to `TableScannerOf(transform)`.
     */
    ghost const tableScanner: TableScanner

    /** The ledger rows parsed from the last statement. */
    var statement: seq<OutRow>

    /** The transform is `TransformRow` with the negate flag on every row wide enough for it. */
    ghost predicate Valid()
    {
      && Handles(transform)
      && (forall row {:trigger TransformRow(row, negateAmount)} :: IsTransactionRow(row) ==> transform(row) == TransformRow(row, negateAmount))
      && ScansTables(tableScanner)
      && (forall rows {:trigger ScanTable(rows, transform)} :: Rectangular(rows) ==> tableScanner(rows) == ScanTable(rows, transform))
    }

    constructor(negateAmount: bool)
      ensures this.negateAmount == negateAmount
      ensures transform == Transformer(negateAmount) && tableScanner == TableScannerOf(transform)
      ensures Valid()
      ensures statement == []
    {
      this.negateAmount := negateAmount;
      transform := Transformer(negateAmount);
      tableScanner := TableScannerOf(Transformer(negateAmount));
      statement := [];
    }

    /**
     * `_parse_row`: build the ledger row of `irow` and append it to the
     * statement. A field that does not parse is the error, and the
     * statement is then left as it was.
     */
    method ParseRow(irow: seq<string>) returns (error: Option<ParseError>)
      requires Valid() && IsTransactionRow(irow)
      modifies this
      ensures var r := transform(irow);
              && (r.Ok? ==> error == None && statement == old(statement) + [r.value])
              && (r.Err? ==> error == Some(r.error) && statement == old(statement))
    {
      assert transform(irow) == TransformRow(irow, negateAmount);
      var percent := ParsePercent(irow[IBonusPercent]);
      if percent.Err? {
        return Some(percent.error);
      }
      var bonus := ParseAmount(irow[IBonusAmount], false);
      if bonus.Err? {
        return Some(bonus.error);
      }
      var amount := ParseAmount(irow[IAmount], negateAmount);
      if amount.Err? {
        return Some(amount.error);
      }
      var orow := [Text(irow[IDate]), Text(irow[IDescription]), Text(""), Text(""), Text(""),
                   Fraction(percent.value), Money(bonus.value), Money(amount.value), Text("")];
      statement := statement + [orow];
      return None;
    }

    /**
     * `_parse_transaction_table`: scan `transactions` from `startIndex`,
     * appending a ledger row for every dated row and for the adjustment row
     * that directly follows one, which first receives its parent's date.
     * The result is the transaction count and the index one past the last
     * row looked at, or the error of the first row that does not parse.
     */
    method ParseTransactionTable(transactions: array<seq<string>>, startIndex: nat) returns (result: Result<Counts>)
      requires Valid() && WideFrom(transactions[..], startIndex)
      modifies this, transactions
      ensures var s := ScanTransactions(old(transactions[..]), startIndex, transform);
              && statement == old(statement) + s.emitted
              && transactions[..] == s.rows
              && result == s.status
    {
      ghost var emitted: seq<OutRow> := [];
      var i := startIndex;
      var txCount: nat := 0;
      while i < transactions.Length
        invariant WideFrom(transactions[..], i)
        invariant statement == old(statement) + emitted
        invariant Prepend(emitted, txCount, ScanTransactions(transactions[..], i, transform))
                  == ScanTransactions(old(transactions[..]), startIndex, transform)
        decreases transactions.Length - i
      {
        var next, counted, error, out := ParseEntry(transactions, i);
        AppendRows(old(statement), emitted, out);
        if error.Some? {
          return Err(error.value);
        }
        PrependPrepend(emitted, txCount, out, counted, ScanTransactions(transactions[..], next, transform));
        emitted := emitted + out;
        txCount := txCount + counted;
        i := next;
      }
      return Ok(Counts(txCount, i));
    }

    /**
     * One turn of `_parse_transaction_table`'s loop at row `i`: a row whose
     * date cell is not a date is skipped; a dated row is parsed and counted,
     * and an adjustment row right after it takes its date and is parsed too.
     * `next` is where the loop goes on, `out` the ledger rows appended.
     */
    method ParseEntry(transactions: array<seq<string>>, i: nat) returns (next: nat, counted: nat, error: Option<ParseError>, ghost out: seq<OutRow>)
      requires Valid() && i < transactions.Length && WideFrom(transactions[..], i)
      modifies this, transactions
      ensures i < next <= transactions.Length && WideFrom(transactions[..], next)
      ensures statement == old(statement) + out
      ensures error.None? ==>
                Prepend(out, counted, ScanTransactions(transactions[..], next, transform))
                == ScanTransactions(old(transactions[..]), i, transform)
      ensures error.Some? ==>
                ScanTransactions(old(transactions[..]), i, transform) == Scan(transactions[..], out, Err(error.value))
    {
      ghost var rows := transactions[..];
      var row := transactions[i];
      if !IsDate(row[IDate]) {
        ScanSkips(rows, i, transform);
        return i + 1, 0, None, [];
      }
      error := ParseRow(row);
      if error.Some? {
        ScanStops(rows, i, transform, error.value);
        return i + 1, 0, error, [];
      }
      ghost var o := transform(row).value;
      if i + 1 < transactions.Length && transactions[i + 1][IDca] == DailyCashAdjustment {
        var adjRow := transactions[i + 1];
        adjRow := adjRow[IDate := row[IDate]];
        transactions[i + 1] := adjRow;
        ghost var rows' := transactions[..];
        assert rows' == rows[i + 1 := Dated(rows[i + 1], rows[i][IDate])];
        error := ParseRow(adjRow);
        if error.Some? {
          ScanPairStops(rows, i, transform, o, rows', error.value);
          return i + 2, 1, error, [o];
        }
        ghost var o' := transform(adjRow).value;
        ScanPair([], 0, rows, i, transform, o, rows', o');
        return i + 2, 1, None, [o, o'];
      }
      ScanSingle([], 0, rows, i, transform, o);
      return i + 1, 1, None, [o];
    }

    /**
     * `_parse_table`: in a table of at least three rows, find the first
     * row titled "Transactions" followed by the column header, and scan the
     * transactions from the row after the header. The result is the
     * transaction count, zero when there is no such block.
     */
    method ParseTable(data: array<seq<string>>) returns (result: Result<nat>)
      requires Valid() && Rectangular(data[..])
      modifies this, data
      ensures var t := tableScanner(old(data[..]));
              && statement == old(statement) + t.emitted
              && data[..] == t.rows
              && result == t.status
    {
      assert tableScanner(data[..]) == ScanTable(data[..], transform);
      if data.Length < 3 {
        return Ok(0);
      }
      var extractAt := -1;
      for ri := 0 to data.Length - 2
        invariant extractAt == -1
        invariant forall k :: 0 <= k < ri ==> !IsHeaderAt(data[..], k)
      {
        if |data[ri]| >= 1 && data[ri][0] == TransactionsTitle {
          if |data[ri + 1]| == |TableHeader| && data[ri + 1] == TableHeader {
            extractAt := ri;
            break;
          }
        }
      }
      if extractAt >= 0 {
        FirstHeader(data[..], extractAt);
      } else {
        NoHeader(data[..]);
      }
      if extractAt >= 0 {
        HeaderWidth(data[..], extractAt);
        var counts := ParseTransactionTable(data, extractAt + 2);
        if counts.Err? {
          return Err(counts.error);
        }
        return Ok(counts.value.txCount);
      }
      return Ok(0);
    }

    /** `_parse_table` on a fresh array holding the rows of one table of the statement. */
    method ParseTableRows(t: seq<seq<string>>) returns (result: Result<nat>)
      requires Valid() && Rectangular(t)
      modifies this
      ensures statement == old(statement) + tableScanner(t).emitted
      ensures result == tableScanner(t).status
    {
      var table := new seq<string>[|t|](k requires 0 <= k < |t| => t[k]);
      assert table[..] == t;
      result := ParseTable(table);
    }

    /**
     * `parse`: start a new statement and parse the tables in order; the
     * result is the total transaction count, or the first error, which
     * ends the parse with the rows emitted before it kept.
     */
    method Parse(tables: seq<seq<seq<string>>>) returns (result: Result<nat>)
      requires Valid() && AllRectangular(tables)
      modifies this
      ensures var d := ScanDocument(tables, tableScanner);
              && statement == d.emitted
              && result == d.status
    {
      var txCount: nat := 0;
      statement := [];
      for n := 0 to |tables|
        invariant Fold(TableScans(tables, tableScanner)[..n]) == DocScan(statement, Ok(txCount))
      {
        ghost var before := statement;
        var tc := ParseTableRows(tables[n]);
        DocumentStep(tables, tableScanner, n, before, txCount);
        if tc.Err? {
          return tc;
        }
        txCount := txCount + tc.value;
      }
      assert TableScans(tables, tableScanner)[..|tables|] == TableScans(tables, tableScanner);
      return Ok(txCount);
    }
  }
}
