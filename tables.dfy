/**
 * Tables and the whole statement: a table is searched for the header of its
 * transaction block, and the scanner runs from the first row after that
 * header; the statement is the tables scanned one after another, stopping at
 * the first row that fails to parse.
 */
module Tables {
  import opened Fields
  import opened Rows
  import opened Scanner

  /** The first cell of the row above the column header of a transaction block. */
  const TransactionsTitle: string := "Transactions"

  /** The column header of a transaction block. */
  const TableHeader: seq<string> := ["Date", "Description", "Daily Cash", "", "Amount"]

  /** A table whose rows all have the same number of cells, as the extractor produces. */
  ghost predicate Rectangular(rows: seq<seq<string>>)
  {
    forall j, k :: 0 <= j < |rows| && 0 <= k < |rows| ==> |rows[j]| == |rows[k]|
  }

  /** Row `r` starts a transaction block among the rows `_parse_table` searches. */
  predicate IsHeaderAt(rows: seq<seq<string>>, r: nat)
  {
    && r + 2 < |rows|
    && |rows[r]| >= 1 && rows[r][0] == TransactionsTitle
    && |rows[r + 1]| == |TableHeader| && rows[r + 1] == TableHeader
  }

  /** The first row from `r` on that starts a transaction block, or -1. */
  function FindHeader(rows: seq<seq<string>>, r: nat): (h: int)
    ensures h == -1 || (r <= h && IsHeaderAt(rows, h))
    ensures h == -1 ==> forall k :: r <= k ==> !IsHeaderAt(rows, k)
    ensures h != -1 ==> forall k :: r <= k < h ==> !IsHeaderAt(rows, k)
    decreases |rows| - r
  {
    if r + 2 >= |rows| then -1
    else if IsHeaderAt(rows, r) then r
    else FindHeader(rows, r + 1)
  }

  /** The header `_parse_table`'s search stops at is the first one. */
  lemma FirstHeader(rows: seq<seq<string>>, h: nat)
    requires IsHeaderAt(rows, h) && forall k :: 0 <= k < h ==> !IsHeaderAt(rows, k)
    ensures FindHeader(rows, 0) == h
  {
  }

  /** A search that runs through every candidate row without a match finds none. */
  lemma NoHeader(rows: seq<seq<string>>)
    requires forall k :: 0 <= k < |rows| - 2 ==> !IsHeaderAt(rows, k)
    ensures FindHeader(rows, 0) == -1
  {
  }

  /** Below a header every row of a rectangular table is as wide as the header. */
  lemma HeaderWidth(rows: seq<seq<string>>, h: nat)
    requires Rectangular(rows) && IsHeaderAt(rows, h)
    ensures WideFrom(rows, h + 2)
  {
    forall k | h + 2 <= k < |rows|
      ensures IsTransactionRow(rows[k])
    {
      assert |rows[k]| == |rows[h + 1]|;
    }
  }

  /** The table after the scan, the ledger rows taken from it, and the transaction count or the failure. */
  datatype TableScan = TableScan(rows: seq<seq<string>>, emitted: seq<OutRow>, status: Result<nat>)

  /**
   * `_parse_table` as a value: a table of fewer than three rows, or one
   * without a transaction block, gives nothing; otherwise the scanner runs
   * from the row after the column header.
   */
  function ScanTable(rows: seq<seq<string>>, tr: Transform): (r: TableScan)
    requires Handles(tr) && Rectangular(rows)
    ensures |r.rows| == |rows|
  {
    if |rows| < 3 then TableScan(rows, [], Ok(0))
    else
      var h := FindHeader(rows, 0);
      if h < 0 then TableScan(rows, [], Ok(0))
      else
        HeaderWidth(rows, h);
        var s := ScanTransactions(rows, h + 2, tr);
        TableScan(s.rows, s.emitted,
                  match s.status
                  case Ok(c) => Ok(c.txCount)
                  case Err(e) => Err(e))
  }

  /** A table without a transaction block contributes nothing and is left as it is. */
  lemma TableWithoutHeader(rows: seq<seq<string>>, tr: Transform)
    requires Handles(tr) && Rectangular(rows)
    requires forall k :: !IsHeaderAt(rows, k)
    ensures ScanTable(rows, tr) == TableScan(rows, [], Ok(0))
  {
  }

  /**
   * The scan of a table whose first transaction block starts at row `h`
   * runs from two rows below it and, when it succeeds, always ends at the
   * last row; the table's rows and status are the scanner's.
   */
  lemma TableScanShape(rows: seq<seq<string>>, tr: Transform, h: nat)
    requires Handles(tr) && Rectangular(rows)
    requires FindHeader(rows, 0) == h
    ensures WideFrom(rows, h + 2)
    ensures var s := ScanTransactions(rows, h + 2, tr);
            && (s.status.Ok? ==> s.status.value.end == |rows|)
            && ScanTable(rows, tr).rows == s.rows
            && ScanTable(rows, tr).emitted == s.emitted
            && (ScanTable(rows, tr).status.Ok? <==> s.status.Ok?)
            && (s.status.Ok? ==> ScanTable(rows, tr).status.value == s.status.value.txCount)
            && (s.status.Err? ==> ScanTable(rows, tr).status.error == s.status.error)
  {
    HeaderWidth(rows, h);
  }

  /** The header of the transaction block and the rows above it are left as they are. */
  lemma TableKeepsHeader(rows: seq<seq<string>>, tr: Transform, h: nat)
    requires Handles(tr) && Rectangular(rows)
    requires FindHeader(rows, 0) == h
    ensures forall k :: 0 <= k < h + 2 ==> ScanTable(rows, tr).rows[k] == rows[k]
  {
    TableScanShape(rows, tr, h);
    ScanFrame(rows, h + 2, tr);
  }

  /** Every ledger row a table scan emits is a ledger row whose date cell holds a date. */
  lemma TableEmitsDated(rows: seq<seq<string>>, negate: bool)
    requires Rectangular(rows)
    ensures AllDated(ScanTable(rows, Transformer(negate)).emitted)
  {
    if |rows| >= 3 && FindHeader(rows, 0) >= 0 {
      TableScanShape(rows, Transformer(negate), FindHeader(rows, 0));
      ScanEmitsDated(rows, FindHeader(rows, 0) + 2, negate);
    }
  }

  // ---------------------------------------------------------------------------
  // The statement

  ghost predicate AllRectangular(tables: seq<seq<seq<string>>>)
  {
    forall n :: 0 <= n < |tables| ==> Rectangular(tables[n])
  }

  /** The ledger rows of the statement so far, and its transaction count or the failure. */
  datatype DocScan = DocScan(emitted: seq<OutRow>, status: Result<nat>)

  /**
   * `parse`'s loop over the table scans, in order: the ledger rows of each
   * appended to the statement and the counts summed; the first failure ends
   * it, keeping the rows emitted before it.
   */
  function Fold(scans: seq<TableScan>): DocScan
    decreases |scans|
  {
    if scans == [] then DocScan([], Ok(0))
    else
      var d := Fold(scans[..|scans| - 1]);
      var t := scans[|scans| - 1];
      if d.status.Err? then d
      else
        DocScan(d.emitted + t.emitted,
                match t.status
                case Ok(n) => Ok(d.status.value + n)
                case Err(e) => Err(e))
  }

  /**
   * What `parse` does with one table. The statement parser's is `ScanTable`
   * with its transform (`TableScannerOf`); the statement and its proofs hold
   * for any scanner defined on every rectangular table.
   */
  type TableScanner = seq<seq<string>> --> TableScan

  ghost predicate ScansTables(ts: TableScanner)
  {
    forall rows :: Rectangular(rows) ==> ts.requires(rows)
  }

  /** `_parse_table` with a transform, as a table scanner. */
  function TableScannerOf(tr: Transform): (ts: TableScanner)
    requires Handles(tr)
    ensures ScansTables(ts)
    ensures forall rows :: Rectangular(rows) ==> ts(rows) == ScanTable(rows, tr)
  {
    rows requires Rectangular(rows) => ScanTable(rows, tr)
  }

  /** The scan of every table on its own. */
  function TableScans(tables: seq<seq<seq<string>>>, ts: TableScanner): (r: seq<TableScan>)
    requires ScansTables(ts) && AllRectangular(tables)
    ensures |r| == |tables| && forall n :: 0 <= n < |tables| ==> r[n] == ts(tables[n])
  {
    seq(|tables|, n requires 0 <= n < |tables| => ts(tables[n]))
  }

  /** `parse` as a value: the table scans of the statement, folded. */
  function ScanDocument(tables: seq<seq<seq<string>>>, ts: TableScanner): DocScan
    requires ScansTables(ts) && AllRectangular(tables)
  {
    Fold(TableScans(tables, ts))
  }

  /** The ledger rows of every scan, one after another. */
  function Flatten(scans: seq<TableScan>): seq<OutRow>
    decreases |scans|
  {
    if scans == [] then [] else scans[0].emitted + Flatten(scans[1..])
  }

  /** The sum of the transaction counts of scans that all succeed. */
  function Total(scans: seq<TableScan>): nat
    requires forall n :: 0 <= n < |scans| ==> scans[n].status.Ok?
    decreases |scans|
  {
    if scans == [] then 0 else scans[0].status.value + Total(scans[1..])
  }

  lemma {:induction false} FlattenSnoc(scans: seq<TableScan>)
    requires scans != []
    ensures Flatten(scans) == Flatten(scans[..|scans| - 1]) + scans[|scans| - 1].emitted
    decreases |scans|
  {
    var init, last := scans[..|scans| - 1], scans[|scans| - 1].emitted;
    if |scans| == 1 {
      assert init == [] && scans[1..] == [];
    } else {
      var rest := scans[1..];
      FlattenSnoc(rest);
      assert rest[..|rest| - 1] == init[1..] && rest[|rest| - 1] == scans[|scans| - 1];
      assert init[0] == scans[0];
      var head := scans[0].emitted;
      calc {
        Flatten(scans);
        head + Flatten(rest);
        head + (Flatten(init[1..]) + last);
        (head + Flatten(init[1..])) + last;
        Flatten(init) + last;
      }
    }
  }

  lemma {:induction false} TotalSnoc(scans: seq<TableScan>)
    requires scans != [] && forall n :: 0 <= n < |scans| ==> scans[n].status.Ok?
    ensures Total(scans) == Total(scans[..|scans| - 1]) + scans[|scans| - 1].status.value
    decreases |scans|
  {
    if |scans| > 1 {
      var rest := scans[1..];
      TotalSnoc(rest);
      assert rest[..|rest| - 1] == scans[..|scans| - 1][1..];
      assert scans[..|scans| - 1][0] == scans[0];
    }
  }

  /**
   * The fold succeeds exactly when every scan does; it then holds the
   * ledger rows of every scan in order, and the count is the sum of the
   * scans' counts.
   */
  lemma {:induction false} FoldOk(scans: seq<TableScan>)
    ensures Fold(scans).status.Ok? <==> forall n :: 0 <= n < |scans| ==> scans[n].status.Ok?
    ensures Fold(scans).status.Ok? ==> Fold(scans).emitted == Flatten(scans) && Fold(scans).status.value == Total(scans)
    decreases |scans|
  {
    if scans != [] {
      var init := scans[..|scans| - 1];
      FoldOk(init);
      assert forall n :: 0 <= n < |init| ==> init[n] == scans[n];
      FlattenSnoc(scans);
      if forall n :: 0 <= n < |scans| ==> scans[n].status.Ok? {
        TotalSnoc(scans);
      }
    }
  }

  /**
   * When the scans before scan `n` succeed and scan `n` fails, the fold
   * fails with that scan's failure and holds the rows of the scans before
   * it followed by the rows scan `n` emitted before failing.
   */
  lemma {:induction false} FoldFails(scans: seq<TableScan>, n: nat)
    requires n < |scans| && scans[n].status.Err?
    requires forall m :: 0 <= m < n ==> scans[m].status.Ok?
    ensures Fold(scans).status == scans[n].status
    ensures Fold(scans).emitted == Flatten(scans[..n]) + scans[n].emitted
    decreases |scans|
  {
    var init := scans[..|scans| - 1];
    assert forall m :: 0 <= m < |init| ==> init[m] == scans[m];
    if n < |scans| - 1 {
      FoldFails(init, n);
      assert init[..n] == scans[..n];
    } else {
      FoldOk(init);
      assert init == scans[..n];
    }
  }

  /** One more scan: the fold so far, extended by that scan unless it has already failed. */
  lemma FoldStep(scans: seq<TableScan>, t: TableScan)
    ensures var d := Fold(scans);
            Fold(scans + [t]) ==
              if d.status.Err? then d
              else if t.status.Err? then DocScan(d.emitted + t.emitted, t.status)
              else DocScan(d.emitted + t.emitted, Ok(d.status.value + t.status.value))
  {
    assert (scans + [t])[..|scans|] == scans;
  }

  /** Once the scans before scan `n` have failed, the later scans change nothing. */
  lemma {:induction false} FoldStops(scans: seq<TableScan>, n: nat)
    requires n <= |scans| && Fold(scans[..n]).status.Err?
    ensures Fold(scans) == Fold(scans[..n])
    decreases |scans| - n
  {
    if n < |scans| {
      FoldStep(scans[..n], scans[n]);
      assert scans[..n] + [scans[n]] == scans[..n + 1];
      FoldStops(scans, n + 1);
    } else {
      assert scans[..n] == scans;
    }
  }

  /** The fold emits only rows some scan emitted. */
  lemma {:induction false} FoldDated(scans: seq<TableScan>)
    requires forall n :: 0 <= n < |scans| ==> AllDated(scans[n].emitted)
    ensures AllDated(Fold(scans).emitted)
    decreases |scans|
  {
    if scans != [] {
      var init := scans[..|scans| - 1];
      assert forall m :: 0 <= m < |init| ==> init[m] == scans[m];
      FoldDated(init);
      if Fold(init).status.Ok? {
        AllDatedAppend(Fold(init).emitted, scans[|scans| - 1].emitted);
      }
    }
  }

  /**
   * The statement succeeds exactly when every table does, and then holds
   * the ledger rows of every table in order with the sum of their counts.
   */
  lemma DocumentOk(tables: seq<seq<seq<string>>>, ts: TableScanner)
    requires ScansTables(ts) && AllRectangular(tables)
    ensures ScanDocument(tables, ts).status.Ok? <==> forall n :: 0 <= n < |tables| ==> ts(tables[n]).status.Ok?
    ensures ScanDocument(tables, ts).status.Ok? ==>
              && ScanDocument(tables, ts).emitted == Flatten(TableScans(tables, ts))
              && ScanDocument(tables, ts).status.value == Total(TableScans(tables, ts))
  {
    FoldOk(TableScans(tables, ts));
  }

  /**
   * A statement whose table `n` is the first to fail fails with that
   * table's failure, holding the rows of the tables before it and the rows
   * table `n` emitted before failing.
   */
  lemma DocumentFails(tables: seq<seq<seq<string>>>, ts: TableScanner, n: nat)
    requires ScansTables(ts) && AllRectangular(tables)
    requires n < |tables| && ts(tables[n]).status.Err?
    requires forall m :: 0 <= m < n ==> ts(tables[m]).status.Ok?
    ensures ScanDocument(tables, ts).status == ts(tables[n]).status
    ensures ScanDocument(tables, ts).emitted == Flatten(TableScans(tables, ts)[..n]) + ts(tables[n]).emitted
  {
    FoldFails(TableScans(tables, ts), n);
  }

  /**
   * One more table in `parse`'s loop: while the tables before table `n`
   * have succeeded, a table that succeeds adds its rows and its count, and a
   * table that fails ends the statement with its rows and its failure.
   */
  lemma DocumentStep(tables: seq<seq<seq<string>>>, ts: TableScanner, n: nat, emitted: seq<OutRow>, count: nat)
    requires ScansTables(ts) && AllRectangular(tables) && n < |tables|
    requires Fold(TableScans(tables, ts)[..n]) == DocScan(emitted, Ok(count))
    ensures var t := ts(tables[n]);
            t.status.Ok? ==> Fold(TableScans(tables, ts)[..n + 1]) == DocScan(emitted + t.emitted, Ok(count + t.status.value))
    ensures var t := ts(tables[n]);
            t.status.Err? ==> ScanDocument(tables, ts) == DocScan(emitted + t.emitted, t.status)
  {
    var scans := TableScans(tables, ts);
    assert scans[..n + 1] == scans[..n] + [scans[n]];
    FoldStep(scans[..n], scans[n]);
    if scans[n].status.Err? {
      FoldStops(scans, n + 1);
    }
  }

  /** Every ledger row of the statement, also before a failure, is a ledger row whose date cell holds a date. */
  lemma DocumentEmitsDated(tables: seq<seq<seq<string>>>, negate: bool)
    requires AllRectangular(tables)
    ensures AllDated(ScanDocument(tables, TableScannerOf(Transformer(negate))).emitted)
  {
    var scans := TableScans(tables, TableScannerOf(Transformer(negate)));
    forall n | 0 <= n < |scans|
      ensures AllDated(scans[n].emitted)
    {
      TableEmitsDated(tables[n], negate);
    }
    FoldDated(scans);
  }
}
