/**
 * The transaction scanner of the statement parser: it walks the rows of a
 * table from a start index, turns every dated row into a ledger row and,
 * when a dated row is directly followed by a "Daily Cash Adjustment" row,
 * dates that row with its parent's date in the table itself and turns it
 * into a ledger row as well.
 *
 * `ScanTransactions` is the scanner as a value; `KindAt` and `Selected`
 * describe independently which rows it picks, and `ScanSpec` proves that
 * the two agree.
 */
module Scanner {
  import opened Fields
  import opened Rows

  /** The description that marks a daily cash adjustment row. */
  const DailyCashAdjustment: string := "Daily Cash Adjustment"

  /** Every row from `i` on is wide enough for the transformer. */
  predicate WideFrom(rows: seq<seq<string>>, i: nat)
  {
    forall k :: i <= k < |rows| ==> IsTransactionRow(rows[k])
  }

  predicate IsAdjustment(row: seq<string>)
    requires |row| > IDca
  {
    row[IDca] == DailyCashAdjustment
  }

  /** `row` with its date cell replaced. */
  function Dated(row: seq<string>, date: string): (r: seq<string>)
    requires |row| > IDate
    ensures |r| == |row| && r[IDate] == date
    ensures forall c :: 0 <= c < |row| && c != IDate ==> r[c] == row[c]
  {
    row[IDate := date]
  }

  /**
   * What the scanner does with one row it picks. The statement parser's
   * transform is `TransformRow` with its negate flag (`Transformer`); the
   * scanner and its proofs hold for any transform defined on every row wide
   * enough for it.
   */
  type Transform = seq<string> --> Result<OutRow>

  ghost predicate Handles(tr: Transform)
  {
    forall row :: IsTransactionRow(row) ==> tr.requires(row)
  }

  /** `_parse_row` with the parser's negate flag, as a transform. */
  function Transformer(negate: bool): (tr: Transform)
    ensures Handles(tr)
    ensures forall row :: IsTransactionRow(row) ==> tr(row) == TransformRow(row, negate)
  {
    row requires IsTransactionRow(row) => TransformRow(row, negate)
  }

  /** The transaction count and the index one past the last row looked at. */
  datatype Counts = Counts(txCount: nat, end: nat)

  /** The table after the scan, the ledger rows it emitted in order, and its outcome. */
  datatype Scan = Scan(rows: seq<seq<string>>, emitted: seq<OutRow>, status: Result<Counts>)

  /** `s` preceded by the rows `out`, counting `n` more transactions when it succeeded. */
  function Prepend(out: seq<OutRow>, n: nat, s: Scan): (r: Scan)
    ensures r.rows == s.rows && r.emitted == out + s.emitted
    ensures r.status.Ok? <==> s.status.Ok?
    ensures r.status.Err? ==> r.status == s.status
    ensures r.status.Ok? ==> r.status.value == Counts(s.status.value.txCount + n, s.status.value.end)
  {
    Scan(s.rows, out + s.emitted,
         match s.status
         case Ok(c) => Ok(Counts(c.txCount + n, c.end))
         case Err(e) => Err(e))
  }

  lemma PrependPrepend(a: seq<OutRow>, n: nat, b: seq<OutRow>, m: nat, s: Scan)
    ensures Prepend(a, n, Prepend(b, m, s)) == Prepend(a + b, n + m, s)
  {
    assert a + (b + s.emitted) == (a + b) + s.emitted;
  }

  /**
   * `_parse_transaction_table` as a value, from row `i` of `rows`. A row
   * whose date cell is not a date is skipped. A failing row ends the scan
   * with its error, keeping what was emitted and changed before it.
   */
  function ScanTransactions(rows: seq<seq<string>>, i: nat, tr: Transform): (r: Scan)
    requires Handles(tr)
    requires WideFrom(rows, i)
    ensures |r.rows| == |rows|
    ensures r.status.Ok? ==> r.status.value.end == if i <= |rows| then |rows| else i
    ensures r.status.Ok? ==> r.status.value.txCount <= |r.emitted| <= 2 * r.status.value.txCount
    decreases |rows| - i
  {
    if i >= |rows| then Scan(rows, [], Ok(Counts(0, i)))
    else if !IsDate(rows[i][IDate]) then ScanTransactions(rows, i + 1, tr)
    else
      match tr(rows[i])
      case Err(e) => Scan(rows, [], Err(e))
      case Ok(o) =>
        if i + 1 < |rows| && IsAdjustment(rows[i + 1]) then
          var adjusted := Dated(rows[i + 1], rows[i][IDate]);
          var rows' := rows[i + 1 := adjusted];
          match tr(adjusted)
          case Err(e) => Scan(rows', [o], Err(e))
          case Ok(o') => Prepend([o, o'], 1, ScanTransactions(rows', i + 2, tr))
        else
          Prepend([o], 1, ScanTransactions(rows, i + 1, tr))
  }

  // ---------------------------------------------------------------------------
  /** The scan changes no row before its start, and every row it leaves is as wide as before. */
  lemma {:induction false} ScanFrame(rows: seq<seq<string>>, i: nat, tr: Transform)
    requires Handles(tr) && WideFrom(rows, i)
    ensures var r := ScanTransactions(rows, i, tr);
            && WideFrom(r.rows, i)
            && forall k :: 0 <= k < i && k < |rows| ==> r.rows[k] == rows[k]
    decreases |rows| - i
  {
    if i < |rows| && IsDate(rows[i][IDate]) && tr(rows[i]).Ok? {
      if i + 1 < |rows| && IsAdjustment(rows[i + 1]) {
        var rows' := rows[i + 1 := Dated(rows[i + 1], rows[i][IDate])];
        if tr(rows'[i + 1]).Ok? {
          ScanFrame(rows', i + 2, tr);
        }
      } else {
        ScanFrame(rows, i + 1, tr);
      }
    } else if i < |rows| && !IsDate(rows[i][IDate]) {
      ScanFrame(rows, i + 1, tr);
    }
  }

  // One step of the scan, as the statement parser's loop takes it

  /** A row whose date cell is not a date is skipped. */
  lemma ScanSkips(rows: seq<seq<string>>, i: nat, tr: Transform)
    requires Handles(tr) && i < |rows| && WideFrom(rows, i) && !IsDate(rows[i][IDate])
    ensures ScanTransactions(rows, i, tr) == ScanTransactions(rows, i + 1, tr)
  {
  }

  /** A dated row that fails ends the scan with its error. */
  lemma ScanStops(rows: seq<seq<string>>, i: nat, tr: Transform, e: ParseError)
    requires Handles(tr) && i < |rows| && WideFrom(rows, i) && IsDate(rows[i][IDate]) && tr(rows[i]) == Err(e)
    ensures ScanTransactions(rows, i, tr) == Scan(rows, [], Err(e))
  {
  }

  /**
   * A dated row without an adjustment after it is emitted and counted: the
   * scan from it is the scan from the next row with that ledger row in front.
   */
  lemma ScanSingle(done: seq<OutRow>, n: nat, rows: seq<seq<string>>, i: nat, tr: Transform, o: OutRow)
    requires Handles(tr) && i < |rows| && WideFrom(rows, i) && IsDate(rows[i][IDate]) && tr(rows[i]) == Ok(o)
    requires !(i + 1 < |rows| && IsAdjustment(rows[i + 1]))
    ensures Prepend(done + [o], n + 1, ScanTransactions(rows, i + 1, tr)) == Prepend(done, n, ScanTransactions(rows, i, tr))
  {
    PrependPrepend(done, n, [o], 1, ScanTransactions(rows, i + 1, tr));
  }

  /**
   * A dated row with an adjustment row after it: the adjustment row takes
   * its date in the table (`rows'`), both are emitted and the pair counts once.
   */
  lemma ScanPair(done: seq<OutRow>, n: nat, rows: seq<seq<string>>, i: nat, tr: Transform, o: OutRow, rows': seq<seq<string>>, o': OutRow)
    requires Handles(tr) && i + 1 < |rows| && WideFrom(rows, i) && IsDate(rows[i][IDate]) && IsAdjustment(rows[i + 1])
    requires rows' == rows[i + 1 := Dated(rows[i + 1], rows[i][IDate])]
    requires tr(rows[i]) == Ok(o) && tr(rows'[i + 1]) == Ok(o')
    ensures WideFrom(rows', i + 2)
    ensures Prepend(done + [o, o'], n + 1, ScanTransactions(rows', i + 2, tr)) == Prepend(done, n, ScanTransactions(rows, i, tr))
  {
    assert ScanTransactions(rows, i, tr) == Prepend([o, o'], 1, ScanTransactions(rows', i + 2, tr));
    PrependPrepend(done, n, [o, o'], 1, ScanTransactions(rows', i + 2, tr));
  }

  /** ... and when the adjustment row fails, the scan ends after the dated row has been emitted. */
  lemma ScanPairStops(rows: seq<seq<string>>, i: nat, tr: Transform, o: OutRow, rows': seq<seq<string>>, e: ParseError)
    requires Handles(tr) && i + 1 < |rows| && WideFrom(rows, i) && IsDate(rows[i][IDate]) && IsAdjustment(rows[i + 1])
    requires rows' == rows[i + 1 := Dated(rows[i + 1], rows[i][IDate])]
    requires tr(rows[i]) == Ok(o) && tr(rows'[i + 1]) == Err(e)
    ensures ScanTransactions(rows, i, tr) == Scan(rows', [o], Err(e))
  {
  }

  // ---------------------------------------------------------------------------
  // Which rows the scanner picks, row by row

  datatype RowKind = Transaction | Adjustment | Skipped

  /**
   * The part row `k` plays in a scan from `i`: an adjustment when it carries
   * the adjustment marker right after a transaction, otherwise a transaction
   * when its date cell is a date, otherwise skipped.
   */
  function KindAt(rows: seq<seq<string>>, i: nat, k: nat): (r: RowKind)
    requires i <= k < |rows| && WideFrom(rows, i)
    ensures r == Transaction ==> IsDate(rows[k][IDate])
    ensures r == Adjustment ==> i < k && IsAdjustment(rows[k])
    ensures r == Skipped ==> !IsDate(rows[k][IDate])
    decreases k - i
  {
    if i < k && KindAt(rows, i, k - 1) == Transaction && IsAdjustment(rows[k]) then Adjustment
    else if IsDate(rows[k][IDate]) then Transaction
    else Skipped
  }

  /** Row `k` as the scan from `i` leaves it: an adjustment carries its parent's date. */
  function AdjustedRow(rows: seq<seq<string>>, i: nat, k: nat): seq<string>
    requires i <= k < |rows| && WideFrom(rows, i)
  {
    if KindAt(rows, i, k) == Adjustment then Dated(rows[k], rows[k - 1][IDate]) else rows[k]
  }

  /** The input rows, from row `k` on, that a scan from `i` turns into ledger rows, in order and as adjusted. */
  function Selected(rows: seq<seq<string>>, i: nat, k: nat): (r: seq<seq<string>>)
    requires i <= k && WideFrom(rows, i)
    ensures forall j :: 0 <= j < |r| ==> IsTransactionRow(r[j]) && IsDate(r[j][IDate])
    decreases |rows| - k
  {
    if k >= |rows| then []
    else
      (if KindAt(rows, i, k) == Skipped then [] else [AdjustedRow(rows, i, k)]) + Selected(rows, i, k + 1)
  }

  /** How many of the rows from `k` on play the part `kind` in a scan from `i`. */
  function CountOf(rows: seq<seq<string>>, i: nat, k: nat, kind: RowKind): nat
    requires i <= k && WideFrom(rows, i)
    decreases |rows| - k
  {
    if k >= |rows| then 0
    else (if KindAt(rows, i, k) == kind then 1 else 0) + CountOf(rows, i, k + 1, kind)
  }

  /** The rows transformed before the first failure, and that failure. */
  datatype Run = Run(outs: seq<OutRow>, failure: Option<ParseError>)

  /** The transformer applied to `rows` in order, stopping at the first row that fails. */
  function TransformAll(rows: seq<seq<string>>, tr: Transform): (r: Run)
    requires Handles(tr)
    requires forall j :: 0 <= j < |rows| ==> IsTransactionRow(rows[j])
    ensures |r.outs| <= |rows|
  {
    if rows == [] then Run([], None)
    else
      match tr(rows[0])
      case Err(e) => Run([], Some(e))
      case Ok(o) =>
        var rest := TransformAll(rows[1..], tr);
        Run([o] + rest.outs, rest.failure)
  }

  /** The transformer's run keeps every row that succeeds before the first that fails, in order. */
  lemma {:induction false} TransformAllSpec(rows: seq<seq<string>>, tr: Transform)
    requires Handles(tr)
    requires forall j :: 0 <= j < |rows| ==> IsTransactionRow(rows[j])
    ensures var r := TransformAll(rows, tr);
            && (forall j :: 0 <= j < |r.outs| ==> tr(rows[j]) == Ok(r.outs[j]))
            && (r.failure.None? ==> |r.outs| == |rows|)
            && (r.failure.Some? ==> |r.outs| < |rows| && tr(rows[|r.outs|]) == Err(r.failure.value))
  {
    if rows != [] {
      TransformAllSpec(rows[1..], tr);
      var r := TransformAll(rows, tr);
      if tr(rows[0]).Ok? {
        forall j | 0 <= j < |r.outs|
          ensures tr(rows[j]) == Ok(r.outs[j])
        {
          if j > 0 {
            assert rows[j] == rows[1..][j - 1];
          }
        }
      }
    }
  }

  /**
   * The scanner transforms the selected rows in order and stops at the first
   * one that fails. When it succeeds it has counted the transactions and
   * dated every adjustment row of the table.
   */
  predicate Agrees(rows: seq<seq<string>>, i: nat, tr: Transform, r: Scan)
    requires Handles(tr)
    requires WideFrom(rows, i)
  {
    var run := TransformAll(Selected(rows, i, i), tr);
    && |r.rows| == |rows|
    && r.emitted == run.outs
    && (r.status.Err? <==> run.failure.Some?)
    && (r.status.Err? ==> r.status.error == run.failure.value)
    && (r.status.Ok? ==>
          && r.status.value.txCount == CountOf(rows, i, i, Transaction)
          && (forall k :: i <= k < |rows| ==> r.rows[k] == AdjustedRow(rows, i, k)))
  }

  // ---------------------------------------------------------------------------
  // Restarting the row kinds

  /** Kinds read only the rows from the start on. */
  lemma {:induction false} KindsAgree(rows: seq<seq<string>>, rows2: seq<seq<string>>, j: nat, k: nat)
    requires j <= k < |rows| == |rows2| && WideFrom(rows, j) && WideFrom(rows2, j)
    requires forall m :: j <= m < |rows| ==> rows[m] == rows2[m]
    ensures KindAt(rows, j, k) == KindAt(rows2, j, k)
    decreases k - j
  {
    if j < k {
      KindsAgree(rows, rows2, j, k - 1);
    }
  }

  /** Once a row plays the same part as it would at the start of a scan, the rest of the kinds follow the scan started there. */
  lemma {:induction false} KindsRestart(rows: seq<seq<string>>, i: nat, k0: nat, k: nat)
    requires i <= k0 <= k < |rows| && WideFrom(rows, i)
    requires KindAt(rows, i, k0) == KindAt(rows, k0, k0)
    ensures KindAt(rows, i, k) == KindAt(rows, k0, k)
    decreases k - k0
  {
    if k0 < k {
      KindsRestart(rows, i, k0, k - 1);
    }
  }

  /** Two scans with the same kinds and the same rows, from `k` on, select the same rows and count the same transactions. */
  lemma {:induction false} SelectedAgree(rows: seq<seq<string>>, i: nat, rows2: seq<seq<string>>, j: nat, k: nat)
    requires i <= k && j <= k && |rows| == |rows2| && WideFrom(rows, i) && WideFrom(rows2, j)
    requires forall m :: k <= m < |rows| ==> rows[m] == rows2[m] && KindAt(rows, i, m) == KindAt(rows2, j, m)
    requires k < |rows| && KindAt(rows, i, k) == Adjustment ==> rows[k - 1] == rows2[k - 1]
    ensures Selected(rows, i, k) == Selected(rows2, j, k)
    ensures CountOf(rows, i, k, Transaction) == CountOf(rows2, j, k, Transaction)
    decreases |rows| - k
  {
    if k < |rows| {
      AdjustedAgree(rows, i, rows2, j, k);
      SelectedAgree(rows, i, rows2, j, k + 1);
    }
  }

  /** A row of the same kind in two scans is adjusted alike when its parent's date is the same. */
  lemma AdjustedAgree(rows: seq<seq<string>>, i: nat, rows2: seq<seq<string>>, j: nat, m: nat)
    requires i <= m && j <= m && m < |rows| == |rows2| && WideFrom(rows, i) && WideFrom(rows2, j)
    requires rows[m] == rows2[m] && KindAt(rows, i, m) == KindAt(rows2, j, m)
    requires KindAt(rows, i, m) == Adjustment ==> rows[m - 1] == rows2[m - 1]
    ensures AdjustedRow(rows, i, m) == AdjustedRow(rows2, j, m)
  {
  }

  // ---------------------------------------------------------------------------
  // The scanner agrees with the row kinds

  /** What the scanner does is what the row kinds say. */
  lemma {:induction false} ScanSpec(rows: seq<seq<string>>, i: nat, tr: Transform)
    requires Handles(tr)
    requires WideFrom(rows, i)
    ensures Agrees(rows, i, tr, ScanTransactions(rows, i, tr))
    decreases |rows| - i, 1
  {
    if i >= |rows| {
    } else if !IsDate(rows[i][IDate]) {
      ScanSpec(rows, i + 1, tr);
      ScanFrame(rows, i + 1, tr);
      SkipAgrees(rows, i, tr, ScanTransactions(rows, i + 1, tr));
    } else {
      SelectedHead(rows, i);
      match tr(rows[i])
      case Err(e) =>
        RunErr(rows[i], Selected(rows, i, i + 1), tr, e);
      case Ok(o) =>
        if i + 1 < |rows| && IsAdjustment(rows[i + 1]) {
          AdjustmentCase(rows, i, tr, o);
        } else {
          TransactionCase(rows, i, tr, o);
        }
    }
  }

  lemma {:induction false} TransactionCase(rows: seq<seq<string>>, i: nat, tr: Transform, o: OutRow)
    requires Handles(tr)
    requires i < |rows| && WideFrom(rows, i) && IsDate(rows[i][IDate]) && tr(rows[i]) == Ok(o)
    requires !(i + 1 < |rows| && IsAdjustment(rows[i + 1]))
    ensures Agrees(rows, i, tr, ScanTransactions(rows, i, tr))
    decreases |rows| - i, 0
  {
    SelectedHead(rows, i);
    RunOk(rows[i], Selected(rows, i, i + 1), tr, o);
    ScanSpec(rows, i + 1, tr);
    ScanFrame(rows, i + 1, tr);
    var r := ScanTransactions(rows, i + 1, tr);
    assert ScanTransactions(rows, i, tr) == Prepend([o], 1, r);
    TransactionAgrees(rows, i, tr, o, r);
  }

  lemma {:induction false} AdjustmentCase(rows: seq<seq<string>>, i: nat, tr: Transform, o: OutRow)
    requires Handles(tr)
    requires i + 1 < |rows| && WideFrom(rows, i) && IsDate(rows[i][IDate]) && tr(rows[i]) == Ok(o)
    requires IsAdjustment(rows[i + 1])
    ensures Agrees(rows, i, tr, ScanTransactions(rows, i, tr))
    decreases |rows| - i, 0
  {
    var adjusted := Dated(rows[i + 1], rows[i][IDate]);
    var rows' := rows[i + 1 := adjusted];
    match tr(adjusted)
    case Err(e) =>
      assert ScanTransactions(rows, i, tr) == Scan(rows', [o], Err(e));
      AdjustmentFails(rows, i, tr, o, e);
    case Ok(o') =>
      ScanSpec(rows', i + 2, tr);
      ScanFrame(rows', i + 2, tr);
      var r := ScanTransactions(rows', i + 2, tr);
      assert ScanTransactions(rows, i, tr) == Prepend([o, o'], 1, r);
      AdjustmentAgrees(rows, i, tr, o, o', rows', r);
  }

  lemma AdjustmentFails(rows: seq<seq<string>>, i: nat, tr: Transform, o: OutRow, e: ParseError)
    requires Handles(tr)
    requires i + 1 < |rows| && WideFrom(rows, i) && IsDate(rows[i][IDate]) && IsAdjustment(rows[i + 1])
    requires tr(rows[i]) == Ok(o) && tr(Dated(rows[i + 1], rows[i][IDate])) == Err(e)
    ensures Agrees(rows, i, tr, Scan(rows[i + 1 := Dated(rows[i + 1], rows[i][IDate])], [o], Err(e)))
  {
    var adjusted := Dated(rows[i + 1], rows[i][IDate]);
    var rest := Selected(rows, i, i + 2);
    SelectedHead(rows, i);
    AdjustmentHead(rows, i);
    RunOk(rows[i], [adjusted] + rest, tr, o);
    RunErr(adjusted, rest, tr, e);
  }

  /** The transformer over a row that succeeds and the rows after it. */
  lemma RunOk(x: seq<string>, rest: seq<seq<string>>, tr: Transform, o: OutRow)
    requires Handles(tr)
    requires IsTransactionRow(x) && forall j :: 0 <= j < |rest| ==> IsTransactionRow(rest[j])
    requires tr(x) == Ok(o)
    ensures TransformAll([x] + rest, tr) == Run([o] + TransformAll(rest, tr).outs, TransformAll(rest, tr).failure)
  {
    assert ([x] + rest)[1..] == rest;
  }

  /** The transformer stops at a row that fails. */
  lemma RunErr(x: seq<string>, rest: seq<seq<string>>, tr: Transform, e: ParseError)
    requires Handles(tr)
    requires IsTransactionRow(x) && forall j :: 0 <= j < |rest| ==> IsTransactionRow(rest[j])
    requires tr(x) == Err(e)
    ensures TransformAll([x] + rest, tr) == Run([], Some(e))
  {
  }

  /** The selection of a scan from a dated row starts with that row. */
  lemma SelectedHead(rows: seq<seq<string>>, i: nat)
    requires i < |rows| && WideFrom(rows, i) && IsDate(rows[i][IDate])
    ensures KindAt(rows, i, i) == Transaction && AdjustedRow(rows, i, i) == rows[i]
    ensures Selected(rows, i, i) == [rows[i]] + Selected(rows, i, i + 1)
    ensures CountOf(rows, i, i, Transaction) == 1 + CountOf(rows, i, i + 1, Transaction)
  {
  }

  /** ... and goes on with the adjustment row after it, dated with its date. */
  lemma AdjustmentHead(rows: seq<seq<string>>, i: nat)
    requires i + 1 < |rows| && WideFrom(rows, i) && IsDate(rows[i][IDate]) && IsAdjustment(rows[i + 1])
    ensures KindAt(rows, i, i + 1) == Adjustment
    ensures AdjustedRow(rows, i, i + 1) == Dated(rows[i + 1], rows[i][IDate])
    ensures Selected(rows, i, i + 1) == [Dated(rows[i + 1], rows[i][IDate])] + Selected(rows, i, i + 2)
    ensures CountOf(rows, i, i + 1, Transaction) == CountOf(rows, i, i + 2, Transaction)
  {
    assert KindAt(rows, i, i) == Transaction;
  }

  lemma SkipAgrees(rows: seq<seq<string>>, i: nat, tr: Transform, r: Scan)
    requires Handles(tr)
    requires i < |rows| && WideFrom(rows, i) && !IsDate(rows[i][IDate])
    requires Agrees(rows, i + 1, tr, r) && (r.status.Ok? ==> r.rows[i] == rows[i])
    ensures Agrees(rows, i, tr, r)
  {
    RestartAfter(rows, i);
    assert KindAt(rows, i, i) == Skipped;
    assert Selected(rows, i, i) == Selected(rows, i, i + 1);
  }

  lemma TransactionAgrees(rows: seq<seq<string>>, i: nat, tr: Transform, o: OutRow, r: Scan)
    requires Handles(tr)
    requires i < |rows| && WideFrom(rows, i) && IsDate(rows[i][IDate])
    requires !(i + 1 < |rows| && IsAdjustment(rows[i + 1]))
    requires Selected(rows, i, i) == [rows[i]] + Selected(rows, i, i + 1)
    requires TransformAll(Selected(rows, i, i), tr) ==
      Run([o] + TransformAll(Selected(rows, i, i + 1), tr).outs, TransformAll(Selected(rows, i, i + 1), tr).failure)
    requires Agrees(rows, i + 1, tr, r) && (r.status.Ok? ==> r.rows[i] == rows[i])
    ensures Agrees(rows, i, tr, Prepend([o], 1, r))
  {
    RestartAfter(rows, i);
    SelectedHead(rows, i);
  }

  lemma AdjustmentAgrees(rows: seq<seq<string>>, i: nat, tr: Transform, o: OutRow, o': OutRow, rows': seq<seq<string>>, r: Scan)
    requires Handles(tr)
    requires i + 1 < |rows| && WideFrom(rows, i) && IsDate(rows[i][IDate]) && IsAdjustment(rows[i + 1])
    requires rows' == rows[i + 1 := Dated(rows[i + 1], rows[i][IDate])]
    requires tr(rows[i]) == Ok(o) && tr(rows'[i + 1]) == Ok(o')
    requires WideFrom(rows', i + 2) && Agrees(rows', i + 2, tr, r)
    requires r.status.Ok? ==> r.rows[i] == rows[i] && r.rows[i + 1] == rows'[i + 1]
    ensures Agrees(rows, i, tr, Prepend([o, o'], 1, r))
  {
    var rest := Selected(rows, i, i + 2);
    SelectedHead(rows, i);
    AdjustmentHead(rows, i);
    RunOk(rows[i], [rows'[i + 1]] + rest, tr, o);
    RunOk(rows'[i + 1], rest, tr, o');
    RestartAdjusted(rows, i, rows');
    assert [o, o'] + r.emitted == [o] + ([o'] + r.emitted);
  }

  /** A scan from `i` whose row `i` is not followed by an adjustment goes on as a fresh scan from `i + 1`. */
  lemma RestartAfter(rows: seq<seq<string>>, i: nat)
    requires i < |rows| && WideFrom(rows, i)
    requires KindAt(rows, i, i) != Transaction || !(i + 1 < |rows| && IsAdjustment(rows[i + 1]))
    ensures Selected(rows, i, i + 1) == Selected(rows, i + 1, i + 1)
    ensures forall m :: i + 1 <= m < |rows| ==> AdjustedRow(rows, i, m) == AdjustedRow(rows, i + 1, m)
    ensures CountOf(rows, i, i + 1, Transaction) == CountOf(rows, i + 1, i + 1, Transaction)
  {
    if i + 1 < |rows| {
      assert KindAt(rows, i, i + 1) == KindAt(rows, i + 1, i + 1);
      forall m | i + 1 <= m < |rows|
        ensures KindAt(rows, i, m) == KindAt(rows, i + 1, m)
      {
        KindsRestart(rows, i, i + 1, m);
      }
      forall m | i + 1 <= m < |rows|
        ensures AdjustedRow(rows, i, m) == AdjustedRow(rows, i + 1, m)
      {
        AdjustedAgree(rows, i, rows, i + 1, m);
      }
    }
    SelectedAgree(rows, i, rows, i + 1, i + 1);
  }

  /** After a transaction and its adjustment the scan goes on as a fresh scan of the adjusted table. */
  lemma RestartAdjusted(rows: seq<seq<string>>, i: nat, rows': seq<seq<string>>)
    requires i + 1 < |rows| && WideFrom(rows, i) && IsDate(rows[i][IDate]) && IsAdjustment(rows[i + 1])
    requires rows' == rows[i + 1 := Dated(rows[i + 1], rows[i][IDate])]
    ensures WideFrom(rows', i + 2)
    ensures Selected(rows, i, i + 2) == Selected(rows', i + 2, i + 2)
    ensures forall m :: i + 2 <= m < |rows| ==> AdjustedRow(rows, i, m) == AdjustedRow(rows', i + 2, m)
    ensures CountOf(rows, i, i + 2, Transaction) == CountOf(rows', i + 2, i + 2, Transaction)
  {
    assert KindAt(rows, i, i) == Transaction;
    assert KindAt(rows, i, i + 1) == Adjustment;
    if i + 2 < |rows| {
      assert KindAt(rows, i, i + 2) == KindAt(rows, i + 2, i + 2);
      forall m | i + 2 <= m < |rows|
        ensures KindAt(rows, i, m) == KindAt(rows', i + 2, m)
      {
        KindsRestart(rows, i, i + 2, m);
        KindsAgree(rows, rows', i + 2, m);
      }
      forall m | i + 2 <= m < |rows|
        ensures AdjustedRow(rows, i, m) == AdjustedRow(rows', i + 2, m)
      {
        AdjustedAgree(rows, i, rows', i + 2, m);
      }
    }
    SelectedAgree(rows, i, rows', i + 2, i + 2);
  }

  // ---------------------------------------------------------------------------
  // Consequences

  /** What a scan emits: the count of rows, the transaction count, and the rows it dates. */
  lemma ScanCounts(rows: seq<seq<string>>, i: nat, tr: Transform)
    requires Handles(tr) && WideFrom(rows, i)
    ensures var r := ScanTransactions(rows, i, tr);
            r.status.Ok? ==>
              && r.status.value.txCount == CountOf(rows, i, i, Transaction)
              && |r.emitted| == CountOf(rows, i, i, Transaction) + CountOf(rows, i, i, Adjustment)
              && forall k :: i <= k < |rows| ==> r.rows[k] == AdjustedRow(rows, i, k)
  {
    ScanSpec(rows, i, tr);
    TransformAllSpec(Selected(rows, i, i), tr);
    SelectedSize(rows, i, i);
  }

  lemma {:induction false} SelectedSize(rows: seq<seq<string>>, i: nat, k: nat)
    requires i <= k && WideFrom(rows, i)
    ensures |Selected(rows, i, k)| == CountOf(rows, i, k, Transaction) + CountOf(rows, i, k, Adjustment)
    decreases |rows| - k
  {
    if k < |rows| {
      SelectedSize(rows, i, k + 1);
    }
  }

  /** Ledger rows whose date cells all hold dates. */
  predicate AllDated(e: seq<OutRow>)
  {
    forall j :: 0 <= j < |e| ==> IsLedgerRow(e[j]) && e[j][ODate].Text? && IsDate(e[j][ODate].text)
  }

  lemma AllDatedAppend(a: seq<OutRow>, b: seq<OutRow>)
    requires AllDated(a) && AllDated(b)
    ensures AllDated(a + b)
  {
    forall j | |a| <= j < |a + b|
      ensures (a + b)[j] == b[j - |a|]
    {
    }
  }

  /**
   * Every row the statement parser's scan emits, also before a failure, is
   * a ledger row whose date cell holds a date: an adjustment row carries the
   * date of the transaction before it.
   */
  lemma ScanEmitsDated(rows: seq<seq<string>>, i: nat, negate: bool)
    requires WideFrom(rows, i)
    ensures AllDated(ScanTransactions(rows, i, Transformer(negate)).emitted)
  {
    var tr := Transformer(negate);
    var sel := Selected(rows, i, i);
    ScanSpec(rows, i, tr);
    TransformAllSpec(sel, tr);
    var e := ScanTransactions(rows, i, tr).emitted;
    forall j | 0 <= j < |e|
      ensures IsLedgerRow(e[j]) && e[j][ODate].Text? && IsDate(e[j][ODate].text)
    {
      assert TransformRow(sel[j], negate) == Ok(e[j]);
      TransformShape(sel[j], negate);
    }
  }
}
