/**
 * Worked examples of the statement parser on concrete cells and rows.
 */
module Scenarios {
  import opened Fields
  import opened Rows
  import opened Scanner
  import opened Tables

  // ---------------------------------------------------------------------------
  // Percentages

  lemma PercentEmpty()
    ensures ParsePercent("") == Ok(0)
  {
  }

  lemma PercentPlain()
    ensures ParsePercent("2%") == Ok(2)
  {
    PercentOfForm(false, "2", "");
    assert Sign(false) + "2" + "%" + "" == "2%";
  }

  lemma PercentMinus()
    ensures ParsePercent("-15%") == Ok(-15)
  {
    PercentOfForm(true, "15", "");
    assert Sign(true) + "15" + "%" + "" == "-15%";
    assert "15"[..1] == "1";
  }

  lemma AdjustmentPercent()
    ensures ParsePercent("-2%") == Ok(-2)
  {
    PercentOfForm(true, "2", "");
    assert Sign(true) + "2" + "%" + "" == "-2%";
  }

  /** Only the start of the cell has to match. */
  lemma PercentPrefix()
    ensures ParsePercent("3% bonus") == Ok(3)
  {
    PercentOfForm(false, "3", " bonus");
    assert Sign(false) + "3" + "%" + " bonus" == "3% bonus";
  }

  lemma PercentWithoutSign()
    ensures ParsePercent("15") == Err(InvalidPercent("15"))
  {
    assert "15"[1..][1..] == "";
  }

  lemma PercentLeadingSpace()
    ensures ParsePercent(" 2%") == Err(InvalidPercent(" 2%"))
  {
  }

  // ---------------------------------------------------------------------------
  // Amounts

  lemma AmountEmpty(negate: bool)
    ensures ParseAmount("", negate) == Ok(Decimal(0, 0))
  {
  }

  lemma AmountPlain()
    ensures ParseAmount("$0.10", false) == Ok(Decimal(10, 2))
  {
    AmountOfForm(false, "0", "10", "", false);
    assert AmountText(AmountMatch(false, "0", "10")) + "" == "$0.10";
    assert "10"[..1] == "1";
  }

  lemma AdjustmentAmount()
    ensures ParseAmount("-$0.10", false) == Ok(Decimal(-10, 2))
  {
    AmountOfForm(true, "0", "10", "", false);
    assert AmountText(AmountMatch(true, "0", "10")) + "" == "-$0.10";
    assert "10"[..1] == "1";
  }

  /** A purchase of five dollars, as the statement prints it, with and without the negate flag. */
  lemma AmountPurchase()
    ensures ParseAmount("$5.00", false) == Ok(Decimal(500, 2))
    ensures ParseAmount("$5.00", true) == Ok(Decimal(-500, 2))
  {
    AmountOfForm(false, "5", "00", "", false);
    AmountOfForm(false, "5", "00", "", true);
    assert AmountText(AmountMatch(false, "5", "00")) + "" == "$5.00";
    assert "00"[..1] == "0";
  }

  /** A refund of five dollars: with the negate flag the two minus signs cancel. */
  lemma AmountRefund()
    ensures ParseAmount("-$5.00", false) == Ok(Decimal(-500, 2))
    ensures ParseAmount("-$5.00", true) == Ok(Decimal(500, 2))
  {
    AmountOfForm(true, "5", "00", "", false);
    AmountOfForm(true, "5", "00", "", true);
    assert AmountText(AmountMatch(true, "5", "00")) + "" == "-$5.00";
    assert "00"[..1] == "0";
  }

  /** Trailing text is ignored, and the scale is the number of digits written after the point. */
  lemma AmountPrefix()
    ensures ParseAmount("$1.5 USD", false) == Ok(Decimal(15, 1))
  {
    AmountOfForm(false, "1", "5", " USD", false);
    assert AmountText(AmountMatch(false, "1", "5")) + " USD" == "$1.5 USD";
  }

  lemma AmountWithoutDollar()
    ensures ParseAmount("12.34", false) == Err(InvalidAmount("12.34"))
  {
  }

  lemma AmountWithoutPoint()
    ensures ParseAmount("$12", false) == Err(InvalidAmount("$12"))
  {
    assert "$12"[1..] == "12";
    assert "12"[1..][1..] == "";
  }

  // ---------------------------------------------------------------------------
  // Dates

  lemma DateWithNewline()
    ensures IsDate("09/01/2019\n")
  {
    DateOfForm("09", "01", "2019");
    assert "09" + "/" + "01" + "/" + "2019" + "\n" == "09/01/2019\n";
  }

  lemma DateShortFields()
    ensures !IsDate("9/1/2019")
  {
  }

  lemma DateShortYear()
    ensures !IsDate("09/01/19")
  {
  }

  // ---------------------------------------------------------------------------
  // A refund and its daily cash adjustment

  const Purchase: seq<string> := ["09/02/2019", "Store", "2%", "$0.10", "$5.00"]
  const Refund: seq<string> := ["09/03/2019", "Store", "", "", "-$5.00"]
  const AdjustmentCells: seq<string> := ["", "Daily Cash Adjustment", "-2%", "-$0.10", ""]
  const TotalRow: seq<string> := ["Total", "", "", "", "$0.00"]

  lemma RowDates()
    ensures IsDate(Purchase[IDate]) && IsDate(Refund[IDate]) && !IsDate(TotalRow[IDate])
  {
    DateOfForm("09", "02", "2019");
    DateOfForm("09", "03", "2019");
    assert "09" + "/" + "02" + "/" + "2019" == Purchase[IDate];
    assert "09" + "/" + "03" + "/" + "2019" == Refund[IDate];
  }

  lemma PurchaseRow(negate: bool)
    ensures TransformRow(Purchase, negate).Ok?
  {
    PercentPlain();
    AmountPlain();
    AmountPurchase();
    assert Purchase[IBonusPercent] == "2%" && Purchase[IBonusAmount] == "$0.10" && Purchase[IAmount] == "$5.00";
  }

  lemma RefundRow(negate: bool)
    ensures TransformRow(Refund, negate).Ok?
  {
    AmountRefund();
    assert Refund[IBonusPercent] == "" && Refund[IBonusAmount] == "" && Refund[IAmount] == "-$5.00";
  }

  /**
   * The adjustment row with the refund's date: the daily cash the refund
   * takes back, on the refund's date.
   */
  lemma AdjustmentRow(negate: bool)
    ensures var r := TransformRow(Dated(AdjustmentCells, Refund[IDate]), negate);
            && r.Ok?
            && r.value[ODate] == Text("09/03/2019")
            && r.value[OBonusPercent] == Fraction(-2)
            && r.value[OBonusAmount] == Money(Decimal(-10, 2))
            && r.value[OAmount] == Money(Decimal(0, 0))
  {
    var adjusted := Dated(AdjustmentCells, Refund[IDate]);
    AdjustmentPercent();
    AdjustmentAmount();
    assert adjusted[IBonusPercent] == "-2%" && adjusted[IBonusAmount] == "-$0.10" && adjusted[IAmount] == "";
  }

  /**
   * A purchase, a refund and the daily cash adjustment the refund brings,
   * then a total row, scanned with any transform that accepts the three
   * dated rows (the statement parser's does: `PurchaseRow`, `RefundRow`,
   * `AdjustmentRow`): two transactions, three ledger rows, the adjustment row
   * dated with the refund's date, and the total row skipped.
   */
  lemma RefundScan(tr: Transform)
    requires Handles(tr)
    requires tr(Purchase).Ok? && tr(Refund).Ok? && tr(Dated(AdjustmentCells, Refund[IDate])).Ok?
    ensures var s := ScanTransactions([Purchase, Refund, AdjustmentCells, TotalRow], 0, tr);
            && s.status == Ok(Counts(2, 4))
            && s.emitted == [tr(Purchase).value, tr(Refund).value, tr(Dated(AdjustmentCells, Refund[IDate])).value]
            && s.rows == [Purchase, Refund, Dated(AdjustmentCells, Refund[IDate]), TotalRow]
  {
    var rows := [Purchase, Refund, AdjustmentCells, TotalRow];
    RowDates();
    var adjusted := Dated(AdjustmentCells, Refund[IDate]);
    var rows' := rows[2 := adjusted];
    assert ScanTransactions(rows', 3, tr) == Scan(rows', [], Ok(Counts(0, 4)));
    assert ScanTransactions(rows, 1, tr) == Prepend([tr(Refund).value, tr(adjusted).value], 1, ScanTransactions(rows', 3, tr));
    assert ScanTransactions(rows, 0, tr) == Prepend([tr(Purchase).value], 1, ScanTransactions(rows, 1, tr));
  }

  const StoreA: seq<string> := ["09/01/2019", "Store A", "2%", "$0.10", "$5.00"]
  const CashBack: seq<string> := ["", "Daily Cash Adjustment", "0%", "", "$1.50"]

  /**
   * A transaction followed by its daily cash adjustment, scanned with any
   * transform that accepts both (the statement parser's does: `StoreARow`,
   * `CashBackRow`): two ledger rows, one transaction counted,
   * both rows consumed, and the adjustment dated like the transaction.
   */
  lemma CashBackScan(tr: Transform)
    requires Handles(tr)
    requires tr(StoreA).Ok? && tr(Dated(CashBack, StoreA[IDate])).Ok?
    ensures ScanTransactions([StoreA, CashBack], 0, tr) ==
            Scan([StoreA, Dated(CashBack, StoreA[IDate])],
                 [tr(StoreA).value, tr(Dated(CashBack, StoreA[IDate])).value],
                 Ok(Counts(1, 2)))
  {
    DateOfForm("09", "01", "2019");
    assert "09" + "/" + "01" + "/" + "2019" == StoreA[IDate];
    var rows' := [StoreA, Dated(CashBack, StoreA[IDate])];
    assert ScanTransactions(rows', 2, tr) == Scan(rows', [], Ok(Counts(0, 2)));
  }

  lemma PercentZero()
    ensures ParsePercent("0%") == Ok(0)
  {
    PercentOfForm(false, "0", "");
    assert Sign(false) + "0" + "%" + "" == "0%";
  }

  lemma AmountCashBack(negate: bool)
    ensures ParseAmount("$1.50", negate) == Ok(if negate then Decimal(-150, 2) else Decimal(150, 2))
  {
    AmountOfForm(false, "1", "50", "", negate);
    assert AmountText(AmountMatch(false, "1", "50")) + "" == "$1.50";
    assert "50"[..1] == "5";
  }

  lemma StoreARow(negate: bool)
    ensures TransformRow(StoreA, negate).Ok?
  {
    PercentPlain();
    AmountPlain();
    AmountPurchase();
    assert StoreA[IBonusPercent] == "2%" && StoreA[IBonusAmount] == "$0.10" && StoreA[IAmount] == "$5.00";
  }

  /** The adjustment's ledger row carries the transaction's date. */
  lemma CashBackRow(negate: bool)
    ensures var r := TransformRow(Dated(CashBack, StoreA[IDate]), negate);
            && r.Ok?
            && r.value[ODate] == Text("09/01/2019")
            && r.value[OBonusPercent] == Fraction(0)
            && r.value[OAmount] == Money(if negate then Decimal(-150, 2) else Decimal(150, 2))
  {
    PercentZero();
    AmountCashBack(negate);
    var adjusted := Dated(CashBack, StoreA[IDate]);
    assert adjusted[IBonusPercent] == "0%" && adjusted[IBonusAmount] == "" && adjusted[IAmount] == "$1.50";
  }

  /** The statement parser's transform on a row it accepts (keeps the concrete scans below small). */
  lemma Accepts(negate: bool, row: seq<string>)
    requires IsTransactionRow(row) && TransformRow(row, negate).Ok?
    ensures Transformer(negate)(row) == TransformRow(row, negate)
  {
  }

  /** The statement parser's own scan of the transaction and its adjustment, under either flag. */
  lemma ParserCashBackScan(negate: bool)
    ensures var s := ScanTransactions([StoreA, CashBack], 0, Transformer(negate));
            && s.status == Ok(Counts(1, 2))
            && |s.emitted| == 2
            && Ok(s.emitted[0]) == TransformRow(StoreA, negate)
            && Ok(s.emitted[1]) == TransformRow(Dated(CashBack, StoreA[IDate]), negate)
  {
    StoreARow(negate);
    CashBackRow(negate);
    Accepts(negate, StoreA);
    Accepts(negate, Dated(CashBack, StoreA[IDate]));
    CashBackScan(Transformer(negate));
  }

  /** The statement parser's own scan of the refund example, under either flag. */
  lemma ParserRefundScan(negate: bool)
    ensures var s := ScanTransactions([Purchase, Refund, AdjustmentCells, TotalRow], 0, Transformer(negate));
            && s.status == Ok(Counts(2, 4))
            && |s.emitted| == 3
            && Ok(s.emitted[1]) == TransformRow(Refund, negate)
            && Ok(s.emitted[2]) == TransformRow(Dated(AdjustmentCells, Refund[IDate]), negate)
  {
    PurchaseRow(negate);
    RefundRow(negate);
    AdjustmentRow(negate);
    Accepts(negate, Purchase);
    Accepts(negate, Refund);
    Accepts(negate, Dated(AdjustmentCells, Refund[IDate]));
    RefundScan(Transformer(negate));
  }

  // ---------------------------------------------------------------------------
  // Tables

  const TitleRow: seq<string> := [TransactionsTitle, "", "", "", ""]

  /** A transaction block: its title, its header, a transaction with its adjustment, then two more transactions. */
  const Block: seq<seq<string>> := [TitleRow, TableHeader, StoreA, CashBack, Purchase, Refund]

  lemma BlockHeader()
    ensures Rectangular(Block) && FindHeader(Block, 0) == 0
  {
    assert IsHeaderAt(Block, 0);
  }

  /**
   * The rows below the header, scanned with any transform that accepts the
   * dated ones: three transactions, four ledger rows and every row consumed.
   */
  lemma BlockScan(tr: Transform)
    requires Handles(tr)
    requires tr(StoreA).Ok? && tr(Dated(CashBack, StoreA[IDate])).Ok? && tr(Purchase).Ok? && tr(Refund).Ok?
    ensures WideFrom(Block, 2)
    ensures var s := ScanTransactions(Block, 2, tr);
            && s.status == Ok(Counts(3, 6))
            && s.emitted == [tr(StoreA).value, tr(Dated(CashBack, StoreA[IDate])).value, tr(Purchase).value, tr(Refund).value]
            && s.rows == Block[3 := Dated(CashBack, StoreA[IDate])]
  {
    RowDates();
    DateOfForm("09", "01", "2019");
    assert "09" + "/" + "01" + "/" + "2019" == StoreA[IDate];
    var rows' := Block[3 := Dated(CashBack, StoreA[IDate])];
    assert ScanTransactions(rows', 6, tr) == Scan(rows', [], Ok(Counts(0, 6)));
    assert ScanTransactions(rows', 5, tr) == Prepend([tr(Refund).value], 1, ScanTransactions(rows', 6, tr));
    assert ScanTransactions(rows', 4, tr) == Prepend([tr(Purchase).value], 1, ScanTransactions(rows', 5, tr));
    assert ScanTransactions(Block, 2, tr)
        == Prepend([tr(StoreA).value, tr(Dated(CashBack, StoreA[IDate])).value], 1, ScanTransactions(rows', 4, tr));
  }

  /**
   * The whole block scanned with any transform that accepts its dated rows:
   * the header is found at the top, three transactions are counted, four
   * ledger rows are emitted in table order, and the adjustment row is dated.
   */
  lemma BlockTable(tr: Transform)
    requires Handles(tr)
    requires tr(StoreA).Ok? && tr(Dated(CashBack, StoreA[IDate])).Ok? && tr(Purchase).Ok? && tr(Refund).Ok?
    ensures && Rectangular(Block)
            && var t := ScanTable(Block, tr);
            && t.status == Ok(3)
            && t.emitted == [tr(StoreA).value, tr(Dated(CashBack, StoreA[IDate])).value, tr(Purchase).value, tr(Refund).value]
            && t.rows == Block[3 := Dated(CashBack, StoreA[IDate])]
  {
    BlockHeader();
    BlockScan(tr);
    TableScanShape(Block, tr, 0);
  }

  /** The statement parser's own scan of the block, under either flag. */
  lemma ParserBlock(negate: bool)
    ensures && Rectangular(Block)
            && var t := ScanTable(Block, Transformer(negate));
            && t.status == Ok(3)
            && |t.emitted| == 4
            && Ok(t.emitted[1]) == TransformRow(Dated(CashBack, StoreA[IDate]), negate)
            && t.rows[3] == Dated(CashBack, StoreA[IDate])
  {
    StoreARow(negate);
    CashBackRow(negate);
    PurchaseRow(negate);
    RefundRow(negate);
    BlockTable(Transformer(negate));
  }

  /** A table too short to hold a transaction block contributes nothing. */
  lemma ShortTable(tr: Transform)
    requires Handles(tr)
    ensures ScanTable([TitleRow, TableHeader], tr) == TableScan([TitleRow, TableHeader], [], Ok(0))
  {
    var rows := [TitleRow, TableHeader];
    assert Rectangular(rows);
  }
}
