/**
 * The row transformer of the statement parser: one input row of the
 * transaction table becomes one nine-column ledger row.
 */
module Rows {
  import opened Fields

  /** Input columns of a transaction row. */
  const IDate: nat := 0
  const IDescription: nat := 1
  const IBonusPercent: nat := 2
  const IBonusAmount: nat := 3
  const IAmount: nat := 4

  /** Input column that marks a daily cash adjustment row. */
  const IDca: nat := 1

  /** The header of the ledger, one name per output column. */
  const OHeader: seq<string> := ["Date", "Description", "Category", "Note", "S", "%", "Cash", "Amount", "Split"]

  /** Output columns of a ledger row. */
  const ODate: nat := 0
  const ODescription: nat := 1
  const OCategory: nat := 2
  const ONote: nat := 3
  const OShared: nat := 4
  const OBonusPercent: nat := 5
  const OBonusAmount: nat := 6
  const OAmount: nat := 7
  const OSplit: nat := 8

  /** A ledger cell: text copied or left empty, a fraction in hundredths, or an exact dollar amount. */
  datatype Cell = Text(text: string) | Fraction(hundredths: int) | Money(amount: Decimal)

  type OutRow = seq<Cell>

  /** An input row wide enough for every column the transformer reads. */
  predicate IsTransactionRow(irow: seq<string>)
  {
    |irow| >= 5
  }

  /**
   * The ledger row built from the three field results, the first error
   * winning: percent, then bonus amount, then amount.
   */
  function LedgerRow(date: string, description: string, percent: Result<int>, bonus: Result<Decimal>, amount: Result<Decimal>): (r: Result<OutRow>)
    ensures r.Ok? <==> percent.Ok? && bonus.Ok? && amount.Ok?
    ensures r.Err? ==> r.error == (if percent.Err? then percent.error else if bonus.Err? then bonus.error else amount.error)
    ensures r.Ok? ==> |r.value| == |OHeader|
    ensures r.Ok? ==> r.value[ODate] == Text(date) && r.value[ODescription] == Text(description)
    ensures r.Ok? ==> r.value[OCategory] == r.value[ONote] == r.value[OShared] == r.value[OSplit] == Text("")
    ensures r.Ok? ==> r.value[OBonusPercent] == Fraction(percent.value)
    ensures r.Ok? ==> r.value[OBonusAmount] == Money(bonus.value)
    ensures r.Ok? ==> r.value[OAmount] == Money(amount.value)
  {
    if percent.Err? then Err(percent.error)
    else if bonus.Err? then Err(bonus.error)
    else if amount.Err? then Err(amount.error)
    else
      Ok([Text(date), Text(description), Text(""), Text(""), Text(""),
          Fraction(percent.value), Money(bonus.value), Money(amount.value), Text("")])
  }

  /**
   * `_parse_row` as a value: the date and description copied, the bonus
   * percent, bonus amount and amount parsed in that order (the amount with
   * the parser's negate flag), placeholders empty. The first field that
   * does not parse is the error.
   */
  function TransformRow(irow: seq<string>, negate: bool): (r: Result<OutRow>)
    requires IsTransactionRow(irow)
    ensures r.Ok? <==>
      ParsePercent(irow[IBonusPercent]).Ok? && ParseAmount(irow[IBonusAmount], false).Ok? && ParseAmount(irow[IAmount], negate).Ok?
    ensures r.Err? ==>
      r.error == (if ParsePercent(irow[IBonusPercent]).Err? then ParsePercent(irow[IBonusPercent]).error
                  else if ParseAmount(irow[IBonusAmount], false).Err? then ParseAmount(irow[IBonusAmount], false).error
                  else ParseAmount(irow[IAmount], negate).error)
    ensures r.Ok? ==> |r.value| == |OHeader|
    ensures r.Ok? ==> r.value[ODate] == Text(irow[IDate]) && r.value[ODescription] == Text(irow[IDescription])
    ensures r.Ok? ==> r.value[OCategory] == r.value[ONote] == r.value[OShared] == r.value[OSplit] == Text("")
    ensures r.Ok? ==> r.value[OBonusPercent] == Fraction(ParsePercent(irow[IBonusPercent]).value)
    ensures r.Ok? ==> r.value[OBonusAmount] == Money(ParseAmount(irow[IBonusAmount], false).value)
    ensures r.Ok? ==> r.value[OAmount] == Money(ParseAmount(irow[IAmount], negate).value)
  {
    LedgerRow(irow[IDate], irow[IDescription],
              ParsePercent(irow[IBonusPercent]), ParseAmount(irow[IBonusAmount], false), ParseAmount(irow[IAmount], negate))
  }

  /** A ledger row has the header's shape: nine cells, text at the text columns. */
  predicate IsLedgerRow(o: OutRow)
  {
    && |o| == |OHeader|
    && o[ODate].Text? && o[ODescription].Text?
    && o[OCategory] == o[ONote] == o[OShared] == o[OSplit] == Text("")
    && o[OBonusPercent].Fraction? && o[OBonusAmount].Money? && o[OAmount].Money?
  }

  /** Every transformed row has the ledger's shape. */
  lemma TransformShape(irow: seq<string>, negate: bool)
    requires IsTransactionRow(irow) && TransformRow(irow, negate).Ok?
    ensures IsLedgerRow(TransformRow(irow, negate).value)
  {
  }

  /**
   * The negate flag changes only the amount column, and that to its
   * negation; whether the row parses, and which error it raises, do not depend on it.
   */
  lemma TransformNegate(irow: seq<string>)
    requires IsTransactionRow(irow)
    ensures TransformRow(irow, true).Ok? <==> TransformRow(irow, false).Ok?
    ensures TransformRow(irow, true).Err? ==> TransformRow(irow, true).error == TransformRow(irow, false).error
    ensures TransformRow(irow, true).Ok? ==>
      var t, f := TransformRow(irow, true).value, TransformRow(irow, false).value;
      && t[OAmount] == Money(Negate(f[OAmount].amount))
      && (forall c :: 0 <= c < |OHeader| && c != OAmount ==> t[c] == f[c])
  {
    AmountNegate(irow[IAmount]);
  }
}
