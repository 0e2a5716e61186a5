/** The preview table of an upload: the colour class each row is shown with, and saving the
    cell being edited back into the uploaded data. */
module EditableTable {
  import opened Text
  import opened Types
  import opened ExcelParser

  // ---------------------------------------------------------------- row classification

  /** The type the preview shows for a row; a row no rule claims is unknown. */
  datatype CellType = Typed(kind: TxType) | Unknown

  /** `data.paymentMethods.some(method => parseFloat(String(row[method] || '0')) > 0)`. */
  predicate SomeMethodPositive(row: ExcelRow, methods: seq<string>) {
    exists m :: m in methods && ColumnAmount(row, m) > 0.0
  }

  /** `getCellType`: a "cash in office" description wins, then a sale or a positive payment
      method makes a customer row, then a positive payment an expense. */
  function GetCellType(row: ExcelRow, methods: seq<string>): (r: CellType)
    ensures r == Typed(Expense) ==> ParseAmount(Get(row, "PAYMENT")) > 0.0
    ensures r == Unknown ==>
              && ParseAmount(Get(row, "SALES")) <= 0.0
              && ParseAmount(Get(row, "PAYMENT")) <= 0.0
              && forall m :: m in methods ==> ColumnAmount(row, m) <= 0.0
  {
    var particulars := Trim(Lower(CellText(Get(row, "Particulars"))));
    var sales := ParseAmount(Get(row, "SALES"));
    var payment := ParseAmount(Get(row, "PAYMENT"));
    if Contains(particulars, "cash in office") then Typed(CashInOffice)
    else if sales > 0.0 || SomeMethodPositive(row, methods) then Typed(Customer)
    else if payment > 0.0 then Typed(Expense)
    else Unknown
  }

  /** The preview agrees with the conversion the upload goes through, except on rows the
      conversion calls expenses although their payment is not positive: those the preview
      shows as unknown. */
  lemma PreviewAgreesWithConversion(data: UploadedData, date: string, clock: nat -> nat, i: nat)
    requires i < |data.rows|
    ensures var t := ConvertToTransactions(data, date, clock)[i];
            GetCellType(data.rows[i], data.paymentMethods)
              == if t.kind == Expense && t.payment <= 0.0 then Unknown else Typed(t.kind)
  {
    var row := data.rows[i];
    var t := ConvertToTransactions(data, date, clock)[i];
    LowerTrimCommute(CellText(Get(row, "Particulars")));
    ConvertedType(data, date, clock, i);
    ConvertedPaymentMethods(data, date, clock, i);
    if SomeMethodPositive(row, data.paymentMethods) {
      var m :| m in data.paymentMethods && ColumnAmount(row, m) > 0.0;
      assert m in t.paymentMethods;
    }
  }

  // ---------------------------------------------------------------- saving an edit

  /** The cell being edited: a row index and a column name. */
  datatype CellRef = CellRef(row: nat, col: string)

  /** `['SALES', 'PAYMENT', ...paymentMethods].includes(col)`. */
  predicate IsNumericColumn(col: string, methods: seq<string>) {
    col in ["SALES", "PAYMENT"] + methods
  }

  /** The rows with the cell `at` set to `cell` and nothing else changed. */
  function SaveCell(rows: seq<ExcelRow>, at: CellRef, cell: Cell): (r: seq<ExcelRow>)
    requires at.row < |rows|
    ensures |r| == |rows|
    ensures forall i :: 0 <= i < |r| && i != at.row ==> r[i] == rows[i]
    ensures r[at.row].Keys == rows[at.row].Keys + {at.col}
    ensures forall c :: c in rows[at.row] && c != at.col ==> r[at.row][c] == rows[at.row][c]
    ensures Get(r[at.row], at.col) == cell
  {
    rows[at.row := rows[at.row][at.col := cell]]
  }

  /** The cell an edit stores: the parsed number (0 when it does not parse) in an amount
      column, the text as typed anywhere else. */
  function EditedCell(col: string, methods: seq<string>, editValue: string): (c: Cell)
    ensures IsNumericColumn(col, methods) ==> c == Number(ParseFloatOrZero(editValue))
    ensures !IsNumericColumn(col, methods) ==> c == Text(editValue)
    ensures IsNumericColumn(col, methods) ==> ParseAmount(c) == ParseFloatOrZero(editValue)
    ensures !IsNumericColumn(col, methods) ==> CellText(c) == editValue
  {
    if IsNumericColumn(col, methods) then Number(ParseFloatOrZero(editValue)) else Text(editValue)
  }

  /** Two readings of `parseFloat(editValue) || 0` in an amount column: a string of digits is
      stored as its value, and a string without any digit as 0. */
  lemma EditedAmount(col: string, methods: seq<string>, editValue: string)
    requires IsNumericColumn(col, methods)
    ensures (|editValue| > 0 && forall i :: 0 <= i < |editValue| ==> IsDigit(editValue[i])) ==>
              EditedCell(col, methods, editValue) == Number(DigitsValue(editValue) as real)
    ensures (forall i :: 0 <= i < |editValue| ==> !IsDigit(editValue[i])) ==>
              EditedCell(col, methods, editValue) == Number(0.0)
  {
    if |editValue| > 0 && forall i :: 0 <= i < |editValue| ==> IsDigit(editValue[i]) {
      ParseDigits(editValue);
    }
    if forall i :: 0 <= i < |editValue| ==> !IsDigit(editValue[i]) {
      NoDigitsParseToZero(editValue);
    }
  }

  /** After an edit, converting the upload gives the same transactions for every other row, and
      the edited row reads back what was typed: the parsed amount in `SALES` and `PAYMENT`,
      the trimmed text in `Particulars`. */
  lemma {:induction false} EditThenConvert(data: UploadedData, at: CellRef, editValue: string, date: string, clock: nat -> nat)
    requires at.row < |data.rows|
    ensures var edited := data.(rows := SaveCell(data.rows, at, EditedCell(at.col, data.paymentMethods, editValue)));
            var before := ConvertToTransactions(data, date, clock);
            var after := ConvertToTransactions(edited, date, clock);
            && |after| == |before|
            && (forall i :: 0 <= i < |after| && i != at.row ==> after[i] == before[i])
            && (at.col == "SALES" ==> after[at.row].sales == ParseFloatOrZero(editValue))
            && (at.col == "PAYMENT" ==> after[at.row].payment == ParseFloatOrZero(editValue))
            && (at.col == "Particulars" && !IsNumericColumn(at.col, data.paymentMethods) ==>
                  after[at.row].particulars == Trim(editValue))
  {
    var edited := data.(rows := SaveCell(data.rows, at, EditedCell(at.col, data.paymentMethods, editValue)));
    var before := ConvertToTransactions(data, date, clock);
    var after := ConvertToTransactions(edited, date, clock);
    forall i | 0 <= i < |after| && i != at.row ensures after[i] == before[i] {
      assert edited.rows[i] == data.rows[i];
    }
  }

  /** The editing state of the preview table over the uploaded data it shows. */
  class TableEditor {
    var data: UploadedData
    var editingCell: Option<CellRef>
    var editValue: string

    /** A cell being edited lies in a row of the data. */
    predicate Valid()
      reads this
    {
      editingCell.Some? ==> editingCell.value.row < |data.rows|
    }

    constructor (data: UploadedData, editingCell: Option<CellRef>, editValue: string)
      requires editingCell.Some? ==> editingCell.value.row < |data.rows|
      ensures this.data == data && this.editingCell == editingCell && this.editValue == editValue
      ensures Valid()
    {
      this.data := data;
      this.editingCell := editingCell;
      this.editValue := editValue;
    }

    /** `handleSave`: writes the edit into its cell, hands the new rows on and leaves editing
        mode; without a cell being edited it does nothing. */
    method HandleSave()
      requires Valid()
      modifies this
      ensures old(editingCell).None? ==> unchanged(this)
      ensures old(editingCell).Some? ==>
                var at := old(editingCell).value;
                && data == old(data).(rows := SaveCell(old(data.rows), at, EditedCell(at.col, old(data.paymentMethods), old(editValue))))
                && editingCell == None && editValue == ""
      ensures Valid()
    {
      if editingCell.None? {
        return;
      }
      var updatedRows := data.rows;
      var at := editingCell.value;
      if at.col in ["SALES", "PAYMENT"] + data.paymentMethods {
        updatedRows := updatedRows[at.row := updatedRows[at.row][at.col := Number(ParseFloatOrZero(editValue))]];
      } else {
        updatedRows := updatedRows[at.row := updatedRows[at.row][at.col := Text(editValue)]];
      }
      data := data.(rows := updatedRows);
      editingCell := None;
      editValue := "";
    }
  }
}
