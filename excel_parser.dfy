/** The row normaliser: turns a decoded sheet (a header row and cell rows) into the uploaded
    table, and the uploaded table into transactions dated by the user. Decoding the workbook
    itself is outside this model: the decoded sheet is the input. */
module ExcelParser {
  import opened Text
  import opened Types
  import opened Sequences

  const fixedColumns: seq<string> := ["Particulars", "SALES", "PAYMENT"]

  const tooFewRows: string := "Excel file must have at least 2 rows (header + data)"

  // ---------------------------------------------------------------- sheet shaping

  /** The property name a present header cell becomes when it is used as an object key. */
  function HeaderName(c: Cell): string
    requires c != Blank
  {
    match c
    case Text(s) => s
    case Number(n) => NumberToString(n)
  }

  /** Header cell `i` is present and carries the name `m`. */
  predicate Names(headers: seq<Cell>, i: int, m: string)
    requires 0 <= i < |headers|
  {
    headers[i] != Blank && HeaderName(headers[i]) == m
  }

  /** The names of the present header cells, in header order. A sparse header row has holes,
      and `forEach` and `filter` both pass over them. */
  function PresentNames(headers: seq<Cell>): (r: seq<string>)
    ensures |r| <= |headers|
    decreases |headers|
  {
    if |headers| == 0 then []
    else
      var n := |headers| - 1;
      if headers[n] == Blank then PresentNames(headers[..n])
      else PresentNames(headers[..n]) + [HeaderName(headers[n])]
  }

  /** A name is listed exactly when some present header cell carries it. */
  lemma {:induction false} PresentNamesSpec(headers: seq<Cell>, m: string)
    ensures m in PresentNames(headers) <==> exists i :: 0 <= i < |headers| && Names(headers, i, m)
    decreases |headers|
  {
    if |headers| > 0 {
      var n := |headers| - 1;
      PresentNamesSpec(headers[..n], m);
      if headers[n] != Blank {
        assert PresentNames(headers) == PresentNames(headers[..n]) + [HeaderName(headers[n])];
        assert Names(headers, n, HeaderName(headers[n]));
      }
      if exists i :: 0 <= i < |headers| && Names(headers, i, m) {
        var i :| 0 <= i < |headers| && Names(headers, i, m);
        if i < n {
          assert Names(headers[..n], i, m);
        }
      }
      if exists i :: 0 <= i < n && Names(headers[..n], i, m) {
        var i :| 0 <= i < n && Names(headers[..n], i, m);
        assert Names(headers, i, m);
      }
    }
  }

  /** `row[index] || ''`: a missing or falsy cell becomes the empty string. */
  function FillCell(cells: seq<Cell>, i: nat): (c: Cell)
    ensures c == Text("") || !IsFalsy(c)
    ensures i < |cells| && !IsFalsy(cells[i]) ==> c == cells[i]
    ensures !(i < |cells| && !IsFalsy(cells[i])) ==> c == Text("")
  {
    if i < |cells| && !IsFalsy(cells[i]) then cells[i] else Text("")
  }

  /** The object `headers.forEach` fills for one data row: each present header in turn is set
      to its cell, so a later duplicate header overwrites an earlier one, and a hole in the
      header row sets nothing. */
  function ShapeRow(headers: seq<Cell>, cells: seq<Cell>): ExcelRow
    decreases |headers|
  {
    if |headers| == 0 then map[]
    else
      var n := |headers| - 1;
      if headers[n] == Blank then ShapeRow(headers[..n], cells)
      else ShapeRow(headers[..n], cells)[HeaderName(headers[n]) := FillCell(cells, n)]
  }

  /** No later present header has the same name as the one at `i`. */
  predicate LastOccurrence(headers: seq<Cell>, i: int)
    requires 0 <= i < |headers| && headers[i] != Blank
  {
    forall j :: i < j < |headers| && headers[j] != Blank ==> HeaderName(headers[j]) != HeaderName(headers[i])
  }

  /** A shaped row has exactly the names of the present headers as keys. */
  lemma {:induction false} ShapeRowKeys(headers: seq<Cell>, cells: seq<Cell>)
    ensures ShapeRow(headers, cells).Keys == set m | m in PresentNames(headers)
    decreases |headers|
  {
    if |headers| > 0 {
      var n := |headers| - 1;
      ShapeRowKeys(headers[..n], cells);
      if headers[n] != Blank {
        var m := HeaderName(headers[n]);
        assert (set k | k in PresentNames(headers)) == (set k | k in PresentNames(headers[..n])) + {m};
      }
    }
  }

  /** Each key of a shaped row holds the cell under the last present header of that name, or
      the empty string when that cell is missing or falsy. */
  lemma {:induction false} ShapeRowValues(headers: seq<Cell>, cells: seq<Cell>, i: nat)
    requires i < |headers| && headers[i] != Blank && LastOccurrence(headers, i)
    ensures HeaderName(headers[i]) in ShapeRow(headers, cells)
    ensures ShapeRow(headers, cells)[HeaderName(headers[i])] == FillCell(cells, i)
    decreases |headers|
  {
    var n := |headers| - 1;
    if i < n {
      assert headers[n] != Blank ==> HeaderName(headers[n]) != HeaderName(headers[i]);
      assert LastOccurrence(headers[..n], i);
      ShapeRowValues(headers[..n], cells, i);
    }
  }

  /** Every value of a shaped row is the empty string or a truthy cell. */
  lemma {:induction false} ShapeRowBlanked(headers: seq<Cell>, cells: seq<Cell>, k: string)
    requires k in ShapeRow(headers, cells)
    ensures ShapeRow(headers, cells)[k] == Text("") || !IsFalsy(ShapeRow(headers, cells)[k])
    decreases |headers|
  {
    var n := |headers| - 1;
    if headers[n] == Blank || k != HeaderName(headers[n]) {
      ShapeRowBlanked(headers[..n], cells, k);
    }
  }

  /** The object fill as the source writes it: a loop over the headers. */
  method FillRow(headers: seq<Cell>, cells: seq<Cell>) returns (obj: ExcelRow)
    ensures obj == ShapeRow(headers, cells)
  {
    obj := map[];
    var i := 0;
    while i < |headers|
      invariant 0 <= i <= |headers|
      invariant obj == ShapeRow(headers[..i], cells)
    {
      assert headers[..i + 1][..i] == headers[..i];
      if headers[i] != Blank {
        obj := obj[HeaderName(headers[i]) := FillCell(cells, i)];
      }
      i := i + 1;
    }
    assert headers[..|headers|] == headers;
  }

  /** Some value of the row is neither empty nor undefined. */
  predicate HasValue(row: ExcelRow) {
    exists k :: k in row && row[k] != Text("") && row[k] != Blank
  }

  predicate IsPaymentMethodColumn(header: string) {
    header !in fixedColumns
  }

  /** The array-shaping half of `parseExcelFile`: a sheet with fewer than two rows is
      rejected; otherwise the header row is kept as the columns, every other present column
      is a payment method, in header order, and every data row is shaped and kept only when
      some value is filled. */
  function ParseSheet(jsonData: seq<seq<Cell>>): (r: Result<UploadedData>)
    ensures r.Failure? <==> |jsonData| < 2
    ensures r.Failure? ==> r.error == tooFewRows
    ensures r.Success? ==>
              && r.value.columns == jsonData[0]
              && r.value.paymentMethods == Filter(PresentNames(jsonData[0]), IsPaymentMethodColumn)
              && (forall m :: m in r.value.paymentMethods <==>
                    m !in fixedColumns && exists i :: 0 <= i < |jsonData[0]| && Names(jsonData[0], i, m))
              && |r.value.rows| <= |jsonData| - 1
              && (forall row :: row in r.value.rows ==> HasValue(row))
  {
    if |jsonData| < 2 then Failure(tooFewRows)
    else
      var headers := jsonData[0];
      var body := jsonData[1..];
      var rows := seq(|body|, i requires 0 <= i < |body| => ShapeRow(headers, body[i]));
      var names := PresentNames(headers);
      var methods := Filter(names, IsPaymentMethodColumn);
      assert forall m :: m in methods <==> m !in fixedColumns && exists i :: 0 <= i < |headers| && Names(headers, i, m) by {
        forall m ensures m in methods <==> m !in fixedColumns && exists i :: 0 <= i < |headers| && Names(headers, i, m) {
          FilterMember(names, IsPaymentMethodColumn, m);
          PresentNamesSpec(headers, m);
        }
      }
      Success(UploadedData(headers, Filter(rows, HasValue), methods))
  }

  /** A data row is dropped exactly when every value is empty, and the rows kept are the
      shaped rows in sheet order. */
  lemma ParseSheetRows(jsonData: seq<seq<Cell>>, i: nat)
    requires |jsonData| >= 2 && 1 <= i < |jsonData|
    ensures var shaped := ShapeRow(jsonData[0], jsonData[i]);
            shaped in ParseSheet(jsonData).value.rows <==> HasValue(shaped)
    ensures ParseSheet(jsonData).value.rows
         == Filter(seq(|jsonData| - 1, k requires 0 <= k < |jsonData| - 1 =>
                     ShapeRow(jsonData[0], jsonData[k + 1])), HasValue)
  {
    var headers := jsonData[0];
    var body := jsonData[1..];
    var rows := seq(|body|, k requires 0 <= k < |body| => ShapeRow(headers, body[k]));
    assert rows == seq(|jsonData| - 1, k requires 0 <= k < |jsonData| - 1 => ShapeRow(headers, jsonData[k + 1]));
    assert rows[i - 1] == ShapeRow(headers, jsonData[i]);
    FilterMember(rows, HasValue, rows[i - 1]);
  }

  // ---------------------------------------------------------------- conversion

  /** The amount in column `m` of a row. */
  function ColumnAmount(row: ExcelRow, m: string): real {
    ParseAmount(Get(row, m))
  }

  /** The payment methods of a row whose amount parses as positive. */
  function RowPaymentMethods(row: ExcelRow, methods: seq<string>): map<string, real> {
    map m | m in methods && ColumnAmount(row, m) > 0.0 :: ColumnAmount(row, m)
  }

  lemma RowPaymentMethodsSnoc(row: ExcelRow, methods: seq<string>, m: string)
    ensures RowPaymentMethods(row, methods + [m])
         == if ColumnAmount(row, m) > 0.0 then RowPaymentMethods(row, methods)[m := ColumnAmount(row, m)]
            else RowPaymentMethods(row, methods)
  {
    var l, r := RowPaymentMethods(row, methods + [m]), RowPaymentMethods(row, methods);
    assert forall k :: k in methods + [m] <==> k in methods || k == m;
    if ColumnAmount(row, m) > 0.0 {
      assert l.Keys == r.Keys + {m};
      assert forall k :: k in l ==> l[k] == r[m := ColumnAmount(row, m)][k];
    } else {
      assert l.Keys == r.Keys;
      assert forall k :: k in l ==> l[k] == r[k];
    }
  }

  /** The classification of `convertToTransactions`: a "cash in office" description wins,
      then any sale or retained payment method makes a customer row, and the rest are
      expenses. */
  function Classify(particulars: string, sales: real, methods: map<string, real>): (r: TxType)
    ensures r == CashInOffice <==> Contains(Lower(particulars), "cash in office")
    ensures r == Customer ==> sales > 0.0 || |methods.Keys| > 0
    ensures r == Expense ==> sales <= 0.0 && |methods.Keys| == 0
  {
    if Contains(Lower(particulars), "cash in office") then CashInOffice
    else if sales > 0.0 || |methods.Keys| > 0 then Customer
    else Expense
  }

  /** `${date}-${index}-${now}`. */
  function MakeId(date: string, index: nat, now: nat): string {
    date + "-" + NatToString(index) + "-" + NatToString(now)
  }

  function ToTransaction(row: ExcelRow, methods: seq<string>, date: string, index: nat, now: nat): Transaction {
    var particulars := Trim(CellText(Get(row, "Particulars")));
    var sales := ParseAmount(Get(row, "SALES"));
    var paymentMethods := RowPaymentMethods(row, methods);
    Transaction(
      MakeId(date, index, now), date, particulars, sales, ParseAmount(Get(row, "PAYMENT")),
      paymentMethods, Classify(particulars, sales, paymentMethods), None, None, None)
  }

  /** One row's conversion as the source writes it: the payment methods are collected in a
      loop and the type is assigned step by step. */
  method ConvertRow(row: ExcelRow, methods: seq<string>, date: string, index: nat, now: nat)
    returns (t: Transaction)
    ensures t == ToTransaction(row, methods, date, index, now)
  {
    var particulars := Trim(CellText(Get(row, "Particulars")));
    var sales := ParseAmount(Get(row, "SALES"));
    var payment := ParseAmount(Get(row, "PAYMENT"));
    var paymentMethods: map<string, real> := map[];
    var i := 0;
    while i < |methods|
      invariant 0 <= i <= |methods|
      invariant paymentMethods == RowPaymentMethods(row, methods[..i])
    {
      var value := ColumnAmount(row, methods[i]);
      RowPaymentMethodsSnoc(row, methods[..i], methods[i]);
      if value > 0.0 {
        paymentMethods := paymentMethods[methods[i] := value];
      }
      assert methods[..i + 1] == methods[..i] + [methods[i]];
      i := i + 1;
    }
    assert methods[..i] == methods;
    var kind := Expense;
    if Contains(Lower(particulars), "cash in office") {
      kind := CashInOffice;
    } else if sales > 0.0 || |paymentMethods.Keys| > 0 {
      kind := Customer;
    }
    t := Transaction(MakeId(date, index, now), date, particulars, sales, payment, paymentMethods, kind, None, None, None);
  }

  /** `convertToTransactions(data, date)`, where `clock(i)` is the reading `Date.now()` gives
      while row `i` is converted: one transaction per row, in row order. */
  function ConvertToTransactions(data: UploadedData, date: string, clock: nat -> nat): (r: seq<Transaction>)
    ensures |r| == |data.rows|
    ensures forall i :: 0 <= i < |r| ==>
              && r[i].date == date
              && r[i].particulars == Trim(CellText(Get(data.rows[i], "Particulars")))
              && r[i].sales == ParseAmount(Get(data.rows[i], "SALES"))
              && r[i].payment == ParseAmount(Get(data.rows[i], "PAYMENT"))
              && r[i].paymentMethods == RowPaymentMethods(data.rows[i], data.paymentMethods)
              && r[i].kind == Classify(r[i].particulars, r[i].sales, r[i].paymentMethods)
              && r[i].id == MakeId(date, i, clock(i))
              && r[i].creditAmount.None? && r[i].debitAmount.None? && r[i].balance.None?
  {
    var r := seq(|data.rows|, i requires 0 <= i < |data.rows| => ToTransaction(data.rows[i], data.paymentMethods, date, i, clock(i)));
    assert forall i :: 0 <= i < |r| ==> r[i] == ToTransaction(data.rows[i], data.paymentMethods, date, i, clock(i));
    r
  }

  /** The retained payment methods are payment-method columns whose cell parses as positive,
      and every such column is retained with its amount; so they add a non-negative total to
      the row's payment, and a positive one when any is retained. */
  lemma ConvertedPaymentMethods(data: UploadedData, date: string, clock: nat -> nat, i: nat)
    requires i < |data.rows|
    ensures var t := ConvertToTransactions(data, date, clock)[i];
            && t.paymentMethods.Keys <= set m | m in data.paymentMethods
            && (forall m :: m in t.paymentMethods ==> t.paymentMethods[m] > 0.0)
            && (forall m :: m in data.paymentMethods && ParseAmount(Get(data.rows[i], m)) > 0.0 ==>
                  m in t.paymentMethods && t.paymentMethods[m] == ParseAmount(Get(data.rows[i], m)))
            && SumValues(t.paymentMethods) >= 0.0
            && (|t.paymentMethods.Keys| > 0 ==> SumValues(t.paymentMethods) > 0.0)
  {
    SumValuesPositive(ConvertToTransactions(data, date, clock)[i].paymentMethods);
  }

  /** The classification, in both directions, and the particulars are trimmed. */
  lemma ConvertedType(data: UploadedData, date: string, clock: nat -> nat, i: nat)
    requires i < |data.rows|
    ensures var t := ConvertToTransactions(data, date, clock)[i];
            && (t.kind == CashInOffice <==> Contains(Lower(t.particulars), "cash in office"))
            && (t.kind == Customer <==>
                  !Contains(Lower(t.particulars), "cash in office")
                  && (t.sales > 0.0 || exists m :: m in data.paymentMethods && ParseAmount(Get(data.rows[i], m)) > 0.0))
            && (t.kind == Expense <==>
                  !Contains(Lower(t.particulars), "cash in office")
                  && t.sales <= 0.0 && |t.paymentMethods.Keys| == 0)
            && (|t.particulars| > 0 ==> !IsSpace(t.particulars[0]) && !IsSpace(t.particulars[|t.particulars| - 1]))
  {
    TrimSpec(CellText(Get(data.rows[i], "Particulars")));
    var t := ConvertToTransactions(data, date, clock)[i];
    if exists m :: m in data.paymentMethods && ParseAmount(Get(data.rows[i], m)) > 0.0 {
      var m :| m in data.paymentMethods && ParseAmount(Get(data.rows[i], m)) > 0.0;
      assert m in t.paymentMethods;
    }
    if |t.paymentMethods.Keys| > 0 {
      var m :| m in t.paymentMethods.Keys;
      assert m in data.paymentMethods && ParseAmount(Get(data.rows[i], m)) > 0.0;
    }
  }

  /** Two strings with no '-' followed by a '-' can only agree if they are equal. */
  lemma DashSeparated(a: string, b: string, x: string, y: string)
    requires forall i :: 0 <= i < |a| ==> a[i] != '-'
    requires forall i :: 0 <= i < |b| ==> b[i] != '-'
    requires a + "-" + x == b + "-" + y
    ensures a == b
  {
    var s := a + "-" + x;
    assert s[|a|] == '-';
    assert s[|b|] == '-';
    assert a == s[..|a|];
    assert b == s[..|b|];
  }

  /** The ids of one batch are pairwise distinct, whatever the clock reads for each row: each
      id embeds its row index between the shared date and that row's clock reading. */
  lemma BatchIdsDistinct(data: UploadedData, date: string, clock: nat -> nat, i: nat, j: nat)
    requires i < j < |data.rows|
    ensures ConvertToTransactions(data, date, clock)[i].id != ConvertToTransactions(data, date, clock)[j].id
  {
    var a, b := NatToString(i), NatToString(j);
    var x, y := NatToString(clock(i)), NatToString(clock(j));
    var p := date + "-";
    if MakeId(date, i, clock(i)) == MakeId(date, j, clock(j)) {
      assert MakeId(date, i, clock(i)) == p + (a + "-" + x);
      assert MakeId(date, j, clock(j)) == p + (b + "-" + y);
      assert (p + (a + "-" + x))[|p|..] == a + "-" + x;
      assert (p + (b + "-" + y))[|p|..] == b + "-" + y;
      DashSeparated(a, b, x, y);
      NatToStringInjective(i, j);
    }
  }
}
