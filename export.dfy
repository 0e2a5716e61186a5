/** The records the Excel and CSV exports write, one per transaction: the fixed columns
    followed by the spread of the transaction's payment methods. */
module Export {
  import opened Text
  import opened Types

  /** A field value of an exported record. */
  datatype ExportValue = Str(text: string) | Num(number: real)

  type ExportRecord = map<string, ExportValue>

  /** The fixed columns, in the order the record literal lists them. */
  const fixedColumns: seq<string> := ["Date", "Particulars", "Sales", "Payment", "Type"]

  /** `{Date, Particulars, Sales, Payment, Type, ...t.paymentMethods}`: the spread comes last,
      so a payment method named like a fixed column replaces that column. */
  function ShapeRecord(t: Transaction): ExportRecord {
    map["Date" := Str(t.date), "Particulars" := Str(t.particulars), "Sales" := Num(t.sales),
        "Payment" := Num(t.payment), "Type" := Str(TypeName(t.kind))]
    + map m | m in t.paymentMethods :: Num(t.paymentMethods[m])
  }

  /** The `transactions.map(...)` shared by `exportToExcel` and `exportToCSV`. */
  function ShapeRecords(ts: seq<Transaction>): (r: seq<ExportRecord>)
    ensures |r| == |ts|
    ensures forall i :: 0 <= i < |ts| ==> r[i] == ShapeRecord(ts[i])
  {
    if |ts| == 0 then [] else ShapeRecords(ts[..|ts| - 1]) + [ShapeRecord(ts[|ts| - 1])]
  }

  // ---------------------------------------------------------------- reading a record back

  /** What an export keeps of a transaction: no id and no ledger annotations. */
  datatype Exported = Exported(
    date: string, particulars: string, sales: real, payment: real, kind: TxType,
    paymentMethods: map<string, real>)

  function Content(t: Transaction): Exported {
    Exported(t.date, t.particulars, t.sales, t.payment, t.kind, t.paymentMethods)
  }

  function TypeFromName(s: string): (r: Option<TxType>)
    ensures r.Some? ==> TypeName(r.value) == s
  {
    if s == "customer" then Some(Customer)
    else if s == "expense" then Some(Expense)
    else if s == "cash_in_office" then Some(CashInOffice)
    else None
  }

  /** A record read back: the fixed columns with the expected kinds of value, and every other
      numeric field as a payment method. */
  function ReadRecord(r: ExportRecord): Option<Exported> {
    if "Date" in r && r["Date"].Str? && "Particulars" in r && r["Particulars"].Str?
       && "Sales" in r && r["Sales"].Num? && "Payment" in r && r["Payment"].Num?
       && "Type" in r && r["Type"].Str? && TypeFromName(r["Type"].text).Some?
    then
      Some(Exported(
        r["Date"].text, r["Particulars"].text, r["Sales"].number, r["Payment"].number,
        TypeFromName(r["Type"].text).value,
        map k | k in r && k !in fixedColumns && r[k].Num? :: r[k].number))
    else None
  }

  /** The fields of a record: every fixed column and every payment method; a payment method
      holds its amount, and a fixed column not shadowed by one holds the transaction's field. */
  lemma ShapeRecordFields(t: Transaction)
    ensures ShapeRecord(t).Keys == (set c | c in fixedColumns) + t.paymentMethods.Keys
    ensures forall m :: m in t.paymentMethods ==> ShapeRecord(t)[m] == Num(t.paymentMethods[m])
    ensures "Date" !in t.paymentMethods ==> ShapeRecord(t)["Date"] == Str(t.date)
    ensures "Particulars" !in t.paymentMethods ==> ShapeRecord(t)["Particulars"] == Str(t.particulars)
    ensures "Sales" !in t.paymentMethods ==> ShapeRecord(t)["Sales"] == Num(t.sales)
    ensures "Payment" !in t.paymentMethods ==> ShapeRecord(t)["Payment"] == Num(t.payment)
    ensures "Type" !in t.paymentMethods ==> ShapeRecord(t)["Type"] == Str(TypeName(t.kind))
  {
  }

  /** Without a colliding payment method the record reads back as its transaction. */
  lemma NoCollisionReadsBack(t: Transaction)
    requires forall m :: m in t.paymentMethods ==> m !in fixedColumns
    ensures ReadRecord(ShapeRecord(t)) == Some(Content(t))
  {
    var r := ShapeRecord(t);
    ShapeRecordFields(t);
    assert TypeFromName(TypeName(t.kind)) == Some(t.kind);
    MethodsReadBack(t);
  }

  /** The numeric fields outside the fixed columns are exactly the payment methods. */
  lemma MethodsReadBack(t: Transaction)
    requires forall m :: m in t.paymentMethods ==> m !in fixedColumns
    ensures var r := ShapeRecord(t);
            (map k | k in r && k !in fixedColumns && r[k].Num? :: r[k].number) == t.paymentMethods
  {
    var r := ShapeRecord(t);
    ShapeRecordFields(t);
    var back := map k | k in r && k !in fixedColumns && r[k].Num? :: r[k].number;
    assert back.Keys == t.paymentMethods.Keys;
  }

  /** A payment method named like a fixed column is not read back as a payment method. */
  lemma CollisionLosesMethod(t: Transaction, m: string)
    requires m in t.paymentMethods && m in fixedColumns
    ensures ReadRecord(ShapeRecord(t)) != Some(Content(t))
  {
    var r := ReadRecord(ShapeRecord(t));
    if r.Some? {
      assert m !in r.value.paymentMethods;
    }
  }

  /** A record reads back as its transaction's content exactly when no payment method is
      named like a fixed column; a colliding method overwrites a fixed column and the record
      loses information. */
  lemma ExportRoundTrip(t: Transaction)
    ensures ReadRecord(ShapeRecord(t)) == Some(Content(t))
        <==> forall m :: m in t.paymentMethods ==> m !in fixedColumns
  {
    if forall m :: m in t.paymentMethods ==> m !in fixedColumns {
      NoCollisionReadsBack(t);
    } else {
      var m :| m in t.paymentMethods && m in fixedColumns;
      CollisionLosesMethod(t, m);
    }
  }

  /** Every transaction of an export whose payment methods avoid the fixed column names can be
      read back from its record, in order. */
  lemma ExportRecordsRoundTrip(ts: seq<Transaction>)
    requires forall t, m :: t in ts && m in t.paymentMethods ==> m !in fixedColumns
    ensures forall i :: 0 <= i < |ts| ==> ReadRecord(ShapeRecords(ts)[i]) == Some(Content(ts[i]))
  {
    forall i | 0 <= i < |ts| ensures ReadRecord(ShapeRecords(ts)[i]) == Some(Content(ts[i])) {
      ExportRoundTrip(ts[i]);
    }
  }
}
