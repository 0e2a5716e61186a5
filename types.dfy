/** The records the ledger application passes around: spreadsheet cells and rows, the uploaded
    table, transactions, customer ledgers and the dashboard summary, with the arithmetic on
    them that several components share. Amounts are exact reals. */
module Types {
  import opened Text

  datatype Result<T> = Success(value: T) | Failure(error: string)

  /** A decoded spreadsheet cell: absent (a hole in a ragged row), text or a number. */
  datatype Cell = Blank | Text(text: string) | Number(number: real)

  /** A shaped row: column name to cell. */
  type ExcelRow = map<string, Cell>

  datatype UploadedData = UploadedData(columns: seq<Cell>, rows: seq<ExcelRow>, paymentMethods: seq<string>)

  datatype TxType = Customer | Expense | CashInOffice

  datatype Transaction = Transaction(
    id: string,
    date: string,
    particulars: string,
    sales: real,
    payment: real,
    paymentMethods: map<string, real>,
    kind: TxType,
    creditAmount: Option<real>,
    debitAmount: Option<real>,
    balance: Option<real>)

  datatype CustomerLedger = CustomerLedger(
    particulars: string,
    totalSales: real,
    totalPayments: real,
    currentBalance: real,
    transactionCount: nat,
    lastTransactionDate: string,
    transactions: seq<Transaction>)

  datatype DashboardSummary = DashboardSummary(
    totalSales: real,
    totalPayment: real,
    paymentMethodTotals: map<string, real>,
    cashInOffice: real,
    runningBalance: real,
    transactionCount: nat,
    totalOutstanding: real,
    totalAdvances: real)

  /** The text the application writes for each transaction type. */
  function TypeName(kind: TxType): string {
    match kind
    case Customer => "customer"
    case Expense => "expense"
    case CashInOffice => "cash_in_office"
  }

  // ---------------------------------------------------------------- cells

  /** `row[key]`, a missing key reading as an absent cell. */
  function Get(row: ExcelRow, key: string): Cell {
    if key in row then row[key] else Blank
  }

  /** JavaScript falsiness of a cell value: undefined, the empty string and zero. */
  predicate IsFalsy(c: Cell) {
    c == Blank || c == Text("") || c == Number(0.0)
  }

  /** `String(c || '')`. */
  function CellText(c: Cell): (r: string)
    ensures IsFalsy(c) ==> r == ""
    ensures c.Text? ==> r == c.text
  {
    match c
    case Blank => ""
    case Text(s) => s
    case Number(n) => if n == 0.0 then "" else NumberToString(n)
  }

  /** `parseFloat(String(c || '0')) || 0`: the cell's amount, 0 when it holds none. */
  function ParseAmount(c: Cell): (r: real)
    ensures IsFalsy(c) ==> r == 0.0
    ensures c.Number? ==> r == c.number
  {
    match c
    case Blank => 0.0
    case Text(s) => ParseFloatOrZero(s)
    case Number(n) => n
  }

  // ---------------------------------------------------------------- sums of amounts

  /** Some key of a non-empty map. */
  ghost function AnyKey(m: map<string, real>): (k: string)
    requires |m.Keys| > 0
    ensures k in m
  {
    var k :| k in m.Keys; k
  }

  /** The sum of a map's values, in no particular order. */
  ghost function SumValues(m: map<string, real>): real
    decreases |m.Keys|
  {
    if |m.Keys| == 0 then 0.0
    else
      var k := AnyKey(m);
      assert |(m - {k}).Keys| < |m.Keys| by { assert (m - {k}).Keys == m.Keys - {k}; }
      m[k] + SumValues(m - {k})
  }

  /** Any key may be summed first. */
  lemma {:induction false} SumValuesPick(m: map<string, real>, j: string)
    requires j in m
    ensures SumValues(m) == m[j] + SumValues(m - {j})
    decreases |m.Keys|
  {
    var k := AnyKey(m);
    assert SumValues(m) == m[k] + SumValues(m - {k});
    if k != j {
      assert (m - {k}).Keys == m.Keys - {k};
      assert (m - {j}).Keys == m.Keys - {j};
      SumValuesPick(m - {k}, j);
      SumValuesPick(m - {j}, k);
      assert m - {k} - {j} == m - {j} - {k};
    }
  }

  /** A map whose values are all positive has a positive sum unless it is empty. */
  lemma {:induction false} SumValuesPositive(m: map<string, real>)
    requires forall k :: k in m ==> m[k] > 0.0
    ensures SumValues(m) >= 0.0
    ensures |m.Keys| > 0 ==> SumValues(m) > 0.0
    decreases |m.Keys|
  {
    if |m.Keys| > 0 {
      var k := AnyKey(m);
      SumValuesPick(m, k);
      assert (m - {k}).Keys == m.Keys - {k};
      SumValuesPositive(m - {k});
    }
  }

  function Restrict(m: map<string, real>, keys: set<string>): (r: map<string, real>)
    ensures r.Keys == m.Keys * keys
    ensures forall k :: k in r ==> r[k] == m[k]
  {
    map k | k in keys && k in m :: m[k]
  }

  /** Summing a restriction of a map one key at a time. */
  lemma RestrictPick(m: map<string, real>, keys: set<string>, k: string)
    requires k in keys && k in m
    ensures SumValues(Restrict(m, keys)) == m[k] + SumValues(Restrict(m, keys - {k}))
  {
    var rest := Restrict(m, keys);
    SumValuesPick(rest, k);
    assert rest - {k} == Restrict(m, keys - {k});
  }

  /** `Object.values(methods).reduce((sum, amount) => sum + amount, 0)`. */
  method SumPaymentMethods(methods: map<string, real>) returns (total: real)
    ensures total == SumValues(methods)
  {
    total := 0.0;
    var remaining := methods.Keys;
    assert Restrict(methods, remaining) == methods;
    while remaining != {}
      invariant remaining <= methods.Keys
      invariant total + SumValues(Restrict(methods, remaining)) == SumValues(methods)
      decreases remaining
    {
      var k :| k in remaining;
      RestrictPick(methods, remaining, k);
      total := total + methods[k];
      remaining := remaining - {k};
    }
    assert |Restrict(methods, remaining).Keys| == 0;
  }

  /** `Math.abs`. */
  function Abs(x: real): (r: real)
    ensures r >= 0.0 && (r == x || r == -x)
  {
    if x < 0.0 then -x else x
  }

  /** What a transaction credits to a customer. */
  function Credit(t: Transaction): real {
    t.sales
  }

  /** What a transaction debits from a customer: its cash payment and every payment method. */
  ghost function Debit(t: Transaction): real {
    t.payment + SumValues(t.paymentMethods)
  }

  /** The net effect of a transaction on a customer's balance. */
  ghost function Net(t: Transaction): real {
    Credit(t) - Debit(t)
  }
}
