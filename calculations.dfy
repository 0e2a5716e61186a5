/** The dashboard figures: sums over the transactions shown, per-method totals, the
    cash-in-office reconciliation and the outstanding/advance split over the customer ledgers. */
module Calculations {
  import opened Text
  import opened Types
  import opened Sequences
  import opened Ledger
  import opened Database

  function PaymentOf(t: Transaction): real {
    t.payment
  }

  /** `map[m] || 0`: the amount under `m`, zero when there is none. */
  function AmountOf(m: map<string, real>, key: string): real {
    if key in m then m[key] else 0.0
  }

  /** The amount a transaction records under payment method `key`. */
  function MethodAmount(key: string): Transaction -> real {
    (t: Transaction) => AmountOf(t.paymentMethods, key)
  }

  /** `totals` with every entry of `methods` added in. */
  function AddMethods(totals: map<string, real>, methods: map<string, real>): (r: map<string, real>)
    ensures r.Keys == totals.Keys + methods.Keys
  {
    map m | m in totals.Keys + methods.Keys :: AmountOf(totals, m) + AmountOf(methods, m)
  }

  /** The per-method totals, accumulated transaction by transaction. */
  function MethodTotals(ts: seq<Transaction>): map<string, real>
    decreases |ts|
  {
    if |ts| == 0 then map[] else AddMethods(MethodTotals(ts[..|ts| - 1]), ts[|ts| - 1].paymentMethods)
  }

  /** What a row adds to the cash in office: its payment methods minus its payment for a
      cash-in-office row, nothing for any other row. */
  ghost function CashDelta(t: Transaction): real {
    if t.kind == CashInOffice then SumValues(t.paymentMethods) - t.payment else 0.0
  }

  function OutstandingOf(l: CustomerLedger): real {
    if l.currentBalance > 0.0 then l.currentBalance else 0.0
  }

  function AdvanceOf(l: CustomerLedger): real {
    if l.currentBalance < 0.0 then Abs(l.currentBalance) else 0.0
  }

  function BalanceOf(l: CustomerLedger): real {
    l.currentBalance
  }

  /** The summary of `transactions`, with the split taken over `ledgers`. */
  ghost function Summarize(transactions: seq<Transaction>, ledgers: seq<CustomerLedger>): (r: DashboardSummary)
    ensures r.transactionCount == |transactions|
    ensures r.runningBalance == r.totalSales - r.totalPayment
    ensures r.totalOutstanding >= 0.0 && r.totalAdvances >= 0.0
    ensures r.totalOutstanding - r.totalAdvances == SumOf(ledgers, BalanceOf)
  {
    OutstandingSplit(ledgers);
    var totalSales := SumOf(transactions, Credit);
    var totalPayment := SumOf(transactions, PaymentOf);
    DashboardSummary(
      totalSales, totalPayment, MethodTotals(transactions), SumOf(transactions, CashDelta),
      totalSales - totalPayment, |transactions|,
      SumOf(ledgers, OutstandingOf), SumOf(ledgers, AdvanceOf))
  }

  /** `calculateDashboardSummary`, with the ledgers it reads from the store passed in. */
  method CalculateDashboardSummary(transactions: seq<Transaction>, ledgers: seq<CustomerLedger>)
    returns (summary: DashboardSummary)
    ensures summary == Summarize(transactions, ledgers)
  {
    var totalSales, totalPayment, paymentMethodTotals, cashInOffice := SumTransactions(transactions);
    var totalOutstanding, totalAdvances := SplitBalances(ledgers);
    summary := DashboardSummary(
      totalSales, totalPayment, paymentMethodTotals, cashInOffice,
      totalSales - totalPayment, |transactions|, totalOutstanding, totalAdvances);
  }

  /** `calculateDashboardSummary` as the dashboard calls it, reading the ledgers from `db`. */
  method DashboardSummaryFrom(db: DatabaseManager, transactions: seq<Transaction>) returns (summary: DashboardSummary)
    ensures summary == Summarize(transactions, db.GetCustomerLedgers())
  {
    summary := CalculateDashboardSummary(transactions, db.GetCustomerLedgers());
  }

  /** The `transactions.forEach` pass: sales, payments, per-method totals and cash in office. */
  method SumTransactions(transactions: seq<Transaction>)
    returns (totalSales: real, totalPayment: real, paymentMethodTotals: map<string, real>, cashInOffice: real)
    ensures totalSales == SumOf(transactions, Credit)
    ensures totalPayment == SumOf(transactions, PaymentOf)
    ensures paymentMethodTotals == MethodTotals(transactions)
    ensures cashInOffice == SumOf(transactions, CashDelta)
  {
    totalSales, totalPayment, paymentMethodTotals, cashInOffice := 0.0, 0.0, map[], 0.0;
    var i := 0;
    while i < |transactions|
      invariant 0 <= i <= |transactions|
      invariant totalSales == SumOf(transactions[..i], Credit)
      invariant totalPayment == SumOf(transactions[..i], PaymentOf)
      invariant paymentMethodTotals == MethodTotals(transactions[..i])
      invariant cashInOffice == SumOf(transactions[..i], CashDelta)
    {
      var t := transactions[i];
      assert transactions[..i + 1] == transactions[..i] + [t];
      SumOfSnoc(transactions[..i], t, Credit);
      SumOfSnoc(transactions[..i], t, PaymentOf);
      SumOfSnoc(transactions[..i], t, CashDelta);
      assert transactions[..i + 1][..i] == transactions[..i];
      totalSales := totalSales + t.sales;
      totalPayment := totalPayment + t.payment;
      paymentMethodTotals := AddMethodTotals(paymentMethodTotals, t.paymentMethods);
      if t.kind == CashInOffice {
        var totalPaymentMethods := SumPaymentMethods(t.paymentMethods);
        cashInOffice := cashInOffice + (totalPaymentMethods - t.payment);
      }
      i := i + 1;
    }
    assert transactions[..i] == transactions;
  }

  /** The `customerLedgers.forEach` pass: positive balances are outstanding, negative ones
      are advances, zero balances count in neither. */
  method SplitBalances(ledgers: seq<CustomerLedger>) returns (totalOutstanding: real, totalAdvances: real)
    ensures totalOutstanding == SumOf(ledgers, OutstandingOf)
    ensures totalAdvances == SumOf(ledgers, AdvanceOf)
  {
    totalOutstanding, totalAdvances := 0.0, 0.0;
    var j := 0;
    while j < |ledgers|
      invariant 0 <= j <= |ledgers|
      invariant totalOutstanding == SumOf(ledgers[..j], OutstandingOf)
      invariant totalAdvances == SumOf(ledgers[..j], AdvanceOf)
    {
      var ledger := ledgers[j];
      assert ledgers[..j + 1][..j] == ledgers[..j];
      if ledger.currentBalance > 0.0 {
        totalOutstanding := totalOutstanding + ledger.currentBalance;
      } else if ledger.currentBalance < 0.0 {
        totalAdvances := totalAdvances + Abs(ledger.currentBalance);
      }
      j := j + 1;
    }
    assert ledgers[..j] == ledgers;
  }

  /** Adding one more payment method to the totals. */
  lemma AddMethodsStep(totals: map<string, real>, methods: map<string, real>, remaining: set<string>, m: string)
    requires m in remaining && remaining <= methods.Keys
    ensures var before := AddMethods(totals, Restrict(methods, methods.Keys - remaining));
            AddMethods(totals, Restrict(methods, methods.Keys - (remaining - {m})))
              == before[m := AmountOf(before, m) + methods[m]]
  {
    var done := Restrict(methods, methods.Keys - remaining);
    var next := Restrict(methods, methods.Keys - (remaining - {m}));
    assert next == done[m := methods[m]];
  }

  /** The `Object.entries(paymentMethods).forEach` adding one transaction's methods. */
  method AddMethodTotals(totals: map<string, real>, methods: map<string, real>) returns (r: map<string, real>)
    ensures r == AddMethods(totals, methods)
  {
    r := totals;
    var remaining := methods.Keys;
    assert AddMethods(totals, Restrict(methods, methods.Keys - remaining)) == totals;
    while remaining != {}
      invariant remaining <= methods.Keys
      invariant r == AddMethods(totals, Restrict(methods, methods.Keys - remaining))
      decreases remaining
    {
      var m :| m in remaining;
      AddMethodsStep(totals, methods, remaining, m);
      r := r[m := AmountOf(r, m) + methods[m]];
      remaining := remaining - {m};
    }
    assert Restrict(methods, methods.Keys - remaining) == methods;
  }

  // ---------------------------------------------------------------- properties

  /** The per-method totals have a key for exactly the methods some transaction records, and
      each is the sum of that method's amounts over all transactions. */
  lemma {:induction false} MethodTotalsSpec(ts: seq<Transaction>, key: string)
    ensures key in MethodTotals(ts) <==> exists t :: t in ts && key in t.paymentMethods
    ensures key in MethodTotals(ts) ==> MethodTotals(ts)[key] == SumOf(ts, MethodAmount(key))
    decreases |ts|
  {
    if |ts| > 0 {
      var init := ts[..|ts| - 1];
      MethodTotalsSpec(init, key);
      assert ts == init + [ts[|ts| - 1]];
      if key in MethodTotals(ts) && key !in MethodTotals(init) {
        assert SumOf(init, MethodAmount(key)) == 0.0 by {
          SumOfZero(init, MethodAmount(key));
        }
      }
    }
  }

  lemma {:induction false} SumOfZero<T>(s: seq<T>, f: T -> real)
    requires forall x :: x in s ==> f(x) == 0.0
    ensures SumOf(s, f) == 0.0
    decreases |s|
  {
    if |s| > 0 {
      SumOfZero(s[..|s| - 1], f);
    }
  }

  /** Outstanding and advances are never negative, zero balances count in neither, and their
      difference is the sum of all balances. */
  lemma {:induction false} OutstandingSplit(ledgers: seq<CustomerLedger>)
    ensures SumOf(ledgers, OutstandingOf) >= 0.0 && SumOf(ledgers, AdvanceOf) >= 0.0
    ensures SumOf(ledgers, OutstandingOf) - SumOf(ledgers, AdvanceOf) == SumOf(ledgers, BalanceOf)
    decreases |ledgers|
  {
    if |ledgers| > 0 {
      OutstandingSplit(ledgers[..|ledgers| - 1]);
    }
  }

  predicate IsCashInOffice(t: Transaction) {
    t.kind == CashInOffice
  }

  /** Only cash-in-office rows move the cash in office. */
  lemma CashFromCashRowsOnly(ts: seq<Transaction>)
    ensures SumOf(ts, CashDelta) == SumOf(Filter(ts, IsCashInOffice), CashDelta)
  {
    SumOfFilter(ts, IsCashInOffice, CashDelta);
  }

  /** The summary depends on which transactions are shown, not on their order: in particular
      the date-sorted list `getTransactions` returns gives the same figures as the store order. */
  lemma SummaryPermutation(ts: seq<Transaction>, us: seq<Transaction>, ledgers: seq<CustomerLedger>)
    requires multiset(ts) == multiset(us)
    ensures Summarize(ts, ledgers) == Summarize(us, ledgers)
  {
    SumOfPermutation(ts, us, Credit);
    SumOfPermutation(ts, us, PaymentOf);
    SumOfPermutation(ts, us, CashDelta);
    assert |ts| == |multiset(ts)| == |us|;
    forall key ensures key in MethodTotals(ts) <==> key in MethodTotals(us) {
      MethodTotalsSpec(ts, key);
      MethodTotalsSpec(us, key);
      if exists t :: t in ts && key in t.paymentMethods {
        var t :| t in ts && key in t.paymentMethods;
        assert t in multiset(us);
      }
      if exists t :: t in us && key in t.paymentMethods {
        var t :| t in us && key in t.paymentMethods;
        assert t in multiset(ts);
      }
    }
    forall key | key in MethodTotals(ts) ensures MethodTotals(ts)[key] == MethodTotals(us)[key] {
      MethodTotalsSpec(ts, key);
      MethodTotalsSpec(us, key);
      SumOfPermutation(ts, us, MethodAmount(key));
    }
  }

  /** Listed in the order of `keys`, the ledgers' balances add up to the net effects of
      those keys' groups. */
  lemma {:induction false} LedgerBalances(ts: seq<Transaction>, keys: seq<string>)
    ensures SumOf(ValuesInOrder(BuildLedgers(ts), keys), BalanceOf) == GroupNets(ts, keys)
    decreases |keys|
  {
    if |keys| > 0 {
      var init := keys[..|keys| - 1];
      var k := keys[|keys| - 1];
      var m := BuildLedgers(ts);
      LedgerBalances(ts, init);
      LedgerBalanceNet(ts, k);
      if k in m {
        SumOfSnoc(ValuesInOrder(m, init), m[k], BalanceOf);
      } else {
        assert ValuesInOrder(m, keys) == ValuesInOrder(m, init) + [] == ValuesInOrder(m, init);
        assert SumOf(Group(ts, k), Net) == 0.0;
        assert GroupNets(ts, keys) == GroupNets(ts, init);
      }
    }
  }

  /** On a consistent store, the dashboard's outstanding amounts less its advances are the
      net effect (sales less payment and payment methods) of every customer row: the ledger
      split neither loses nor double-counts a customer transaction, and ignores expense and
      cash-in-office rows. */
  lemma DashboardBalance(db: DatabaseManager, transactions: seq<Transaction>)
    requires db.Valid()
    ensures var summary := Summarize(transactions, db.GetCustomerLedgers());
            summary.totalOutstanding - summary.totalAdvances == SumOf(Filter(db.transactions, IsCustomer), Net)
  {
    var listed := db.GetCustomerLedgers();
    var values := ValuesInOrder(db.customerLedgers, db.ledgerOrder);
    OutstandingSplit(listed);
    SumOfPermutation(listed, values, BalanceOf);
    LedgerBalances(db.transactions, db.ledgerOrder);
    GroupNetsAll(db.transactions);
  }
}
