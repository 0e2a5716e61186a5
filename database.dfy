/** The in-memory transaction store: the transaction list, the history of particulars typed so
    far, and the customer ledgers rebuilt from the list after every change, with the read-only
    queries the screens use. Persistence is not modelled: the store starts from a given list. */
module Database {
  import opened Text
  import opened Types
  import opened Sequences
  import opened Ledger

  // ---------------------------------------------------------------- building one ledger

  /** The body of the per-group callback of `updateCustomerLedgers`: sort the group by date,
      thread the running balance through it, and total it. */
  method ComputeLedger(group: seq<Transaction>) returns (ledger: CustomerLedger)
    requires |group| > 0
    ensures ledger == BuildLedger(group)
  {
    var sorted := SortByDate(group);
    var processed := AnnotateEntries(sorted);
    var totalSales := TotalSales(sorted);
    var totalPayments := TotalPayments(sorted);
    ledger := CustomerLedger(
      sorted[0].particulars, totalSales, totalPayments, totalSales - totalPayments,
      |group|, sorted[|sorted| - 1].date, processed);
  }

  /** The `sortedTransactions.map` with its `runningBalance` accumulator. */
  method AnnotateEntries(sorted: seq<Transaction>) returns (processed: seq<Transaction>)
    ensures processed == Annotate(sorted)
  {
    processed := [];
    var runningBalance := 0.0;
    var i := 0;
    while i < |sorted|
      invariant 0 <= i <= |sorted|
      invariant processed == Annotate(sorted[..i])
      invariant runningBalance == RunningBalance(sorted[..i])
    {
      var t := sorted[i];
      var creditAmount := t.sales;
      var methodsTotal := SumPaymentMethods(t.paymentMethods);
      var debitAmount := t.payment + methodsTotal;
      runningBalance := runningBalance + (creditAmount - debitAmount);
      AnnotateStep(sorted, i);
      processed := processed + [t.(creditAmount := Some(creditAmount), debitAmount := Some(debitAmount), balance := Some(runningBalance))];
      i := i + 1;
    }
    assert sorted[..i] == sorted;
  }

  /** `transactions.reduce((sum, t) => sum + t.sales, 0)`. */
  method TotalSales(sorted: seq<Transaction>) returns (totalSales: real)
    ensures totalSales == SumOf(sorted, Credit)
  {
    totalSales := 0.0;
    var i := 0;
    while i < |sorted|
      invariant 0 <= i <= |sorted|
      invariant totalSales == SumOf(sorted[..i], Credit)
    {
      totalSales := totalSales + sorted[i].sales;
      assert sorted[..i + 1][..i] == sorted[..i];
      i := i + 1;
    }
    assert sorted[..i] == sorted;
  }

  /** The `reduce` adding each payment and its payment methods. */
  method TotalPayments(sorted: seq<Transaction>) returns (totalPayments: real)
    ensures totalPayments == SumOf(sorted, Debit)
  {
    totalPayments := 0.0;
    var i := 0;
    while i < |sorted|
      invariant 0 <= i <= |sorted|
      invariant totalPayments == SumOf(sorted[..i], Debit)
    {
      var methodsTotal := SumPaymentMethods(sorted[i].paymentMethods);
      totalPayments := totalPayments + sorted[i].payment + methodsTotal;
      assert sorted[..i + 1][..i] == sorted[..i];
      i := i + 1;
    }
    assert sorted[..i] == sorted;
  }

  // ---------------------------------------------------------------- partial updates

  /** `Partial<Transaction>`: each field either given or absent. */
  datatype TransactionUpdate = TransactionUpdate(
    id: Option<string>,
    date: Option<string>,
    particulars: Option<string>,
    sales: Option<real>,
    payment: Option<real>,
    paymentMethods: Option<map<string, real>>,
    kind: Option<TxType>,
    creditAmount: Option<Option<real>>,
    debitAmount: Option<Option<real>>,
    balance: Option<Option<real>>)

  function Pick<T>(update: Option<T>, current: T): T {
    if update.Some? then update.value else current
  }

  /** `{ ...t, ...updates }`: an update without an id keeps the row findable under its id, and
      one that leaves the amounts alone keeps the row's credit and debit. */
  function Merge(t: Transaction, u: TransactionUpdate): (r: Transaction)
    ensures u.id.None? ==> r.id == t.id
    ensures u.sales.None? ==> Credit(r) == Credit(t)
    ensures u.payment.None? && u.paymentMethods.None? ==> Debit(r) == Debit(t)
  {
    Transaction(
      Pick(u.id, t.id), Pick(u.date, t.date), Pick(u.particulars, t.particulars),
      Pick(u.sales, t.sales), Pick(u.payment, t.payment), Pick(u.paymentMethods, t.paymentMethods),
      Pick(u.kind, t.kind), Pick(u.creditAmount, t.creditAmount), Pick(u.debitAmount, t.debitAmount),
      Pick(u.balance, t.balance))
  }

  const NoUpdate := TransactionUpdate(None, None, None, None, None, None, None, None, None, None)

  /** An empty update changes nothing, and applying an update twice is applying it once. */
  lemma MergeLaws(t: Transaction, u: TransactionUpdate)
    ensures Merge(t, NoUpdate) == t
    ensures Merge(Merge(t, u), u) == Merge(t, u)
  {
  }

  /** Each field the update gives is taken from it; every other field is kept. */
  lemma MergeFields(t: Transaction, u: TransactionUpdate)
    ensures Merge(t, u).id == (if u.id.Some? then u.id.value else t.id)
    ensures Merge(t, u).date == (if u.date.Some? then u.date.value else t.date)
    ensures Merge(t, u).particulars == (if u.particulars.Some? then u.particulars.value else t.particulars)
    ensures Merge(t, u).sales == (if u.sales.Some? then u.sales.value else t.sales)
    ensures Merge(t, u).payment == (if u.payment.Some? then u.payment.value else t.payment)
    ensures Merge(t, u).paymentMethods == (if u.paymentMethods.Some? then u.paymentMethods.value else t.paymentMethods)
    ensures Merge(t, u).kind == (if u.kind.Some? then u.kind.value else t.kind)
    ensures Merge(t, u).creditAmount == (if u.creditAmount.Some? then u.creditAmount.value else t.creditAmount)
    ensures Merge(t, u).debitAmount == (if u.debitAmount.Some? then u.debitAmount.value else t.debitAmount)
    ensures Merge(t, u).balance == (if u.balance.Some? then u.balance.value else t.balance)
  {
  }

  /** JavaScript truthiness of an optional string: given and not empty. */
  predicate Given(s: Option<string>) {
    s.Some? && s.value != ""
  }

  /** The first position holding id `id`, if any. */
  function FirstIndexOf(ts: seq<Transaction>, id: string): (r: Option<nat>)
    ensures r.None? ==> forall i :: 0 <= i < |ts| ==> ts[i].id != id
    ensures r.Some? ==> r.value < |ts| && ts[r.value].id == id
    ensures r.Some? ==> forall i :: 0 <= i < r.value ==> ts[i].id != id
    decreases |ts|
  {
    if |ts| == 0 then None
    else if ts[0].id == id then Some(0)
    else
      match FirstIndexOf(ts[1..], id)
      case None => None
      case Some(i) => Some(i + 1)
  }

  /** `transactions.findIndex(t => t.id === id)`. */
  method FindIndex(ts: seq<Transaction>, id: string) returns (index: int)
    ensures -1 <= index < |ts|
    ensures index == -1 <==> FirstIndexOf(ts, id).None?
    ensures index >= 0 ==> FirstIndexOf(ts, id) == Some(index)
  {
    index := 0;
    while index < |ts|
      invariant 0 <= index <= |ts|
      invariant forall i :: 0 <= i < index ==> ts[i].id != id
    {
      if ts[index].id == id {
        return;
      }
      index := index + 1;
    }
    index := -1;
  }

  // ---------------------------------------------------------------- query helpers

  /** Filters for `getTransactions`; an absent filter object is all three absent. */
  datatype TransactionFilters = TransactionFilters(startDate: Option<string>, endDate: Option<string>, particulars: Option<string>)

  function OnOrAfter(start: string): Transaction -> bool {
    (t: Transaction) => LexLe(start, t.date)
  }

  function OnOrBefore(end: string): Transaction -> bool {
    (t: Transaction) => LexLe(t.date, end)
  }

  /** Case-insensitive substring match on particulars. */
  function Mentions(text: string): Transaction -> bool {
    (t: Transaction) => Contains(Lower(t.particulars), Lower(text))
  }

  /** The three filters of `getTransactions`, applied in turn, each only when given. */
  function FilterTransactions(ts: seq<Transaction>, f: TransactionFilters): (r: seq<Transaction>)
    ensures |r| <= |ts|
    ensures forall x :: x in r <==> x in ts && Matches(x, f)
  {
    var afterStart := if Given(f.startDate) then Filter(ts, OnOrAfter(f.startDate.value)) else ts;
    var beforeEnd := if Given(f.endDate) then Filter(afterStart, OnOrBefore(f.endDate.value)) else afterStart;
    var r := if Given(f.particulars) then Filter(beforeEnd, Mentions(f.particulars.value)) else beforeEnd;
    assert forall x :: x in r <==> x in ts && Matches(x, f) by {
      forall x ensures x in r <==> x in ts && Matches(x, f) {
        if Given(f.startDate) {
          FilterMember(ts, OnOrAfter(f.startDate.value), x);
        }
        if Given(f.endDate) {
          FilterMember(afterStart, OnOrBefore(f.endDate.value), x);
        }
        if Given(f.particulars) {
          FilterMember(beforeEnd, Mentions(f.particulars.value), x);
        }
      }
    }
    r
  }

  /** What a transaction must satisfy to be listed. */
  predicate Matches(t: Transaction, f: TransactionFilters) {
    && (Given(f.startDate) ==> LexLe(f.startDate.value, t.date))
    && (Given(f.endDate) ==> LexLe(t.date, f.endDate.value))
    && (Given(f.particulars) ==> Contains(Lower(t.particulars), Lower(f.particulars.value)))
  }

  lemma FilterTransactionsCount(ts: seq<Transaction>, f: TransactionFilters)
    ensures forall x :: multiset(FilterTransactions(ts, f))[x] == if Matches(x, f) then multiset(ts)[x] else 0
  {
    forall x ensures multiset(FilterTransactions(ts, f))[x] == if Matches(x, f) then multiset(ts)[x] else 0 {
      var afterStart := if Given(f.startDate) then Filter(ts, OnOrAfter(f.startDate.value)) else ts;
      var beforeEnd := if Given(f.endDate) then Filter(afterStart, OnOrBefore(f.endDate.value)) else afterStart;
      if Given(f.startDate) {
        FilterCount(ts, OnOrAfter(f.startDate.value), x);
      }
      if Given(f.endDate) {
        FilterCount(afterStart, OnOrBefore(f.endDate.value), x);
      }
      if Given(f.particulars) {
        FilterCount(beforeEnd, Mentions(f.particulars.value), x);
      }
    }
  }

  /** `new Date(b.date) - new Date(a.date)` as a preorder: later dates first. */
  predicate DateGe(a: Transaction, b: Transaction) {
    LexLe(b.date, a.date)
  }

  lemma DateGeTotalPreorder()
    ensures TotalPreorder(DateGe)
  {
    forall a: Transaction, b: Transaction ensures DateGe(a, b) || DateGe(b, a) {
      LexLeTotal(a.date, b.date);
    }
    forall a: Transaction, b: Transaction, c: Transaction | DateGe(a, b) && DateGe(b, c)
      ensures DateGe(a, c)
    {
      LexLeTransitive(c.date, b.date, a.date);
    }
  }

  /** `Math.abs(b.currentBalance) - Math.abs(a.currentBalance)` as a preorder: larger
      balances, in either direction, first. */
  predicate AbsGe(a: CustomerLedger, b: CustomerLedger) {
    Abs(b.currentBalance) <= Abs(a.currentBalance)
  }

  lemma AbsGeTotalPreorder()
    ensures TotalPreorder(AbsGe)
  {
  }

  predicate HasBalance(l: CustomerLedger) {
    l.currentBalance != 0.0
  }

  /** `Array.from(map.values())`: the values of `m` in key insertion order `keys`. */
  function ValuesInOrder(m: map<string, CustomerLedger>, keys: seq<string>): (r: seq<CustomerLedger>)
    ensures |r| <= |keys|
    decreases |keys|
  {
    if |keys| == 0 then []
    else
      var k := keys[|keys| - 1];
      ValuesInOrder(m, keys[..|keys| - 1]) + (if k in m then [m[k]] else [])
  }

  /** The listed values are the values of the listed keys. */
  lemma {:induction false} ValuesInOrderMember(m: map<string, CustomerLedger>, keys: seq<string>, x: CustomerLedger)
    ensures x in ValuesInOrder(m, keys) <==> exists k :: k in keys && k in m && m[k] == x
    decreases |keys|
  {
    if |keys| > 0 {
      var init := keys[..|keys| - 1];
      var k := keys[|keys| - 1];
      ValuesInOrderMember(m, init, x);
      if exists j :: j in keys && j in m && m[j] == x {
        var j :| j in keys && j in m && m[j] == x;
        if j != k {
          assert j in init;
        }
      }
    }
  }

  /** Distinct keys with distinct values list each value once. */
  lemma {:induction false} ValuesInOrderDistinct(m: map<string, CustomerLedger>, keys: seq<string>)
    requires Distinct(keys)
    requires forall j, k :: j in m && k in m && m[j] == m[k] ==> j == k
    ensures Distinct(ValuesInOrder(m, keys))
    decreases |keys|
  {
    if |keys| > 0 {
      var init := keys[..|keys| - 1];
      var k := keys[|keys| - 1];
      ValuesInOrderDistinct(m, init);
      if k in m {
        ValuesInOrderMember(m, init, m[k]);
        assert m[k] !in ValuesInOrder(m, init);
      }
    }
  }

  /** The groups of `ts` are exactly the entries of `grouped`, listed in the order `keys`. */
  ghost predicate GroupedAs(ts: seq<Transaction>, grouped: map<string, seq<Transaction>>, keys: seq<string>) {
    && keys == GroupKeys(ts)
    && (forall k :: k in grouped <==> k in keys)
    && (forall k :: k in grouped ==> grouped[k] == Group(ts, k))
  }

  /** One step of the grouping pass: a customer row is pushed onto its key's list, which is
      created first (and its key listed) when the key is new. */
  lemma GroupStep(ts: seq<Transaction>, t: Transaction, grouped: map<string, seq<Transaction>>, keys: seq<string>)
    requires GroupedAs(ts, grouped, keys)
    requires t.kind == Customer
    ensures var key := Key(t.particulars);
            GroupedAs(ts + [t], grouped[key := (if key in grouped then grouped[key] else []) + [t]],
                      if key in grouped then keys else keys + [key])
  {
    var key := Key(t.particulars);
    var current := if key in grouped then grouped[key] else [];
    var grouped' := grouped[key := current + [t]];
    var keys' := if key in grouped then keys else keys + [key];
    GroupKeysSnoc(ts, t);
    assert keys' == GroupKeys(ts + [t]);
    assert forall k :: k in grouped' <==> k in keys';
    assert current == Group(ts, key) by {
      GroupKeysSpec(ts);
    }
    forall k | k in grouped' ensures grouped'[k] == Group(ts + [t], k) {
      GroupSnoc(ts, t, k);
    }
  }

  /** A row of another type leaves the groups as they are. */
  lemma GroupSkip(ts: seq<Transaction>, t: Transaction, grouped: map<string, seq<Transaction>>, keys: seq<string>)
    requires GroupedAs(ts, grouped, keys)
    requires t.kind != Customer
    ensures GroupedAs(ts + [t], grouped, keys)
  {
    GroupKeysSnoc(ts, t);
    forall k | k in grouped ensures grouped[k] == Group(ts + [t], k) {
      GroupSnoc(ts, t, k);
    }
  }

  /** The grouping pass of `updateCustomerLedgers`: the customer rows collected per key into
      a `Map`, whose keys come in first-appearance order. */
  method GroupCustomers(ts: seq<Transaction>) returns (grouped: map<string, seq<Transaction>>, keys: seq<string>)
    ensures keys == GroupKeys(ts)
    ensures forall k :: k in grouped <==> k in keys
    ensures forall k :: k in grouped ==> grouped[k] == Group(ts, k)
  {
    grouped := map[];
    keys := [];
    var i := 0;
    while i < |ts|
      invariant 0 <= i <= |ts|
      invariant GroupedAs(ts[..i], grouped, keys)
    {
      var t := ts[i];
      assert ts[..i + 1] == ts[..i] + [t];
      if t.kind == Customer {
        var key := Key(t.particulars);
        GroupStep(ts[..i], t, grouped, keys);
        // a missing key gets an empty list (and is listed) before the push
        var list := if key in grouped then grouped[key] else [];
        if key !in grouped {
          keys := keys + [key];
        }
        grouped := grouped[key := list + [t]];
      } else {
        GroupSkip(ts[..i], t, grouped, keys);
      }
      i := i + 1;
    }
    assert ts[..i] == ts;
  }

  /** The `groupedTransactions.forEach` building one ledger per key, in key order. */
  method LedgersOfGroups(ghost ts: seq<Transaction>, grouped: map<string, seq<Transaction>>, keys: seq<string>)
    returns (ledgers: map<string, CustomerLedger>)
    requires forall k :: k in keys ==> k in grouped && grouped[k] == Group(ts, k) && |Group(ts, k)| > 0
    ensures ledgers == LedgersFor(ts, keys)
  {
    ledgers := map[];
    var j := 0;
    while j < |keys|
      invariant 0 <= j <= |keys|
      invariant ledgers == LedgersFor(ts, keys[..j])
    {
      var key := keys[j];
      assert keys[..j + 1] == keys[..j] + [key];
      LedgersForSnoc(ts, keys[..j], key);
      var ledger := ComputeLedger(grouped[key]);
      ledgers := ledgers[key := ledger];
      j := j + 1;
    }
    assert keys[..j] == keys;
  }

  // ---------------------------------------------------------------- the history

  /** Every non-empty particulars in `ts` is recorded in `history`. */
  ghost predicate Covers(ts: seq<Transaction>, history: set<string>)
    decreases |ts|
  {
    |ts| == 0 || (Covers(ts[..|ts| - 1], history) && Recorded(ts[|ts| - 1], history))
  }

  ghost predicate Recorded(t: Transaction, history: set<string>) {
    t.particulars != "" ==> t.particulars in history
  }

  lemma {:induction false} CoversEach(ts: seq<Transaction>, history: set<string>)
    ensures Covers(ts, history) <==> forall i :: 0 <= i < |ts| ==> Recorded(ts[i], history)
    decreases |ts|
  {
    if |ts| > 0 {
      CoversEach(ts[..|ts| - 1], history);
    }
  }

  lemma CoversAppend(ts: seq<Transaction>, history: set<string>, batch: seq<Transaction>)
    requires Covers(ts, history)
    ensures Covers(ts + batch, history + (set t | t in batch :: t.particulars))
  {
    var all := ts + batch;
    var history' := history + (set t | t in batch :: t.particulars);
    CoversEach(ts, history);
    forall i | 0 <= i < |all| ensures Recorded(all[i], history') {
      if i >= |ts| {
        assert all[i] == batch[i - |ts|];
      } else {
        assert Recorded(ts[i], history);
      }
    }
    CoversEach(all, history');
  }

  lemma CoversUpdate(ts: seq<Transaction>, history: set<string>, i: nat, u: TransactionUpdate, history': set<string>)
    requires Covers(ts, history) && i < |ts|
    requires history <= history' && (Given(u.particulars) ==> u.particulars.value in history')
    ensures Covers(ts[i := Merge(ts[i], u)], history')
  {
    var ts' := ts[i := Merge(ts[i], u)];
    CoversEach(ts, history);
    forall j | 0 <= j < |ts'| ensures Recorded(ts'[j], history') {
      assert Recorded(ts[j], history);
    }
    CoversEach(ts', history');
  }

  // ---------------------------------------------------------------- the store

  class DatabaseManager {
    var transactions: seq<Transaction>
    var particularsHistory: set<string>
    var customerLedgers: map<string, CustomerLedger>
    /** The insertion order of `customerLedgers`, which `Map.prototype.values` follows. */
    var ledgerOrder: seq<string>

    /** The ledgers are those of the current transaction list. */
    ghost predicate LedgersCurrent()
      reads this`transactions, this`customerLedgers, this`ledgerOrder
    {
      customerLedgers == BuildLedgers(transactions) && ledgerOrder == GroupKeys(transactions)
    }

    /** Every non-empty particulars in the store has been recorded in the history. */
    ghost predicate HistoryCovers()
      reads this`transactions, this`particularsHistory
    {
      Covers(transactions, particularsHistory)
    }

    ghost predicate Valid()
      reads this
    {
      LedgersCurrent() && HistoryCovers()
    }

    /** The store loaded with `stored` (the empty list when nothing was saved). */
    constructor (stored: seq<Transaction>)
      ensures transactions == stored
      ensures particularsHistory == (set t | t in stored :: t.particulars)
      ensures Valid()
    {
      transactions := stored;
      particularsHistory := {};
      customerLedgers := map[];
      ledgerOrder := [];
      new;
      AddToHistory(stored);
      assert [] + stored == stored;
      CoversAppend([], {}, stored);
      UpdateCustomerLedgers();
    }

    /** `batch.forEach(t => this.particularsHistory.add(t.particulars))`. */
    method AddToHistory(batch: seq<Transaction>)
      modifies this`particularsHistory
      ensures particularsHistory == old(particularsHistory) + (set t | t in batch :: t.particulars)
    {
      var i := 0;
      while i < |batch|
        invariant 0 <= i <= |batch|
        invariant particularsHistory == old(particularsHistory) + (set t | t in batch[..i] :: t.particulars)
      {
        particularsHistory := particularsHistory + {batch[i].particulars};
        assert batch[..i + 1] == batch[..i] + [batch[i]];
        i := i + 1;
      }
      assert batch[..i] == batch;
    }

    /** Rebuilds every customer ledger from the transaction list. */
    method UpdateCustomerLedgers()
      modifies this`customerLedgers, this`ledgerOrder
      ensures LedgersCurrent()
      ensures transactions == old(transactions) && particularsHistory == old(particularsHistory)
    {
      var grouped, keys := GroupCustomers(transactions);
      GroupKeysSpec(transactions);
      customerLedgers := LedgersOfGroups(transactions, grouped, keys);
      ledgerOrder := keys;
    }

    /** Appends a batch, records its particulars and rebuilds the ledgers. */
    method AddTransactions(batch: seq<Transaction>)
      requires Valid()
      modifies this
      ensures transactions == old(transactions) + batch
      ensures particularsHistory == old(particularsHistory) + (set t | t in batch :: t.particulars)
      ensures Valid()
    {
      CoversAppend(transactions, particularsHistory, batch);
      transactions := transactions + batch;
      AddToHistory(batch);
      UpdateCustomerLedgers();
    }

    /** Shallow-merges `updates` into the first transaction with id `id`; an unknown id
        changes nothing. */
    method UpdateTransaction(id: string, updates: TransactionUpdate)
      requires Valid()
      modifies this
      ensures FirstIndexOf(old(transactions), id).None? ==> unchanged(this)
      ensures FirstIndexOf(old(transactions), id).Some? ==>
                var i := FirstIndexOf(old(transactions), id).value;
                && transactions == old(transactions)[i := Merge(old(transactions)[i], updates)]
                && particularsHistory == old(particularsHistory)
                                         + (if Given(updates.particulars) then {updates.particulars.value} else {})
      ensures Valid()
    {
      var index := FindIndex(transactions, id);
      if index != -1 {
        ghost var before := transactions;
        transactions := transactions[index := Merge(transactions[index], updates)];
        if Given(updates.particulars) {
          particularsHistory := particularsHistory + {updates.particulars.value};
        }
        CoversUpdate(before, old(particularsHistory), index, updates, particularsHistory);
        UpdateCustomerLedgers();
      }
    }

    /** Empties the store. */
    method ClearAllData()
      modifies this
      ensures transactions == [] && particularsHistory == {}
      ensures customerLedgers == map[] && ledgerOrder == []
      ensures Valid()
    {
      transactions := [];
      particularsHistory := {};
      customerLedgers := map[];
      ledgerOrder := [];
    }

    /** The transactions passing every given filter, latest date first; entries with equal
        dates keep their relative order. */
    function GetTransactions(filters: TransactionFilters): (r: seq<Transaction>)
      reads this
      ensures SortedBy(r, DateGe)
      ensures forall x :: multiset(r)[x] == if Matches(x, filters) then multiset(transactions)[x] else 0
      ensures forall x :: Equivalents(r, x, DateGe) == Equivalents(FilterTransactions(transactions, filters), x, DateGe)
    {
      var filtered := FilterTransactions(transactions, filters);
      DateGeTotalPreorder();
      SortBySorted(filtered, DateGe);
      SortByPermutation(filtered, DateGe);
      FilterTransactionsCount(transactions, filters);
      SortByStableAll(filtered, DateGe);
      SortBy(filtered, DateGe)
    }

    /** Every ledger, largest absolute balance first; equal magnitudes keep insertion order. */
    function GetCustomerLedgers(): (r: seq<CustomerLedger>)
      reads this
      ensures SortedBy(r, AbsGe)
      ensures multiset(r) == multiset(ValuesInOrder(customerLedgers, ledgerOrder))
      ensures forall x :: Equivalents(r, x, AbsGe) == Equivalents(ValuesInOrder(customerLedgers, ledgerOrder), x, AbsGe)
    {
      var values := ValuesInOrder(customerLedgers, ledgerOrder);
      AbsGeTotalPreorder();
      SortBySorted(values, AbsGe);
      SortByPermutation(values, AbsGe);
      SortByStableAll(values, AbsGe);
      SortBy(values, AbsGe)
    }

    /** The ledger of the customer whose normalised name is that of `particulars`. */
    function GetCustomerLedger(particulars: string): (r: Option<CustomerLedger>)
      reads this
      ensures r.Some? <==> Key(particulars) in customerLedgers
      ensures r.Some? ==> r.value == customerLedgers[Key(particulars)]
    {
      var key := Key(particulars);
      if key in customerLedgers then Some(customerLedgers[key]) else None
    }

    /** The ledgers whose balance is not zero, in the order of `GetCustomerLedgers`. */
    function GetCustomersWithOutstanding(): (r: seq<CustomerLedger>)
      reads this
      ensures forall x :: x in r <==> x in GetCustomerLedgers() && x.currentBalance != 0.0
      ensures forall x :: multiset(r)[x] == if x.currentBalance != 0.0 then multiset(GetCustomerLedgers())[x] else 0
      ensures SortedBy(r, AbsGe)
      ensures forall x :: Equivalents(r, x, AbsGe) == Filter(Equivalents(GetCustomerLedgers(), x, AbsGe), HasBalance)
    {
      var all := GetCustomerLedgers();
      var r := Filter(all, HasBalance);
      FilterMemberAll(all, HasBalance);
      FilterSorted(all, HasBalance, AbsGe);
      assert forall x :: multiset(r)[x] == if x.currentBalance != 0.0 then multiset(all)[x] else 0 by {
        forall x ensures multiset(r)[x] == if x.currentBalance != 0.0 then multiset(all)[x] else 0 {
          FilterCount(all, HasBalance, x);
        }
      }
      assert forall x :: Equivalents(r, x, AbsGe) == Filter(Equivalents(all, x, AbsGe), HasBalance) by {
        forall x ensures Equivalents(r, x, AbsGe) == Filter(Equivalents(all, x, AbsGe), HasBalance) {
          FilterEquivalents(all, HasBalance, x, AbsGe);
        }
      }
      r
    }

    /** The history, without repetitions, in string order. */
    method GetParticularsHistory() returns (r: seq<string>)
      ensures forall p :: p in r <==> p in particularsHistory
      ensures SortedBy(r, LexLe)
      ensures Distinct(r)
    {
      var items: seq<string> := [];
      var remaining := particularsHistory;
      while remaining != {}
        invariant remaining <= particularsHistory
        invariant forall p :: p in particularsHistory <==> p in items || p in remaining
        invariant forall p :: p in items ==> p !in remaining
        invariant Distinct(items)
        decreases remaining
      {
        var p :| p in remaining;
        items := items + [p];
        remaining := remaining - {p};
      }
      r := SortBy(items, LexLe);
      LexLeTotalPreorder();
      SortBySorted(items, LexLe);
      SortByPermutation(items, LexLe);
      PermutationDistinct(r, items);
      forall p ensures p in r <==> p in items {
        assert p in r <==> p in multiset(r);
        assert p in items <==> p in multiset(items);
      }
    }

    // -------------------------------------------------------------- properties of the store

    /** `GetCustomerLedgers` lists every ledger of the map exactly once. */
    lemma LedgersListedOnce()
      requires Valid()
      ensures forall x :: x in GetCustomerLedgers() <==> exists k :: k in customerLedgers && customerLedgers[k] == x
      ensures Distinct(GetCustomerLedgers())
    {
      var m := customerLedgers;
      var values := ValuesInOrder(m, ledgerOrder);
      LedgersDomain(transactions);
      forall j, k | j in m && k in m && m[j] == m[k] ensures j == k {
        LedgerNameKey(transactions, j);
        LedgerNameKey(transactions, k);
      }
      ValuesInOrderDistinct(m, ledgerOrder);
      forall x ensures x in GetCustomerLedgers() <==> exists k :: k in m && m[k] == x {
        ValuesInOrderMember(m, ledgerOrder, x);
        assert x in GetCustomerLedgers() <==> x in multiset(GetCustomerLedgers());
        assert x in values <==> x in multiset(values);
      }
      PermutationDistinct(GetCustomerLedgers(), values);
    }

    /** A lookup finds a ledger exactly when some customer row normalises to the same name,
        and the ledger found is the one built from all such rows. */
    lemma LookupFindsGroup(particulars: string)
      requires Valid()
      ensures GetCustomerLedger(particulars).Some? <==> exists t :: t in transactions && InGroup(t, Key(particulars))
      ensures GetCustomerLedger(particulars).Some? ==> |Group(transactions, Key(particulars))| > 0
      ensures GetCustomerLedger(particulars).Some? ==>
                GetCustomerLedger(particulars).value == BuildLedger(Group(transactions, Key(particulars)))
    {
      LedgerKeys(transactions, Key(particulars));
      if Key(particulars) in customerLedgers {
        LedgerOf(transactions, Key(particulars));
      }
    }

    /** Looking a listed ledger up by its own display name returns it. */
    lemma LookupByDisplayName(key: string)
      requires Valid() && key in customerLedgers
      ensures GetCustomerLedger(customerLedgers[key].particulars) == Some(customerLedgers[key])
    {
      LedgerNameKey(transactions, key);
    }
  }

  /** String order relates two names both ways only when they are equal, so a set of names has
      exactly one sorted listing without repeats: the history listing is fixed by the history
      alone, whatever order the set is walked in. */
  lemma SortedListingUnique(a: seq<string>, b: seq<string>)
    requires SortedBy(a, LexLe) && SortedBy(b, LexLe) && Distinct(a) && Distinct(b)
    requires forall x :: x in a <==> x in b
    ensures a == b
  {
    assert Antisymmetric(LexLe) by {
      forall x, y | LexLe(x, y) && LexLe(y, x) ensures x == y {
        LexLeAntisymmetric(x, y);
      }
    }
    SortedDistinctUnique(a, b, LexLe);
  }

  // ---------------------------------------------------------------- lemma plumbing

  lemma SortByStableAll<T(!new)>(s: seq<T>, le: (T, T) -> bool)
    requires TotalPreorder(le)
    ensures forall x :: Equivalents(SortBy(s, le), x, le) == Equivalents(s, x, le)
  {
    forall x ensures Equivalents(SortBy(s, le), x, le) == Equivalents(s, x, le) {
      SortByStable(s, x, le);
    }
  }

  lemma FilterMemberAll<T>(s: seq<T>, p: T -> bool)
    ensures forall x :: x in Filter(s, p) <==> x in s && p(x)
  {
    forall x ensures x in Filter(s, p) <==> x in s && p(x) {
      FilterMember(s, p, x);
    }
  }

  lemma LexLeTotalPreorder()
    ensures TotalPreorder(LexLe)
  {
    forall a, b ensures LexLe(a, b) || LexLe(b, a) {
      LexLeTotal(a, b);
    }
    forall a, b, c | LexLe(a, b) && LexLe(b, c) ensures LexLe(a, c) {
      LexLeTransitive(a, b, c);
    }
  }
}
