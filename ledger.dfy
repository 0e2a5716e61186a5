/** What `updateCustomerLedgers` derives from the stored transactions, stated as functions of
    the transaction list: the customer rows grouped by a normalised name, each group sorted by
    date, a running balance threaded through it, and the group's totals. */
module Ledger {
  import opened Text
  import opened Types
  import opened Sequences

  /** The grouping key of a customer: `particulars.toLowerCase().trim()`. */
  function Key(particulars: string): string {
    Trim(Lower(particulars))
  }

  predicate InGroup(t: Transaction, key: string) {
    t.kind == Customer && Key(t.particulars) == key
  }

  /** The customer rows with grouping key `key`, in store order. */
  function Group(ts: seq<Transaction>, key: string): seq<Transaction>
    decreases |ts|
  {
    if |ts| == 0 then []
    else
      var last := ts[|ts| - 1];
      Group(ts[..|ts| - 1], key) + (if InGroup(last, key) then [last] else [])
  }

  /** Every row of a group is a customer row with the group's key. */
  lemma {:induction false} GroupMembers(ts: seq<Transaction>, key: string)
    ensures forall x :: x in Group(ts, key) ==> InGroup(x, key)
    decreases |ts|
  {
    if |ts| > 0 {
      GroupMembers(ts[..|ts| - 1], key);
    }
  }

  /** The grouping keys in the order their first customer row appears: the insertion order
      of the `Map` the source groups into. */
  function GroupKeys(ts: seq<Transaction>): seq<string>
    decreases |ts|
  {
    if |ts| == 0 then []
    else
      var keys := GroupKeys(ts[..|ts| - 1]);
      var last := ts[|ts| - 1];
      keys + (if last.kind == Customer && Key(last.particulars) !in keys then [Key(last.particulars)] else [])
  }

  /** The keys listed are exactly those with a non-empty group, each once. */
  lemma {:induction false} GroupKeysSpec(ts: seq<Transaction>)
    ensures forall k :: k in GroupKeys(ts) <==> |Group(ts, k)| > 0
    ensures Distinct(GroupKeys(ts))
    decreases |ts|
  {
    if |ts| > 0 {
      GroupKeysSpec(ts[..|ts| - 1]);
    }
  }

  lemma GroupKeysDistinct(ts: seq<Transaction>)
    ensures Distinct(GroupKeys(ts))
  {
    GroupKeysSpec(ts);
  }

  /** A group holds every customer row of its key as often as the store does, and nothing
      else: the groups partition the customer rows. */
  lemma {:induction false} GroupCount(ts: seq<Transaction>, key: string, x: Transaction)
    ensures multiset(Group(ts, key))[x] == if InGroup(x, key) then multiset(ts)[x] else 0
    decreases |ts|
  {
    if |ts| > 0 {
      GroupCount(ts[..|ts| - 1], key, x);
      assert ts == ts[..|ts| - 1] + [ts[|ts| - 1]];
    }
  }

  // ---------------------------------------------------------------- date order

  /** `new Date(a.date) <= new Date(b.date)`; for well-formed ISO dates this is string order. */
  predicate DateLe(a: Transaction, b: Transaction) {
    LexLe(a.date, b.date)
  }

  lemma DateLeTotalPreorder()
    ensures TotalPreorder(DateLe)
  {
    forall a: Transaction, b: Transaction ensures DateLe(a, b) || DateLe(b, a) {
      LexLeTotal(a.date, b.date);
    }
    forall a: Transaction, b: Transaction, c: Transaction | DateLe(a, b) && DateLe(b, c)
      ensures DateLe(a, c)
    {
      LexLeTransitive(a.date, b.date, c.date);
    }
  }

  /** The stable ascending date sort of a group. */
  function SortByDate(g: seq<Transaction>): (r: seq<Transaction>)
    ensures |r| == |g|
  {
    SortBy(g, DateLe)
  }

  // ---------------------------------------------------------------- running balance

  /** The running balance after the entries of `s`: credits minus debits so far. */
  ghost function RunningBalance(s: seq<Transaction>): real {
    SumOf(s, Net)
  }

  /** `{...t, creditAmount, debitAmount, balance}`. */
  ghost function Annotated(t: Transaction, balance: real): Transaction {
    t.(creditAmount := Some(Credit(t)), debitAmount := Some(Debit(t)), balance := Some(balance))
  }

  /** The entries of a ledger: each transaction annotated with its credit, its debit and the
      running balance after it. */
  ghost function Annotate(s: seq<Transaction>): (r: seq<Transaction>)
    ensures |r| == |s|
    decreases |s|
  {
    if |s| == 0 then [] else Annotate(s[..|s| - 1]) + [Annotated(s[|s| - 1], RunningBalance(s))]
  }

  ghost function BuildLedger(group: seq<Transaction>): (r: CustomerLedger)
    requires |group| > 0
    ensures r.transactionCount == |group| && |r.transactions| == |group|
    ensures r.currentBalance == r.totalSales - r.totalPayments
  {
    var sorted := SortByDate(group);
    var totalSales := SumOf(sorted, Credit);
    var totalPayments := SumOf(sorted, Debit);
    CustomerLedger(
      sorted[0].particulars, totalSales, totalPayments, totalSales - totalPayments,
      |sorted|, sorted[|sorted| - 1].date, Annotate(sorted))
  }

  /** The ledgers of the keys `keys`, set in that order; a key without rows gets none. */
  ghost function LedgersFor(ts: seq<Transaction>, keys: seq<string>): map<string, CustomerLedger>
    decreases |keys|
  {
    if |keys| == 0 then map[]
    else
      var key := keys[|keys| - 1];
      var ledgers := LedgersFor(ts, keys[..|keys| - 1]);
      var group := Group(ts, key);
      if |group| > 0 then ledgers[key := BuildLedger(group)] else ledgers
  }

  /** The ledger map `updateCustomerLedgers` builds: one ledger per grouping key. */
  ghost function BuildLedgers(ts: seq<Transaction>): (r: map<string, CustomerLedger>)
    ensures forall k :: k in r ==> |Group(ts, k)| > 0 && r[k] == BuildLedger(Group(ts, k))
  {
    var r := LedgersFor(ts, GroupKeys(ts));
    assert forall k :: k in r ==> |Group(ts, k)| > 0 && r[k] == BuildLedger(Group(ts, k)) by {
      forall k | k in r ensures |Group(ts, k)| > 0 && r[k] == BuildLedger(Group(ts, k)) {
        LedgersForSpec(ts, GroupKeys(ts), k);
      }
    }
    r
  }

  lemma {:induction false} LedgersForSpec(ts: seq<Transaction>, keys: seq<string>, key: string)
    ensures key in LedgersFor(ts, keys) <==> key in keys && |Group(ts, key)| > 0
    ensures key in LedgersFor(ts, keys) ==> |Group(ts, key)| > 0 && LedgersFor(ts, keys)[key] == BuildLedger(Group(ts, key))
    decreases |keys|
  {
    if |keys| > 0 {
      var init, last := keys[..|keys| - 1], keys[|keys| - 1];
      LedgersForSpec(ts, init, key);
      LedgersForSnoc(ts, init, last);
      assert keys == init + [last];
    }
  }

  // ---------------------------------------------------------------- properties

  /** There is a ledger for a key exactly when some customer row has that key. */
  lemma LedgerKeys(ts: seq<Transaction>, key: string)
    ensures key in BuildLedgers(ts) <==> exists t :: t in ts && InGroup(t, key)
  {
    GroupKeysSpec(ts);
    LedgersForSpec(ts, GroupKeys(ts), key);
    if key in BuildLedgers(ts) {
      var x := Group(ts, key)[0];
      assert x in multiset(Group(ts, key));
      GroupCount(ts, key, x);
    }
    if exists t :: t in ts && InGroup(t, key) {
      var t :| t in ts && InGroup(t, key);
      GroupCount(ts, key, t);
      assert t in multiset(Group(ts, key));
    }
  }

  /** The rows behind ledger `key` (its entries before annotation) are, counted with
      multiplicity, exactly the customer rows of the store with that key; in particular no
      expense or cash-in-office row is in any ledger, and no customer row is in two. */
  lemma LedgerPartition(ts: seq<Transaction>, key: string, x: Transaction)
    ensures multiset(SortByDate(Group(ts, key)))[x]
         == if x.kind == Customer && Key(x.particulars) == key then multiset(ts)[x] else 0
  {
    SortByPermutation(Group(ts, key), DateLe);
    GroupCount(ts, key, x);
  }

  lemma {:induction false} AnnotateAt(s: seq<Transaction>, i: nat)
    requires i < |s|
    ensures Annotate(s)[i] == Annotated(s[i], RunningBalance(s[..i + 1]))
    decreases |s|
  {
    if i < |s| - 1 {
      AnnotateAt(s[..|s| - 1], i);
      assert s[..|s| - 1][..i + 1] == s[..i + 1];
    } else {
      assert s[..i + 1] == s;
    }
  }

  /** One more entry of the `map`: its annotation carries the balance after it. */
  lemma AnnotateStep(s: seq<Transaction>, i: nat)
    requires i < |s|
    ensures RunningBalance(s[..i + 1]) == RunningBalance(s[..i]) + Net(s[i])
    ensures Annotate(s[..i + 1]) == Annotate(s[..i]) + [Annotated(s[i], RunningBalance(s[..i + 1]))]
  {
    assert s[..i + 1][..i] == s[..i];
    BalanceStep(s, i);
  }

  /** The running balance moves by each entry's net effect. */
  lemma BalanceStep(s: seq<Transaction>, i: nat)
    requires i < |s|
    ensures RunningBalance(s[..i + 1]) == RunningBalance(s[..i]) + Net(s[i])
  {
    assert s[..i + 1] == s[..i] + [s[i]];
    SumOfSnoc(s[..i], s[i], Net);
  }

  /** Each entry carries credit = sales, debit = payment plus every payment method, and the
      previous entry's balance (0 before the first) plus credit minus debit. */
  lemma LedgerEntry(group: seq<Transaction>, i: nat)
    requires i < |group|
    ensures var sorted := SortByDate(group);
            var e := BuildLedger(group).transactions;
            && |e| == |group|
            && e[i] == sorted[i].(creditAmount := e[i].creditAmount, debitAmount := e[i].debitAmount, balance := e[i].balance)
            && e[i].creditAmount == Some(sorted[i].sales)
            && e[i].debitAmount == Some(sorted[i].payment + SumValues(sorted[i].paymentMethods))
            && e[i].balance.Some? && (i > 0 ==> e[i - 1].balance.Some?)
            && e[i].balance == Some((if i == 0 then 0.0 else e[i - 1].balance.value)
                                    + e[i].creditAmount.value - e[i].debitAmount.value)
  {
    var sorted := SortByDate(group);
    AnnotateAt(sorted, i);
    BalanceStep(sorted, i);
    if i > 0 {
      AnnotateAt(sorted, i - 1);
    } else {
      assert sorted[..0] == [];
    }
  }

  /** The entries are in non-decreasing date order, entries with equal dates keep the order
      they were stored in, and the ledger's display name is that of the first entry: the
      earliest-dated row, the first stored among equally early ones. */
  lemma LedgerOrder(group: seq<Transaction>, x: Transaction)
    requires |group| > 0
    ensures SortedBy(SortByDate(group), DateLe)
    ensures Equivalents(SortByDate(group), x, DateLe) == Equivalents(group, x, DateLe)
    ensures var first := FirstMinIndex(group, DateLe);
            && BuildLedger(group).particulars == group[first].particulars
            && (forall j :: 0 <= j < |group| ==> LexLe(group[first].date, group[j].date))
            && (forall j :: 0 <= j < first ==> !LexLe(group[j].date, group[first].date))
  {
    DateLeTotalPreorder();
    SortBySorted(group, DateLe);
    SortByStable(group, x, DateLe);
    SortByHead(group, DateLe);
    FirstMinIndexSpec(group, DateLe);
  }

  /** The ledger's totals: the current balance is total sales minus total payments and equals
      the last entry's running balance; the totals are the group's sums in any order; the
      count is the group size and the last date is the group's latest date. */
  lemma LedgerTotals(group: seq<Transaction>)
    requires |group| > 0
    ensures var l := BuildLedger(group);
            && l.currentBalance == l.totalSales - l.totalPayments
            && l.transactions[|l.transactions| - 1].balance == Some(l.currentBalance)
            && l.totalSales == SumOf(group, Credit)
            && l.totalPayments == SumOf(group, Debit)
            && l.transactionCount == |group|
            && (exists t :: t in group && t.date == l.lastTransactionDate)
            && (forall t :: t in group ==> LexLe(t.date, l.lastTransactionDate))
  {
    var sorted := SortByDate(group);
    AnnotateAt(sorted, |sorted| - 1);
    assert sorted[..|sorted|] == sorted;
    NetSum(sorted);
    SumOfSortBy(group, DateLe, Credit);
    SumOfSortBy(group, DateLe, Debit);
    DateLeTotalPreorder();
    SortByLast(group, DateLe);
  }

  /** Summing net effects is summing credits minus summing debits. */
  lemma {:induction false} NetSum(s: seq<Transaction>)
    ensures RunningBalance(s) == SumOf(s, Credit) - SumOf(s, Debit)
    decreases |s|
  {
    if |s| > 0 {
      NetSum(s[..|s| - 1]);
    }
  }

  /** The ledger map is keyed by the grouping keys. */
  lemma LedgersDomain(ts: seq<Transaction>)
    ensures forall k :: k in BuildLedgers(ts) <==> k in GroupKeys(ts)
    ensures Distinct(GroupKeys(ts))
  {
    GroupKeysSpec(ts);
    forall k ensures k in BuildLedgers(ts) <==> k in GroupKeys(ts) {
      LedgersForSpec(ts, GroupKeys(ts), k);
    }
  }

  /** The ledger map has one ledger per grouping key, built from that key's group. */
  lemma LedgerOf(ts: seq<Transaction>, key: string)
    requires key in BuildLedgers(ts)
    ensures |Group(ts, key)| > 0
    ensures BuildLedgers(ts)[key] == BuildLedger(Group(ts, key))
  {
    LedgersForSpec(ts, GroupKeys(ts), key);
  }

  /** A ledger's display name is that of one of its rows. */
  lemma LedgerNameFromGroup(group: seq<Transaction>)
    requires |group| > 0
    ensures BuildLedger(group).particulars in (set x | x in group :: x.particulars)
  {
    var sorted := SortByDate(group);
    SortByPermutation(group, DateLe);
    assert sorted[0] in multiset(group);
  }

  /** A ledger's display name normalises back to its own key, so looking a ledger up by its
      display name finds it. */
  lemma LedgerNameKey(ts: seq<Transaction>, key: string)
    requires key in BuildLedgers(ts)
    ensures Key(BuildLedgers(ts)[key].particulars) == key
  {
    LedgerOf(ts, key);
    LedgerNameFromGroup(Group(ts, key));
    GroupMembers(ts, key);
  }

  // ---------------------------------------------------------------- the groups partition the customer rows

  predicate IsCustomer(t: Transaction) {
    t.kind == Customer
  }

  /** The net effects of the groups of `keys`, group by group. */
  ghost function GroupNets(ts: seq<Transaction>, keys: seq<string>): real
    decreases |keys|
  {
    if |keys| == 0 then 0.0 else GroupNets(ts, keys[..|keys| - 1]) + SumOf(Group(ts, keys[|keys| - 1]), Net)
  }

  lemma GroupSnoc(ts: seq<Transaction>, x: Transaction, key: string)
    ensures Group(ts + [x], key) == Group(ts, key) + (if InGroup(x, key) then [x] else [])
  {
    assert (ts + [x])[..|ts|] == ts;
  }

  /** Appending a row adds its key to the grouping keys when it is a customer row with a new key. */
  lemma GroupKeysSnoc(ts: seq<Transaction>, x: Transaction)
    ensures GroupKeys(ts + [x])
         == GroupKeys(ts) + (if x.kind == Customer && Key(x.particulars) !in GroupKeys(ts) then [Key(x.particulars)] else [])
  {
    assert (ts + [x])[..|ts|] == ts;
  }

  /** Setting the ledger of one more key. */
  lemma LedgersForSnoc(ts: seq<Transaction>, keys: seq<string>, key: string)
    ensures |Group(ts, key)| > 0 ==> LedgersFor(ts, keys + [key]) == LedgersFor(ts, keys)[key := BuildLedger(Group(ts, key))]
    ensures |Group(ts, key)| == 0 ==> LedgersFor(ts, keys + [key]) == LedgersFor(ts, keys)
  {
    assert (keys + [key])[..|keys|] == keys;
  }

  /** Appending a row adds its net effect to the group sums exactly once when its key is
      listed, and not at all otherwise. */
  lemma {:induction false} GroupNetsSnoc(ts: seq<Transaction>, x: Transaction, keys: seq<string>)
    requires Distinct(keys)
    ensures GroupNets(ts + [x], keys)
         == GroupNets(ts, keys) + (if x.kind == Customer && Key(x.particulars) in keys then Net(x) else 0.0)
    decreases |keys|
  {
    if |keys| > 0 {
      var init := keys[..|keys| - 1];
      var k := keys[|keys| - 1];
      assert Distinct(init);
      GroupNetsSnoc(ts, x, init);
      GroupSnoc(ts, x, k);
      var added := if InGroup(x, k) then Net(x) else 0.0;
      assert SumOf(Group(ts + [x], k), Net) == SumOf(Group(ts, k), Net) + added by {
        if InGroup(x, k) {
          SumOfSnoc(Group(ts, k), x, Net);
        } else {
          assert Group(ts, k) + [] == Group(ts, k);
        }
      }
      assert keys == init + [k];
      assert InGroup(x, k) ==> k !in init;
    }
  }

  /** A key's ledger balance is its group's net effect; a key without a ledger has no rows. */
  lemma LedgerBalanceNet(ts: seq<Transaction>, key: string)
    ensures key in BuildLedgers(ts) ==> BuildLedgers(ts)[key].currentBalance == SumOf(Group(ts, key), Net)
    ensures key !in BuildLedgers(ts) ==> Group(ts, key) == []
  {
    GroupKeysSpec(ts);
    LedgersForSpec(ts, GroupKeys(ts), key);
    if key in BuildLedgers(ts) {
      LedgerTotals(Group(ts, key));
      NetSum(Group(ts, key));
    }
  }

  /** The customer rows' net grows by a customer row's net. */
  lemma CustomerNetSnoc(ts: seq<Transaction>, x: Transaction)
    ensures SumOf(Filter(ts + [x], IsCustomer), Net)
         == SumOf(Filter(ts, IsCustomer), Net) + (if IsCustomer(x) then Net(x) else 0.0)
  {
    assert (ts + [x])[..|ts|] == ts;
    if IsCustomer(x) {
      SumOfSnoc(Filter(ts, IsCustomer), x, Net);
    } else {
      assert Filter(ts, IsCustomer) + [] == Filter(ts, IsCustomer);
    }
  }

  /** A customer row with a new key opens a group of its own. */
  lemma NewKeyNets(ts: seq<Transaction>, x: Transaction, keys: seq<string>)
    requires x.kind == Customer && Key(x.particulars) !in GroupKeys(ts)
    ensures GroupNets(ts + [x], keys + [Key(x.particulars)]) == GroupNets(ts + [x], keys) + Net(x)
  {
    var k := Key(x.particulars);
    assert (keys + [k])[..|keys|] == keys;
    GroupSnoc(ts, x, k);
    GroupKeysSpec(ts);
    assert Group(ts, k) == [];
    assert Group(ts + [x], k) == [x];
    assert SumOf([x], Net) == Net(x) by {
      assert [x][..0] == [];
    }
  }

  /** A customer row with a new key: the group sums gain that key's group, the row alone. */
  lemma GroupNetsAllNewKey(ts: seq<Transaction>, x: Transaction)
    requires x.kind == Customer && Key(x.particulars) !in GroupKeys(ts)
    ensures GroupNets(ts + [x], GroupKeys(ts + [x])) - SumOf(Filter(ts + [x], IsCustomer), Net)
         == GroupNets(ts, GroupKeys(ts)) - SumOf(Filter(ts, IsCustomer), Net)
  {
    var keys := GroupKeys(ts);
    GroupKeysDistinct(ts);
    GroupNetsSnoc(ts, x, keys);
    assert GroupNets(ts + [x], keys) == GroupNets(ts, keys);
    CustomerNetSnoc(ts, x);
    GroupKeysSnoc(ts, x);
    assert GroupKeys(ts + [x]) == keys + [Key(x.particulars)];
    NewKeyNets(ts, x, keys);
  }

  /** Any other row: the keys stay, and the row's net lands in its existing group if it
      is a customer row. */
  lemma GroupNetsAllOldKey(ts: seq<Transaction>, x: Transaction)
    requires !(x.kind == Customer && Key(x.particulars) !in GroupKeys(ts))
    ensures GroupNets(ts + [x], GroupKeys(ts + [x])) - SumOf(Filter(ts + [x], IsCustomer), Net)
         == GroupNets(ts, GroupKeys(ts)) - SumOf(Filter(ts, IsCustomer), Net)
  {
    var keys := GroupKeys(ts);
    GroupKeysDistinct(ts);
    GroupNetsSnoc(ts, x, keys);
    assert GroupNets(ts + [x], keys) == GroupNets(ts, keys) + (if IsCustomer(x) then Net(x) else 0.0);
    CustomerNetSnoc(ts, x);
    GroupKeysSnoc(ts, x);
    assert GroupKeys(ts + [x]) == keys;
  }

  /** Appending a row changes the group sums and the customer rows' net by the same amount. */
  lemma GroupNetsAllSnoc(ts: seq<Transaction>, x: Transaction)
    ensures GroupNets(ts + [x], GroupKeys(ts + [x])) - SumOf(Filter(ts + [x], IsCustomer), Net)
         == GroupNets(ts, GroupKeys(ts)) - SumOf(Filter(ts, IsCustomer), Net)
  {
    if x.kind == Customer && Key(x.particulars) !in GroupKeys(ts) {
      GroupNetsAllNewKey(ts, x);
    } else {
      GroupNetsAllOldKey(ts, x);
    }
  }

  /** Summed over all grouping keys, the groups' net effects are the net effect of every
      customer row of the store. */
  lemma {:induction false} GroupNetsAll(ts: seq<Transaction>)
    ensures GroupNets(ts, GroupKeys(ts)) == SumOf(Filter(ts, IsCustomer), Net)
    decreases |ts|
  {
    if |ts| > 0 {
      var init, x := ts[..|ts| - 1], ts[|ts| - 1];
      assert ts == init + [x];
      GroupNetsAll(init);
      GroupNetsAllSnoc(init, x);
    }
  }
}
