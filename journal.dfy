/**
 * The ledger's queries over its journal (the ordered sequence of recorded
 * transactions): the income, expense and balance totals, the filter by
 * category name, and the specification of the per-category summary.
 * Every function here reads the journal and changes nothing.
 */
module Journal {
  import opened Collections
  import opened Finance

  /** Sum of the amounts filed under an Income category. */
  function IncomeTotal(j: seq<Transaction>): int {
    if j == [] then 0
    else IncomeTotal(j[..|j| - 1]) + (if j[|j| - 1].category.kind == Income then j[|j| - 1].amount else 0)
  }

  /** Sum of the amounts filed under an Expense category. */
  function ExpensesTotal(j: seq<Transaction>): int {
    if j == [] then 0
    else ExpensesTotal(j[..|j| - 1]) + (if j[|j| - 1].category.kind == Expense then j[|j| - 1].amount else 0)
  }

  /** The current balance: income minus expenses. */
  function Balance(j: seq<Transaction>): int {
    IncomeTotal(j) - ExpensesTotal(j)
  }

  /** Reference definition: the sum of every transaction's signed amount. */
  function SignedSum(j: seq<Transaction>): int {
    if j == [] then 0 else SignedSum(j[..|j| - 1]) + Signed(j[|j| - 1])
  }

  /** Appending one transaction moves each total by that transaction alone. */
  lemma TotalsAppend(j: seq<Transaction>, t: Transaction)
    ensures IncomeTotal(j + [t]) == IncomeTotal(j) + (if t.category.kind == Income then t.amount else 0)
    ensures ExpensesTotal(j + [t]) == ExpensesTotal(j) + (if t.category.kind == Expense then t.amount else 0)
    ensures Balance(j + [t]) == Balance(j) + Signed(t)
  {
    InitLast(j, t);
  }

  /** Every total is additive over a split of the journal. */
  lemma {:induction false} TotalsConcat(a: seq<Transaction>, b: seq<Transaction>)
    ensures IncomeTotal(a + b) == IncomeTotal(a) + IncomeTotal(b)
    ensures ExpensesTotal(a + b) == ExpensesTotal(a) + ExpensesTotal(b)
    ensures Balance(a + b) == Balance(a) + Balance(b)
    decreases |b|
  {
    if b != [] {
      var b', t := b[..|b| - 1], b[|b| - 1];
      assert b == b' + [t];
      assert a + b == (a + b') + [t];
      TotalsConcat(a, b');
      TotalsAppend(a + b', t);
      TotalsAppend(b', t);
    } else {
      assert a + b == a;
    }
  }

  /** The balance is the sum of the signed amounts: income adds, expense subtracts. */
  lemma {:induction false} BalanceIsSignedSum(j: seq<Transaction>)
    ensures Balance(j) == SignedSum(j)
    decreases |j|
  {
    if j != [] {
      var p, t := j[..|j| - 1], j[|j| - 1];
      assert j == p + [t];
      BalanceIsSignedSum(p);
      TotalsAppend(p, t);
    }
  }

  /** A transaction between two parts contributes to the totals on its own. */
  lemma TotalsAround(left: seq<Transaction>, x: Transaction, right: seq<Transaction>)
    ensures IncomeTotal(left + [x] + right) == IncomeTotal(left + right) + (if x.category.kind == Income then x.amount else 0)
    ensures ExpensesTotal(left + [x] + right) == ExpensesTotal(left + right) + (if x.category.kind == Expense then x.amount else 0)
    ensures Balance(left + [x] + right) == Balance(left + right) + Signed(x)
  {
    TotalsConcat(left + [x], right);
    TotalsConcat(left, right);
    TotalsAppend(left, x);
  }

  /** Removing entry i takes exactly that entry's contribution out of every total. */
  lemma TotalsAfterRemoval(j: seq<Transaction>, i: int)
    requires 0 <= i < |j|
    ensures IncomeTotal(j[..i] + j[i + 1..]) == IncomeTotal(j) - (if j[i].category.kind == Income then j[i].amount else 0)
    ensures ExpensesTotal(j[..i] + j[i + 1..]) == ExpensesTotal(j) - (if j[i].category.kind == Expense then j[i].amount else 0)
    ensures Balance(j[..i] + j[i + 1..]) == Balance(j) - Signed(j[i])
  {
    var left, x, right := j[..i], j[i], j[i + 1..];
    assert left + [x] + right == j by {
      assert j[i..] == [x] + right;
      assert j == left + j[i..];
    }
    TotalsAround(left, x, right);
  }

  /** The transactions whose category name equals name exactly, in journal order. */
  function TransactionsByCategory(j: seq<Transaction>, name: string): (r: seq<Transaction>)
    ensures |r| <= |j|
  {
    if j == [] then []
    else
      var t := j[|j| - 1];
      TransactionsByCategory(j[..|j| - 1], name) + (if t.category.name == name then [t] else [])
  }

  /** The filter keeps exactly the transactions filed under name. */
  lemma {:induction false} TransactionsByCategoryMembers(j: seq<Transaction>, name: string)
    ensures forall t :: t in TransactionsByCategory(j, name) <==> t in j && t.category.name == name
    decreases |j|
  {
    if j != [] {
      var p, t := j[..|j| - 1], j[|j| - 1];
      assert j == p + [t];
      TransactionsByCategoryMembers(p, name);
    }
  }

  /** A name the journal never uses filters to nothing. */
  lemma TransactionsByCategoryUnused(j: seq<Transaction>, name: string)
    requires FirstUse(j, name) == |j|
    ensures TransactionsByCategory(j, name) == []
  {
    assert forall t :: t in j ==> t.category.name != name;
    TransactionsByCategoryMembers(j, name);
    assert forall t :: t !in TransactionsByCategory(j, name);
  }

  /** The filter keeps journal order: filtering a split journal filters each part. */
  lemma {:induction false} TransactionsByCategoryConcat(a: seq<Transaction>, b: seq<Transaction>, name: string)
    ensures TransactionsByCategory(a + b, name) == TransactionsByCategory(a, name) + TransactionsByCategory(b, name)
    decreases |b|
  {
    if b == [] {
      assert a + b == a;
    } else {
      var b', t := b[..|b| - 1], b[|b| - 1];
      var last: seq<Transaction> := if t.category.name == name then [t] else [];
      assert (a + b)[..|a + b| - 1] == a + b';
      assert (a + b)[|a + b| - 1] == t;
      assert TransactionsByCategory(a + b, name) == TransactionsByCategory(a + b', name) + last;
      assert TransactionsByCategory(b, name) == TransactionsByCategory(b', name) + last;
      TransactionsByCategoryConcat(a, b', name);
    }
  }

  /** Filtering a one-element journal keeps the element exactly when its name matches. */
  lemma TransactionsByCategorySingle(t: Transaction, name: string)
    ensures TransactionsByCategory([t], name) == if t.category.name == name then [t] else []
  {
    assert [t][..0] == [];
  }

  /**
   * The distinct category names of the journal, each listed once, in the
   * order in which the journal first uses them: the keys of the summary.
   */
  function DistinctNames(j: seq<Transaction>): (r: seq<string>)
    ensures NoDuplicates(r)
  {
    if j == [] then []
    else
      var p, t := j[..|j| - 1], j[|j| - 1];
      var d := DistinctNames(p);
      if t.category.name in d then d else d + [t.category.name]
  }

  /** The position of the first transaction filed under name, or |j| when there is none. */
  function FirstUse(j: seq<Transaction>, name: string): (k: nat)
    ensures k <= |j|
    ensures k < |j| ==> j[k].category.name == name
    ensures forall i :: 0 <= i < k ==> j[i].category.name != name
  {
    if j == [] then 0
    else
      var p := j[..|j| - 1];
      var k := FirstUse(p, name);
      if k < |p| then k else if j[|j| - 1].category.name == name then |p| else |j|
  }

  /** The summary's keys are exactly the names the journal uses. */
  lemma {:induction false} DistinctNamesMember(j: seq<Transaction>, name: string)
    ensures name in DistinctNames(j) <==> FirstUse(j, name) < |j|
    decreases |j|
  {
    if j != [] {
      DistinctNamesMember(j[..|j| - 1], name);
    }
  }

  /** A first use inside the prefix stays the first use after an append. */
  lemma FirstUseAppend(p: seq<Transaction>, t: Transaction, name: string)
    ensures FirstUse(p + [t], name) == if FirstUse(p, name) < |p| then FirstUse(p, name)
                                        else if t.category.name == name then |p| else |p| + 1
  {
    InitLast(p, t);
  }

  /** The summary's keys appear in the order of their first use in the journal. */
  lemma {:induction false} DistinctNamesInFirstUseOrder(j: seq<Transaction>, a: int, b: int)
    requires 0 <= a < b < |DistinctNames(j)|
    ensures FirstUse(j, DistinctNames(j)[a]) < FirstUse(j, DistinctNames(j)[b]) < |j|
    decreases |j|
  {
    var p, t := j[..|j| - 1], j[|j| - 1];
    assert j == p + [t];
    var d := DistinctNames(p);
    var x, y := DistinctNames(j)[a], DistinctNames(j)[b];
    FirstUseAppend(p, t, x);
    FirstUseAppend(p, t, y);
    assert x in d;
    DistinctNamesMember(p, x);
    DistinctNamesMember(p, y);
    if b < |d| {
      DistinctNamesInFirstUseOrder(p, a, b);
    } else {
      assert y !in d;
    }
  }

  /** Appending a transaction adds its name to the distinct names when, and only when, it is new. */
  lemma DistinctNamesAppend(p: seq<Transaction>, t: Transaction)
    ensures DistinctNames(p + [t]) ==
            if t.category.name in DistinctNames(p) then DistinctNames(p) else DistinctNames(p) + [t.category.name]
  {
    InitLast(p, t);
  }

  /**
   * The summary's values as the source's loop leaves them after reading j:
   * a name's entry starts at 0 on its first use and moves by each signed amount.
   */
  function SummaryTotals(j: seq<Transaction>): map<string, int> {
    if j == [] then map[]
    else
      var m := SummaryTotals(j[..|j| - 1]);
      var t := j[|j| - 1];
      var n := t.category.name;
      m[n := (if n in m then m[n] else 0) + Signed(t)]
  }

  /** Reading one more transaction moves only its own name's entry. */
  lemma SummaryTotalsAppend(p: seq<Transaction>, t: Transaction)
    ensures var m, n := SummaryTotals(p), t.category.name;
            SummaryTotals(p + [t]) == m[n := (if n in m then m[n] else 0) + Signed(t)]
  {
    var j := p + [t];
    InitLast(p, t);
    assert SummaryTotals(j[..|j| - 1]) == SummaryTotals(p);
  }

  /** The summary's keys are exactly the distinct names. */
  lemma {:induction false} SummaryTotalsKey(j: seq<Transaction>, name: string)
    ensures name in SummaryTotals(j) <==> name in DistinctNames(j)
    decreases |j|
  {
    if j != [] {
      SummaryTotalsKey(j[..|j| - 1], name);
      SummaryTotalsKey(j[..|j| - 1], j[|j| - 1].category.name);
    }
  }

  /** The last transaction of a journal moves only its own name's filtered balance. */
  lemma ByCategoryBalanceLast(j: seq<Transaction>, name: string)
    requires j != []
    ensures Balance(TransactionsByCategory(j, name)) ==
            Balance(TransactionsByCategory(j[..|j| - 1], name)) +
            (if j[|j| - 1].category.name == name then Signed(j[|j| - 1]) else 0)
  {
    var t := j[|j| - 1];
    var f := TransactionsByCategory(j[..|j| - 1], name);
    if t.category.name == name {
      TotalsAppend(f, t);
    } else {
      assert f + [] == f;
    }
  }

  /** Each value of the summary is the balance of that name's transactions. */
  lemma {:induction false} SummaryTotalsValue(j: seq<Transaction>, name: string)
    requires name in SummaryTotals(j)
    ensures SummaryTotals(j)[name] == Balance(TransactionsByCategory(j, name))
    decreases |j|
  {
    var p, m := j[..|j| - 1], j[|j| - 1].category.name;
    ByCategoryBalanceLast(j, name);
    if name != m || m in SummaryTotals(p) {
      SummaryTotalsValue(p, name);
    } else {
      SummaryTotalsKey(p, m);
      DistinctNamesMember(p, m);
      TransactionsByCategoryUnused(p, m);
    }
  }

  /** Sum, over the given names, of each name's filtered balance. */
  function SumOfNets(j: seq<Transaction>, names: seq<string>): int {
    if names == [] then 0
    else SumOfNets(j, names[..|names| - 1]) + Balance(TransactionsByCategory(j, names[|names| - 1]))
  }

  /** Appending one transaction changes one name's filtered balance, by its signed amount. */
  lemma ByCategoryBalanceAppend(j: seq<Transaction>, t: Transaction, name: string)
    ensures Balance(TransactionsByCategory(j + [t], name)) ==
            Balance(TransactionsByCategory(j, name)) + (if t.category.name == name then Signed(t) else 0)
  {
    TransactionsByCategoryConcat(j, [t], name);
    TransactionsByCategorySingle(t, name);
    TotalsAppend(TransactionsByCategory(j, name), t);
    assert TransactionsByCategory(j, name) + [] == TransactionsByCategory(j, name);
  }

  /** Appending a transaction adds its signed amount to the sum over names exactly when its name is listed. */
  lemma {:induction false} SumOfNetsAppend(j: seq<Transaction>, t: Transaction, names: seq<string>)
    requires NoDuplicates(names)
    ensures SumOfNets(j + [t], names) == SumOfNets(j, names) + (if t.category.name in names then Signed(t) else 0)
    decreases |names|
  {
    if names != [] {
      var q, x := names[..|names| - 1], names[|names| - 1];
      assert names == q + [x];
      assert NoDuplicates(q);
      assert x !in q;
      SumOfNetsAppend(j, t, q);
      ByCategoryBalanceAppend(j, t, x);
    }
  }

  /** Summing the nets over the keys, after a transaction under a name not yet seen. */
  lemma SumOfNetsNewName(p: seq<Transaction>, t: Transaction)
    requires t.category.name !in DistinctNames(p)
    ensures SumOfNets(p + [t], DistinctNames(p) + [t.category.name]) == SumOfNets(p, DistinctNames(p)) + Signed(t)
  {
    var d, m := DistinctNames(p), t.category.name;
    assert (d + [m])[..|d + [m]| - 1] == d;
    SumOfNetsAppend(p, t, d);
    ByCategoryBalanceAppend(p, t, m);
    DistinctNamesMember(p, m);
    TransactionsByCategoryUnused(p, m);
  }

  /** The values of the category summary add up to the balance. */
  lemma {:induction false} CategorySummaryAddsUpToBalance(j: seq<Transaction>)
    ensures SumOfNets(j, DistinctNames(j)) == Balance(j)
    decreases |j|
  {
    if j != [] {
      var p, t := j[..|j| - 1], j[|j| - 1];
      assert j == p + [t];
      CategorySummaryAddsUpToBalance(p);
      TotalsAppend(p, t);
      if t.category.name in DistinctNames(p) {
        SumOfNetsAppend(p, t, DistinctNames(p));
      } else {
        SumOfNetsNewName(p, t);
      }
    }
  }

  /**
   * An income of 1000 followed by two expenses of 300 and 200 under another
   * name: the summary lists the income's name first, then the expenses'.
   */
  lemma CategorySummaryExampleNames(a: Transaction, b: Transaction, c: Transaction)
    requires b.category.name == c.category.name != a.category.name
    ensures DistinctNames([a, b, c]) == [a.category.name, b.category.name]
  {
    var p0: seq<Transaction> := [];
    var p1 := p0 + [a];
    var p2 := p1 + [b];
    DistinctNamesAppend(p0, a);
    DistinctNamesAppend(p1, b);
    DistinctNamesAppend(p2, c);
    assert p2 + [c] == [a, b, c];
  }

  /** In the same journal, the income's name sums to +1000 and the expenses' to -500. */
  lemma CategorySummaryExampleTotals(a: Transaction, b: Transaction, c: Transaction)
    requires a.category.kind == Income && b.category.kind == Expense && c.category.kind == Expense
    requires b.category.name == c.category.name != a.category.name
    requires a.amount == 1000 && b.amount == 300 && c.amount == 200
    ensures Balance(TransactionsByCategory([a, b, c], a.category.name)) == 1000
    ensures Balance(TransactionsByCategory([a, b, c], b.category.name)) == -500
  {
    var p0: seq<Transaction> := [];
    var p1 := p0 + [a];
    var p2 := p1 + [b];
    forall n | n == a.category.name || n == b.category.name
      ensures Balance(TransactionsByCategory(p2 + [c], n)) ==
              (if n == a.category.name then 1000 else -500)
    {
      ByCategoryBalanceAppend(p0, a, n);
      ByCategoryBalanceAppend(p1, b, n);
      ByCategoryBalanceAppend(p2, c, n);
    }
    assert p2 + [c] == [a, b, c];
  }

  /** Income 50000 and an expense of 1500 leave a balance of 48500. */
  lemma BalanceExample(a: Transaction, b: Transaction)
    requires a.category.kind == Income && b.category.kind == Expense
    requires a.amount == 50000 && b.amount == 1500
    ensures IncomeTotal([a, b]) == 50000 && ExpensesTotal([a, b]) == 1500 && Balance([a, b]) == 48500
  {
    var none: seq<Transaction> := [];
    TotalsAppend(none, a);
    TotalsAppend(none + [a], b);
    assert (none + [a]) + [b] == [a, b];
  }
}
