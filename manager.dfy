/**
 * The ledger object. It owns the journal, the category catalog and the
 * contents of its backing file, and every change to the journal rewrites
 * the whole file. Its read-only queries (balance, income and expense
 * totals, transactions by category, categories by kind) are the functions
 * of modules Journal and Catalog applied to its fields.
 */
module Manager {
  import opened Wrappers
  import opened Collections
  import opened Finance
  import opened Journal
  import opened Catalog
  import opened Amounts
  import opened Storage

  class FinanceManager {
    /** The journal, in insertion order. */
    var transactions: seq<Transaction>
    /** The catalog: the eight defaults followed by the categories added since. */
    var categories: seq<Category>
    /** The backing file's rows; None while the file does not exist. */
    var stored: Option<seq<Row>>

    /** Seeds the default catalog, then loads the journal from the file found at construction. */
    constructor (file: Option<seq<Row>>)
      ensures categories == DefaultCatalog()
      ensures stored == file
      ensures transactions == Load(file, DefaultCatalog()).Journal()
    {
      stored := file;
      transactions := [];
      categories := DefaultCatalog();
      new;
      LoadFromFile();
    }

    /** Appends t to the journal and rewrites the file. */
    method AddTransaction(t: Transaction)
      modifies this
      ensures transactions == old(transactions) + [t]
      ensures categories == old(categories)
      ensures stored == Some(Snapshot(transactions))
    {
      transactions := transactions + [t];
      SaveToFile();
    }

    /**
     * Removes the entry at index and rewrites the file when the index is in
     * range; otherwise reports false and changes nothing.
     */
    method DeleteTransaction(index: int) returns (deleted: bool)
      modifies this
      ensures deleted <==> 0 <= index < |old(transactions)|
      ensures deleted ==> transactions == old(transactions)[..index] + old(transactions)[index + 1..]
      ensures deleted ==> stored == Some(Snapshot(transactions))
      ensures !deleted ==> transactions == old(transactions) && stored == old(stored)
      ensures categories == old(categories)
    {
      if 0 <= index < |transactions| {
        transactions := transactions[..index] + transactions[index + 1..];
        SaveToFile();
        return true;
      }
      return false;
    }

    /**
     * The per-category summary: each category name of the journal, in order
     * of first use, with the sum of its income amounts minus the sum of its
     * other amounts.
     */
    method GetCategorySummary() returns (names: seq<string>, totals: map<string, int>)
      ensures names == DistinctNames(transactions)
      ensures forall n :: n in totals <==> n in names
      ensures forall n :: n in totals ==> totals[n] == Balance(TransactionsByCategory(transactions, n))
    {
      var j := transactions;
      names, totals := [], map[];
      var i := 0;
      while i < |j|
        invariant 0 <= i <= |j|
        invariant names == DistinctNames(j[..i]) && totals == SummaryTotals(j[..i])
      {
        var t := j[i];
        var name := t.category.name;
        ghost var p, before := j[..i], totals;
        ghost var base := if name in before then before[name] else 0;
        SummaryTotalsKey(p, name);
        DistinctNamesAppend(p, t);
        if name !in totals {
          names := names + [name];
          totals := totals[name := 0];
        }
        if t.category.kind == Income {
          totals := totals[name := totals[name] + t.amount];
        } else {
          totals := totals[name := totals[name] - t.amount];
        }
        assert totals == before[name := base + Signed(t)] by {
          if name !in before {
            UpdateTwice(before, name, 0, Signed(t));
          }
        }
        SummaryTotalsAppend(p, t);
        assert j[..i + 1] == p + [t];
        i := i + 1;
      }
      assert j[..i] == j;
      forall n
        ensures n in totals <==> n in names
        ensures n in totals ==> totals[n] == Balance(TransactionsByCategory(j, n))
      {
        SummaryTotalsKey(j, n);
        if n in totals {
          SummaryTotalsValue(j, n);
        }
      }
    }

    /** Overwrites the file with the header and one row per transaction, in journal order. */
    method SaveToFile()
      modifies this
      ensures stored == Some(Snapshot(transactions))
      ensures transactions == old(transactions) && categories == old(categories)
    {
      var j := transactions;
      var rows := [Header];
      var i := 0;
      while i < |j|
        invariant 0 <= i <= |j|
        invariant rows == Snapshot(j[..i])
        invariant transactions == j && categories == old(categories)
      {
        InitLast(j[..i], j[i]);
        assert j[..i + 1] == j[..i] + [j[i]];
        rows := rows + [ToRow(j[i])];
        i := i + 1;
      }
      assert j[..i] == j;
      stored := Some(rows);
    }

    /**
     * Replaces the journal by what the file holds: empty when the file is
     * missing or malformed, otherwise its resolvable rows in file order.
     */
    method LoadFromFile()
      modifies this
      ensures transactions == Load(stored, categories).Journal()
      ensures stored == old(stored) && categories == old(categories)
    {
      match stored
      case None =>
        transactions := [];
      case Some(rows) =>
        transactions := [];
        if rows == [] {
          return;
        }
        var data := rows[1..];
        var i := 0;
        while i < |data|
          invariant 0 <= i <= |data|
          invariant LoadRows(data[..i], categories) == Some(transactions)
          invariant stored == old(stored) && categories == old(categories)
        {
          var row := data[i];
          assert data[..i + 1][..i] == data[..i];
          var found := FindCategory(categories, row.category);
          if found.Some? {
            var amount := ParseAmount(row.amount);
            if amount.None? {
              LoadRowsFailsIff(data, categories);
              assert Unreadable(data[i], categories);
              transactions := [];
              return;
            }
            transactions := transactions + [Transaction(amount.value, found.value, row.date, row.description)];
          }
          i := i + 1;
        }
        assert data[..i] == data;
    }

    /** Appends a category to the catalog, with no check for a duplicate name, and returns it. */
    method AddCategory(name: string, kind: TransactionType) returns (c: Category)
      modifies this
      ensures c == Category(name, kind)
      ensures categories == old(categories) + [c]
      ensures transactions == old(transactions) && stored == old(stored)
    {
      c := Category(name, kind);
      categories := categories + [c];
    }
  }
}
