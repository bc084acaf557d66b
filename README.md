# Personal-finance ledger, modelled in Dafny

This project models the ledger of a small personal-finance program
(`finance_classes.py`). The ledger keeps an ordered journal of income and
expense transactions and a catalog of categories. It reports the balance, the
income and expense totals, and a signed per-category summary. It persists the
journal to a flat file, rewriting the whole file after every change and
reading it back when it is constructed.

Modules, one concept each:

- `Wrappers` (`wrappers.dfy`): `Option`.
- `Collections` (`collections.dfy`): general facts: the no-duplicates predicate on sequences, splitting off a sequence's last element, and overwriting a map key.
- `Finance` (`finance.dfy`): the records. `TransactionType` (Income or Expense, with its display label), `Category` (a name and a kind) and `Transaction` (amount, category, date, description).
- `Journal` (`journal.dfy`): the read-only queries over the journal. These are the income and expense totals, the balance, the filter by category name, and the specification of the category summary, with their lemmas.
- `Catalog` (`catalog.dfy`): the eight default categories, the first-match lookup by name, and the filter by kind.
- `Amounts` (`amounts.dfy`): the text form of an amount and its parser. Rendering and then parsing gives the amount back.
- `Storage` (`storage.dfy`): the file as rows of five text fields, the snapshot written on save, and the load. The load resolves categories by first exact name match, drops unresolved rows, and fails as a whole on a malformed amount. It also holds the round-trip lemmas.
- `Manager` (`manager.dfy`): the class `FinanceManager`, with the journal, the catalog and the file contents as fields. Its methods are proved against the functions above: append, delete by index, the summary loop, the save loop and the load loop.

The read-only queries `get_balance`, `get_income_total`, `get_expenses_total`,
`get_transactions_by_category` and `get_categories_by_type` are
comprehensions in the source. They are modelled as the functions `Balance`,
`IncomeTotal`, `ExpensesTotal`, `TransactionsByCategory` and
`CategoriesByKind`, applied to a manager's `transactions` or `categories`.

The backing file is the field `stored: Option<seq<Row>>`; `None` means the
file does not exist. Its first row is the header. Money amounts are
unbounded integers.

## Model

| member | source | states |
|---|---|---|
| `Journal.TotalsConcat` | finance_classes.py:78-94 | the income total, the expense total and the balance of a split journal are the sums over its two parts |
| `Journal.BalanceIsSignedSum` | finance_classes.py:78-84 | the balance (income total minus expense total) equals the sum of the amounts with income counted positive and expense negative |
| `Journal.TotalsAfterRemoval` | finance_classes.py:70-94 | removing entry i takes exactly that entry's contribution out of the income total, the expense total and the balance |
| `Journal.TransactionsByCategoryMembers` | finance_classes.py:109-111 | a transaction is in the filtered list if and only if it is in the journal and its category name equals the requested name exactly |
| `Journal.TransactionsByCategoryConcat` | finance_classes.py:109-111 | filtering a split journal gives the filter of the first part followed by the filter of the second, so journal order is kept |
| `Journal.TransactionsByCategoryUnused` | finance_classes.py:109-111 | a name no transaction uses filters to the empty list |
| `Journal.FirstUse` | finance_classes.py:99-102 | the position of the first transaction filed under a name: every earlier transaction has a different name, and the one at that position has the name |
| `Journal.DistinctNames` | finance_classes.py:99-102 | the summary's key list holds no name twice |
| `Journal.DistinctNamesMember` | finance_classes.py:99-102 | a name is a summary key if and only if some transaction of the journal uses it |
| `Journal.DistinctNamesInFirstUseOrder` | finance_classes.py:96-107 | summary keys appear in the order of their first use in the journal |
| `Journal.SummaryTotalsKey` | finance_classes.py:99-102 | a name has a summary entry if and only if it is in the list of distinct names |
| `Journal.ByCategoryBalanceLast` | finance_classes.py:99-111 | the last transaction changes the balance of its own name's filtered transactions by its signed amount, and no other name's |
| `Journal.SummaryTotalsValue` | finance_classes.py:96-111 | each summary value equals the balance of that name's transactions, i.e. the income minus the expenses filed under it |
| `Journal.CategorySummaryAddsUpToBalance` | finance_classes.py:78-107 | the summary's values, summed over its keys, equal the balance |
| `Journal.CategorySummaryExampleNames` | finance_classes.py:96-107 | an income followed by two expenses under another name yields the keys income-name then expense-name |
| `Journal.CategorySummaryExampleTotals` | finance_classes.py:96-107 | for an income of 1000 and expenses of 300 and 200 under one name, the values are +1000 and -500 |
| `Journal.BalanceExample` | finance_classes.py:78-94 | income 50000 and expense 1500 give income total 50000, expense total 1500 and balance 48500 |
| `Catalog.CategoriesByKindMembers` | finance_classes.py:165-167 | a category is in the filtered catalog if and only if it is in the catalog and has the requested kind |
| `Catalog.CategoriesByKindConcat` | finance_classes.py:165-167 | filtering a split catalog filters each part in turn, so catalog order is kept |
| `Catalog.CategoriesByKindPartition` | finance_classes.py:165-167 | the Income and Expense filters together have as many entries as the catalog |
| `Catalog.DefaultCatalog` | finance_classes.py:53-62 | the default catalog has eight categories and no two share a name |
| `Catalog.DefaultCatalogKinds` | finance_classes.py:53-62 | the defaults hold two Income categories followed by six Expense categories |
| `Catalog.FindCategory` | finance_classes.py:139-140 | a found category is in the catalog and has the name; nothing is found exactly when no catalog entry has the name |
| `Catalog.FindCategoryFirst` | finance_classes.py:139-140 | the lookup returns the earliest catalog entry with the name |
| `Catalog.FindCategoryAppend` | finance_classes.py:159-163 | appending a category (no duplicate check) never shadows an earlier category of the same name; a duplicate is reachable only through the first |
| `Amounts.NatText` | finance_classes.py:121 | the written amount is a non-empty string of decimal digits without a leading zero |
| `Amounts.ParseAmount` | finance_classes.py:143 | a string of digits, optionally after one leading `-` or `+`, parses to its decimal value, negated after `-`; text holding any other character, or nothing but a sign, does not parse |
| `Amounts.ParseRenderAmount` | finance_classes.py:120-143 | parsing the written form of an amount gives the amount back |
| `Storage.Snapshot` | finance_classes.py:113-126 | the saved file is the header `Amount, Category, Type, Date, Description` followed by exactly one row per transaction in journal order; each row holds the amount, category name, kind label, date and description |
| `Storage.LoadRows` | finance_classes.py:138-148 | a successful read yields no more transactions than rows, each bound to the first catalog category with its name |
| `Storage.LoadRowsConcat` | finance_classes.py:138-148 | for any file, the data rows of a split file read as the first part's transactions followed by the second's, in file order, and the read fails exactly when either part fails |
| `Storage.LoadRowsSingle` | finance_classes.py:139-148 | a row whose category name is unknown yields nothing; a resolved row with a numeric amount yields one transaction with that amount, the catalog's first category of that name and the row's own date and description; a resolved row with a non-numeric amount fails the read |
| `Storage.LoadFailsIff` | finance_classes.py:138-157 | a load fails (journal reset to empty) if and only if some data row names a catalog category and has an amount that does not parse; rows with unknown categories never cause a failure |
| `Storage.LoadedFromCatalog` | finance_classes.py:139-148 | every loaded transaction's category is in the catalog and is the first one with its name |
| `Storage.LoadSnapshot` | finance_classes.py:113-148 | loading a saved journal gives its transactions whose category name the catalog knows, in order, rebound to the catalog's first category of that name |
| `Storage.UnknownCategoryDropped` | finance_classes.py:139-141 | a saved transaction whose category name is not in the catalog vanishes on reload without error, and the rest are unaffected |
| `Storage.RoundTrip` | finance_classes.py:113-148 | when every category name of the journal is in the catalog, reloading the saved file reproduces each transaction's amount, category name, date and description, in order |
| `Storage.RoundTripExact` | finance_classes.py:113-148 | when every transaction's category is the catalog's first of its name, reloading the saved file gives the journal back exactly |
| `Manager.FinanceManager.constructor` | finance_classes.py:50-63 | construction seeds the default catalog, keeps the file as found, and sets the journal to the load outcome's journal (empty on a missing or malformed file) |
| `Manager.FinanceManager.AddTransaction` | finance_classes.py:65-68 | the transaction is appended at the end, earlier entries are unchanged, and the file becomes the snapshot of the new journal |
| `Manager.FinanceManager.DeleteTransaction` | finance_classes.py:70-76 | returns true exactly when 0 <= index < length; then exactly that entry is removed, order is kept and the file is rewritten; otherwise journal and file are unchanged |
| `Manager.FinanceManager.GetCategorySummary` | finance_classes.py:96-107 | the keys are the distinct category names in order of first use, and each value is the income minus the non-income amounts of that name |
| `Manager.FinanceManager.SaveToFile` | finance_classes.py:113-126 | the file becomes the snapshot of the journal; journal and catalog are unchanged |
| `Manager.FinanceManager.LoadFromFile` | finance_classes.py:131-157 | the journal becomes the load outcome's journal: empty for a missing file, empty after a malformed amount, otherwise the resolvable rows in file order |
| `Manager.FinanceManager.AddCategory` | finance_classes.py:159-163 | the new category is appended to the catalog and returned; the journal and the file are unchanged |

## Left out

- Floating point: amounts are unbounded integers, not floats, and sums are exact. The written amount is an optional minus sign and decimal digits. The parser accepts an optional sign followed by digits. Python's `float()` accepts more (fractions, exponents, surrounding blanks, underscores, `inf`, `nan`). Python also writes a float amount as, for example, `1500.0`, which this model's parser rejects.
- The csv module's quoting, escaping and blank-line skipping: a file is modelled as already-split rows of five fields.
- Header interpretation: the source's reader maps columns by the names in the first row. The model skips the first row and reads the fields by position. The two agree on every file that `SaveToFile` writes. The model does not cover a file with reordered or missing columns, or a row with too few fields.
- Save I/O failure: the model's save always succeeds. In the source a failed write is only reported, and the in-memory change is kept.
- The console messages on load and save, and the `__str__`/`__repr__` display text, are logging and display only.
- The file name: the backing file is the `stored` field itself.
- Shared category objects: a transaction holds a copy of its category value. After a load it holds the catalog's first category with that name.
- `Storage.Rebound`: its own contract states only a length bound. What it computes is stated by `Storage.LoadSnapshot`, `Storage.RoundTrip` and `Storage.RoundTripExact`.
- The window interface (finance_gui.py) and the demonstration script (demo.py) are not part of this model.
