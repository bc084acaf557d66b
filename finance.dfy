/**
 * The ledger's records: the kind of a category, a category, and a
 * transaction. All three are plain values; a transaction carries a copy of
 * the category it was filed under.
 */
module Finance {

  /** Whether money comes in or goes out; each kind has a display label. */
  datatype TransactionType = Income | Expense {
    /** The label the ledger writes in the "Type" column of its file. */
    function Value(): string {
      match this
      case Income => "Доход"
      case Expense => "Расход"
    }
  }

  /** A category is a name plus a kind; lookups compare names exactly. */
  datatype Category = Category(name: string, kind: TransactionType)

  /**
   * One monetary event. The amount carries no sign constraint and the date
   * is an opaque string; the description may be empty.
   */
  datatype Transaction = Transaction(amount: int, category: Category, date: string, description: string)

  /** The amount with the sign it takes in a balance: income adds, anything else subtracts. */
  function Signed(t: Transaction): int {
    if t.category.kind == Income then t.amount else -t.amount
  }
}
