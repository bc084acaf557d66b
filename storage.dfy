/**
 * The ledger's flat-file storage. A file is a sequence of rows of five text
 * fields; a missing file is None. Saving writes a header row and one row per
 * transaction. Loading resolves each row's category by name against the
 * catalog, silently drops rows it cannot resolve, and gives up on the whole
 * file when the amount of a resolved row is not a number.
 */
module Storage {
  import opened Wrappers
  import opened Finance
  import opened Catalog
  import opened Amounts

  /** One line of the file: amount, category name, kind label, date, description. */
  datatype Row = Row(amount: string, category: string, kind: string, date: string, description: string)

  /** The header row that heads every saved file. */
  const Header: Row := Row("Amount", "Category", "Type", "Date", "Description")

  /** The row written for one transaction; the kind is written as its display label. */
  function ToRow(t: Transaction): Row {
    Row(RenderAmount(t.amount), t.category.name, t.category.kind.Value(), t.date, t.description)
  }

  /** The whole file written for a journal: the header, then one row per transaction in journal order. */
  function Snapshot(j: seq<Transaction>): (rows: seq<Row>)
    ensures |rows| == |j| + 1 && rows[0] == Header
    ensures forall i :: 0 <= i < |j| ==> rows[i + 1] == ToRow(j[i])
  {
    if j == [] then [Header] else Snapshot(j[..|j| - 1]) + [ToRow(j[|j| - 1])]
  }

  /** What a load ends in: no file, a malformed file, or the journal read from it. */
  datatype LoadOutcome = NotFound | Malformed | Loaded(transactions: seq<Transaction>) {
    /** The journal the ledger holds afterwards: empty unless the load succeeded. */
    function Journal(): seq<Transaction> {
      if Loaded? then transactions else []
    }
  }

  /**
   * Reads the data rows (the rows after the header) in order. A row whose
   * category name the catalog lacks is skipped before its amount is looked at;
   * a resolved row whose amount is not a number makes the whole read fail.
   */
  function LoadRows(data: seq<Row>, cats: seq<Category>): (r: Option<seq<Transaction>>)
    ensures r.Some? ==> |r.value| <= |data|
    ensures r.Some? ==> forall t :: t in r.value ==> FindCategory(cats, t.category.name) == Some(t.category)
  {
    if data == [] then Some([])
    else
      var row := data[|data| - 1];
      match LoadRows(data[..|data| - 1], cats)
      case None => None
      case Some(j) =>
        match FindCategory(cats, row.category)
        case None => Some(j)
        case Some(c) =>
          match ParseAmount(row.amount)
          case None => None
          case Some(a) => Some(j + [Transaction(a, c, row.date, row.description)])
  }

  /** Loading a file: its first row is the header, the rest are data rows. */
  function Load(file: Option<seq<Row>>, cats: seq<Category>): LoadOutcome {
    match file
    case None => NotFound
    case Some(rows) =>
      if rows == [] then Loaded([])
      else
        match LoadRows(rows[1..], cats)
        case None => Malformed
        case Some(j) => Loaded(j)
  }

  /** A row that makes a load fail: its category resolves but its amount is not a number. */
  predicate Unreadable(row: Row, cats: seq<Category>) {
    FindCategory(cats, row.category).Some? && ParseAmount(row.amount).None?
  }

  /** Reading data rows fails exactly when one of them resolves to a category but has a non-numeric amount. */
  lemma {:induction false} LoadRowsFailsIff(data: seq<Row>, cats: seq<Category>)
    ensures LoadRows(data, cats).None? <==> exists i :: 0 <= i < |data| && Unreadable(data[i], cats)
    decreases |data|
  {
    if data != [] {
      var p := data[..|data| - 1];
      LoadRowsFailsIff(p, cats);
      if exists i :: 0 <= i < |p| && Unreadable(p[i], cats) {
        var i :| 0 <= i < |p| && Unreadable(p[i], cats);
        assert data[i] == p[i];
      }
    }
  }

  /**
   * A file read row by row: the data rows of a split file read as the rows of
   * the first part followed by the rows of the second, and the read fails
   * exactly when either part fails.
   */
  lemma {:induction false} LoadRowsConcat(a: seq<Row>, b: seq<Row>, cats: seq<Category>)
    ensures var ra, rb := LoadRows(a, cats), LoadRows(b, cats);
            LoadRows(a + b, cats) == if ra.None? || rb.None? then None else Some(ra.value + rb.value)
    decreases |b|
  {
    if b == [] {
      assert a + b == a;
      assert LoadRows(a, cats).Some? ==> LoadRows(a, cats).value + [] == LoadRows(a, cats).value;
    } else {
      var b', row := b[..|b| - 1], b[|b| - 1];
      assert (a + b)[..|a + b| - 1] == a + b';
      assert (a + b)[|a + b| - 1] == row;
      LoadRowsConcat(a, b', cats);
      var ra, rb' := LoadRows(a, cats), LoadRows(b', cats);
      if ra.Some? && rb'.Some? {
        match FindCategory(cats, row.category)
        case None =>
        case Some(c) =>
          match ParseAmount(row.amount)
          case None =>
          case Some(x) =>
            var t := Transaction(x, c, row.date, row.description);
            assert (ra.value + rb'.value) + [t] == ra.value + (rb'.value + [t]);
      }
    }
  }

  /**
   * One data row on its own: a row whose category is unknown yields nothing,
   * a resolved row with a numeric amount yields one transaction carrying that
   * amount, the catalog's first category of that name, and the row's own date
   * and description, and a resolved row with any other amount fails the read.
   */
  lemma LoadRowsSingle(row: Row, cats: seq<Category>)
    ensures FindCategory(cats, row.category).None? ==> LoadRows([row], cats) == Some([])
    ensures Unreadable(row, cats) ==> LoadRows([row], cats).None?
    ensures var c, x := FindCategory(cats, row.category), ParseAmount(row.amount);
            c.Some? && x.Some? ==> LoadRows([row], cats) == Some([Transaction(x.value, c.value, row.date, row.description)])
  {
    assert [row][..0] == [];
    var c, x := FindCategory(cats, row.category), ParseAmount(row.amount);
    if c.Some? && x.Some? {
      var t := Transaction(x.value, c.value, row.date, row.description);
      assert [] + [t] == [t];
    }
  }

  /**
   * A load ends Malformed exactly when some data row resolves to a catalog
   * category and has an amount that is not a number; rows with unknown
   * categories never cause a failure, whatever their amount field holds.
   */
  lemma LoadFailsIff(rows: seq<Row>, cats: seq<Category>)
    ensures Load(Some(rows), cats) == Malformed <==> exists i :: 1 <= i < |rows| && Unreadable(rows[i], cats)
  {
    if rows != [] {
      LoadRowsFailsIff(rows[1..], cats);
      if exists i :: 1 <= i < |rows| && Unreadable(rows[i], cats) {
        var i :| 1 <= i < |rows| && Unreadable(rows[i], cats);
        assert rows[1..][i - 1] == rows[i];
      }
    }
  }

  /** Every loaded transaction is bound to the first catalog category with its name. */
  lemma LoadedFromCatalog(file: Option<seq<Row>>, cats: seq<Category>)
    requires Load(file, cats).Loaded?
    ensures forall t :: t in Load(file, cats).transactions ==> t.category in cats && FindCategory(cats, t.category.name) == Some(t.category)
  {
  }

  /**
   * The journal that a reload of j's snapshot yields: the transactions whose
   * category name the catalog knows, in order, each bound to the catalog's
   * first category with that name.
   */
  function Rebound(j: seq<Transaction>, cats: seq<Category>): (r: seq<Transaction>)
    ensures |r| <= |j|
  {
    if j == [] then []
    else
      var t := j[|j| - 1];
      var p := Rebound(j[..|j| - 1], cats);
      match FindCategory(cats, t.category.name)
      case None => p
      case Some(c) => p + [t.(category := c)]
  }

  /** Rebinding a split journal rebinds each part in turn, keeping order. */
  lemma {:induction false} ReboundConcat(a: seq<Transaction>, b: seq<Transaction>, cats: seq<Category>)
    ensures Rebound(a + b, cats) == Rebound(a, cats) + Rebound(b, cats)
    decreases |b|
  {
    if b == [] {
      assert a + b == a;
    } else {
      var b', t := b[..|b| - 1], b[|b| - 1];
      assert b == b' + [t];
      assert (a + b)[..|a + b| - 1] == a + b';
      ReboundConcat(a, b', cats);
    }
  }

  /** Saving one more transaction adds exactly its row after the earlier data rows. */
  lemma {:induction false} SnapshotAppend(j: seq<Transaction>, t: Transaction)
    ensures Snapshot(j + [t])[1..] == Snapshot(j)[1..] + [ToRow(t)]
  {
    assert (j + [t])[..|j + [t]| - 1] == j;
  }

  /** Reading back the data rows of a snapshot always succeeds and gives the rebound journal. */
  lemma {:induction false} LoadSnapshotRows(j: seq<Transaction>, cats: seq<Category>)
    ensures LoadRows(Snapshot(j)[1..], cats) == Some(Rebound(j, cats))
    decreases |j|
  {
    if j != [] {
      var p, t := j[..|j| - 1], j[|j| - 1];
      assert j == p + [t];
      SnapshotAppend(p, t);
      var data := Snapshot(j)[1..];
      assert data[..|data| - 1] == Snapshot(p)[1..];
      LoadSnapshotRows(p, cats);
      ParseRenderAmount(t.amount);
    }
  }

  /** Saving a journal and loading it back gives the journal's rebound transactions. */
  lemma LoadSnapshot(j: seq<Transaction>, cats: seq<Category>)
    ensures Load(Some(Snapshot(j)), cats) == Loaded(Rebound(j, cats))
  {
    LoadSnapshotRows(j, cats);
  }

  /**
   * A saved transaction whose category name the catalog lacks vanishes on
   * reload, without error, and the rest keep their order.
   */
  lemma UnknownCategoryDropped(a: seq<Transaction>, t: Transaction, b: seq<Transaction>, cats: seq<Category>)
    requires FindCategory(cats, t.category.name).None?
    ensures Load(Some(Snapshot(a + [t] + b)), cats) == Load(Some(Snapshot(a + b)), cats)
  {
    LoadSnapshot(a + [t] + b, cats);
    LoadSnapshot(a + b, cats);
    ReboundConcat(a + [t], b, cats);
    ReboundConcat(a, [t], cats);
    ReboundConcat(a, b, cats);
    assert [t][..0] == [];
  }

  /** When every name is known, rebinding keeps every transaction and changes only its category, to one with the same name. */
  lemma {:induction false} ReboundAllKnown(j: seq<Transaction>, cats: seq<Category>)
    requires forall t :: t in j ==> FindCategory(cats, t.category.name).Some?
    ensures |Rebound(j, cats)| == |j|
    ensures forall i :: 0 <= i < |j| ==> Rebound(j, cats)[i] == j[i].(category := Rebound(j, cats)[i].category)
    ensures forall i :: 0 <= i < |j| ==> Rebound(j, cats)[i].category.name == j[i].category.name
    decreases |j|
  {
    if j != [] {
      var p, t := j[..|j| - 1], j[|j| - 1];
      assert j == p + [t];
      ReboundAllKnown(p, cats);
    }
  }

  /**
   * Round trip: when the catalog knows every category name of the journal,
   * reloading its snapshot reproduces every transaction's amount, category
   * name, date and description, in order.
   */
  lemma RoundTrip(j: seq<Transaction>, cats: seq<Category>)
    requires forall t :: t in j ==> FindCategory(cats, t.category.name).Some?
    ensures Load(Some(Snapshot(j)), cats).Loaded?
    ensures var r := Load(Some(Snapshot(j)), cats).transactions;
      |r| == |j| &&
      forall i :: 0 <= i < |j| ==>
        r[i].amount == j[i].amount && r[i].category.name == j[i].category.name &&
        r[i].date == j[i].date && r[i].description == j[i].description
  {
    LoadSnapshot(j, cats);
    ReboundAllKnown(j, cats);
  }

  /**
   * Exact round trip: when each transaction's category is the catalog's
   * first category of that name, reloading the snapshot gives the journal back.
   */
  lemma {:induction false} RoundTripExact(j: seq<Transaction>, cats: seq<Category>)
    requires forall t :: t in j ==> FindCategory(cats, t.category.name) == Some(t.category)
    ensures Load(Some(Snapshot(j)), cats) == Loaded(j)
    decreases |j|
  {
    LoadSnapshot(j, cats);
    ReboundAllKnown(j, cats);
    assert forall i :: 0 <= i < |j| ==> Rebound(j, cats)[i] == j[i] by {
      forall i | 0 <= i < |j| ensures Rebound(j, cats)[i] == j[i] {
        assert j[i] in j;
      }
    }
  }
}
