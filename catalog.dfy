/**
 * The category catalog: the eight defaults every ledger starts with, the
 * first-match lookup by exact name, and the filter by kind.
 */
module Catalog {
  import opened Wrappers
  import opened Finance

  /** The categories of the catalog whose kind is k, in catalog order. */
  function CategoriesByKind(cats: seq<Category>, k: TransactionType): (r: seq<Category>)
    ensures |r| <= |cats|
  {
    if cats == [] then []
    else
      var c := cats[|cats| - 1];
      CategoriesByKind(cats[..|cats| - 1], k) + (if c.kind == k then [c] else [])
  }

  /** The filter keeps exactly the categories of kind k. */
  lemma {:induction false} CategoriesByKindMembers(cats: seq<Category>, k: TransactionType)
    ensures forall c :: c in CategoriesByKind(cats, k) <==> c in cats && c.kind == k
    decreases |cats|
  {
    if cats != [] {
      var p, c := cats[..|cats| - 1], cats[|cats| - 1];
      assert cats == p + [c];
      CategoriesByKindMembers(p, k);
    }
  }

  /** The filter keeps catalog order: filtering a split catalog filters each part. */
  lemma {:induction false} CategoriesByKindConcat(a: seq<Category>, b: seq<Category>, k: TransactionType)
    ensures CategoriesByKind(a + b, k) == CategoriesByKind(a, k) + CategoriesByKind(b, k)
    decreases |b|
  {
    if b == [] {
      assert a + b == a;
    } else {
      var b', c := b[..|b| - 1], b[|b| - 1];
      var last: seq<Category> := if c.kind == k then [c] else [];
      assert (a + b)[..|a + b| - 1] == a + b';
      assert (a + b)[|a + b| - 1] == c;
      assert CategoriesByKind(a + b, k) == CategoriesByKind(a + b', k) + last;
      assert CategoriesByKind(b, k) == CategoriesByKind(b', k) + last;
      CategoriesByKindConcat(a, b', k);
    }
  }

  /** Every category kind splits the catalog: the two filters partition it by size. */
  lemma {:induction false} CategoriesByKindPartition(cats: seq<Category>)
    ensures |CategoriesByKind(cats, Income)| + |CategoriesByKind(cats, Expense)| == |cats|
    decreases |cats|
  {
    if cats != [] {
      CategoriesByKindPartition(cats[..|cats| - 1]);
    }
  }

  /** A catalog of one kind only: the filter keeps all of it for that kind and none of it for the other. */
  lemma {:induction false} CategoriesByKindUniform(cats: seq<Category>, k: TransactionType)
    requires forall c :: c in cats ==> c.kind == k
    ensures CategoriesByKind(cats, k) == cats
    ensures CategoriesByKind(cats, if k == Income then Expense else Income) == []
    decreases |cats|
  {
    if cats != [] {
      var p := cats[..|cats| - 1];
      assert cats == p + [cats[|cats| - 1]];
      CategoriesByKindUniform(p, k);
    }
  }

  /** The default income categories, in catalog order. */
  function DefaultIncome(): seq<Category> {
    [ Category("Зарплата", Income),
      Category("Инвестиции", Income) ]
  }

  /** The default expense categories, in catalog order. */
  function DefaultExpenses(): seq<Category> {
    [ Category("Продукты", Expense),
      Category("Транспорт", Expense),
      Category("Развлечения", Expense),
      Category("Жилье", Expense),
      Category("Здоровье", Expense),
      Category("Образование", Expense) ]
  }

  /** The catalog every ledger is seeded with: eight categories, no name twice. */
  function DefaultCatalog(): (r: seq<Category>)
    ensures |r| == 8
    ensures forall i, k :: 0 <= i < k < |r| ==> r[i].name != r[k].name
  {
    DefaultIncome() + DefaultExpenses()
  }

  /** The defaults hold two income categories and six expense categories, in that order. */
  lemma DefaultCatalogKinds()
    ensures CategoriesByKind(DefaultCatalog(), Income) == DefaultIncome()
    ensures CategoriesByKind(DefaultCatalog(), Expense) == DefaultExpenses()
    ensures |DefaultIncome()| == 2 && |DefaultExpenses()| == 6
  {
    CategoriesByKindConcat(DefaultIncome(), DefaultExpenses(), Income);
    CategoriesByKindConcat(DefaultIncome(), DefaultExpenses(), Expense);
    CategoriesByKindUniform(DefaultIncome(), Income);
    CategoriesByKindUniform(DefaultExpenses(), Expense);
  }

  /** The first category of the catalog named exactly name, if any. */
  function FindCategory(cats: seq<Category>, name: string): (r: Option<Category>)
    ensures r.Some? ==> r.value in cats && r.value.name == name
    ensures r.None? <==> forall c :: c in cats ==> c.name != name
  {
    if cats == [] then None
    else if cats[0].name == name then Some(cats[0])
    else
      assert cats == [cats[0]] + cats[1..];
      FindCategory(cats[1..], name)
  }

  /** The lookup returns the earliest category with the name: the first match wins. */
  lemma {:induction false} FindCategoryFirst(cats: seq<Category>, name: string, i: int)
    requires 0 <= i < |cats| && cats[i].name == name
    requires forall k :: 0 <= k < i ==> cats[k].name != name
    ensures FindCategory(cats, name) == Some(cats[i])
    decreases i
  {
    if i > 0 {
      FindCategoryFirst(cats[1..], name, i - 1);
    }
  }

  /**
   * Adding a category never shadows an earlier one of the same name: a
   * duplicate name is found only through the category added first.
   */
  lemma {:induction false} FindCategoryAppend(cats: seq<Category>, c: Category, name: string)
    ensures FindCategory(cats + [c], name) ==
            if FindCategory(cats, name).Some? then FindCategory(cats, name)
            else if c.name == name then Some(c) else None
    decreases |cats|
  {
    if cats != [] {
      assert (cats + [c])[1..] == cats[1..] + [c];
      FindCategoryAppend(cats[1..], c, name);
    }
  }
}
