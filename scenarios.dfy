/**
 * Concrete runs of both services on an empty store, with the balance taken as
 * income - outcome.
 */
module Scenarios {
  import opened Entities
  import opened CreateTransaction
  import opened Balance
  import opened ImportTransactions
  import opened Lists

  const Empty := Ledger([], [], 0, 0)

  /** An outcome of 50 against a zero balance is refused, and the balance stays 0. */
  lemma OutcomeAgainstEmptyBalance()
    ensures var (r, l') := Create(Empty, Request("Groceries", 50, OUTCOME, "Food"), Total);
      r == Failure(InsufficientBalance) && l' == Empty && Total(l'.transactions) == 0
  {
    InsufficientBalanceChangesNothing(Empty, Request("Groceries", 50, OUTCOME, "Food"), Total);
  }

  /** Into an empty store, rows that all name one category add exactly that category. */
  lemma OneTitleAdded(rows: seq<Row>, title: string)
    requires rows != [] && forall i :: 0 <= i < |rows| ==> rows[i].category == title
    ensures TitlesToAdd([], CategoryTitles(rows)) == [title]
  {
    var titles := CategoryTitles(rows);
    var toAdd := TitlesToAdd([], titles);
    AddedCount([], titles);
    assert titles[0] == title;
    assert (set t | t in titles && t !in TitlesOf([])) == {title};
    assert toAdd[0] in toAdd;
  }

  /** Rows naming "A" and then "B" in an empty store add the category "A" before "B". */
  lemma NewTitlesInRowOrder(a: Row, b: Row)
    requires a.category == "A" && b.category == "B"
    ensures TitlesToAdd([], CategoryTitles([a, b])) == ["A", "B"]
  {
    var titles := CategoryTitles([a, b]);
    assert titles == ["A", "B"];
    assert ExistingCategories([], titles) == [];
    assert Without(titles[1..], []) == ["B"];
    assert Without(titles, []) == titles;
    assert IndexOf(titles, "A") == 0 && IndexOf(titles, "B") == 1;
    assert KeepFirst(titles, 1) == ["A"];
    assert KeepFirst(titles, 2) == ["A", "B"];
    assert titles[..|titles|] == titles;
  }

  /**
   * Importing an income of 100 and an outcome of 30 that share the category "Food" stores
   * that category once, two transactions referencing it, and leaves a balance of 70.
   */
  lemma ImportThenBalance()
    ensures var rows := [Row("A", INCOME, 100, "Food"), Row("B", OUTCOME, 30, "Food")];
      var (out, l') := Import(Empty, rows);
      && l'.categories == [Category(0, "Food")]
      && |out| == 2 && out[0].category == out[1].category == Some(Category(0, "Food"))
      && Total(l'.transactions) == 70
  {
    var rows := [Row("A", INCOME, 100, "Food"), Row("B", OUTCOME, 30, "Food")];
    var (out, l') := Import(Empty, rows);
    var food := Category(0, "Food");
    OneTitleAdded(rows, "Food");
    assert ExistingCategories([], CategoryTitles(rows)) == [];
    assert NewCategories(["Food"], 0) == [food];
    assert FindByTitle([food], "Food") == Some(food);
    assert MapRows(rows, [] + [food]) == [Draft("A", 100, INCOME, Some(food)), Draft("B", 30, OUTCOME, Some(food))];
    assert l'.categories == [food];
    assert l'.transactions == out;
    assert out[..1][..0] == [];
    assert Total(out[..1]) == 100;
    assert out[..2] == out;
  }

  /**
   * Importing a single row into an empty store creates its category under id 0 and one
   * transaction under id 0 that references it, whatever the row's type and value.
   */
  lemma ImportOneRowIntoEmpty(row: Row)
    ensures var c := Category(0, row.category);
      var (out, l') := Import(Empty, [row]);
      && l'.categories == [c]
      && out == [Transaction(0, row.title, row.value, row.kind, Some(c))]
  {
    var rows := [row];
    var c := Category(0, row.category);
    var (out, l') := Import(Empty, rows);
    OneTitleAdded(rows, row.category);
    ImportAddsMissingCategories(Empty, rows);
    ImportOutput(Empty, rows);
    assert NewCategories([row.category], 0) == [c];
    assert l'.categories == [c];
    assert out[0].category.value in l'.categories by {
      ImportKeepsConsistent(Empty, rows);
      assert l'.transactions[0] == out[0];
    }
    assert out == [out[0]];
  }

  /** Importing "Rent" as an outcome of 200 in "Home" creates "Home" once and references it. */
  lemma ImportCreatesMissingCategory()
    ensures var (out, l') := Import(Empty, [Row("Rent", OUTCOME, 200, "Home")]);
      && l'.categories == [Category(0, "Home")]
      && out == [Transaction(0, "Rent", 200, OUTCOME, Some(Category(0, "Home")))]
  {
    ImportOneRowIntoEmpty(Row("Rent", OUTCOME, 200, "Home"));
  }
}
