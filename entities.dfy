/**
 * The two stored entities, the unsaved transaction handed to the repository, and the
 * whole store as a value (`Ledger`), with the operations the repositories perform on it.
 */
module Entities {

  datatype Option<T> = None | Some(value: T)

  datatype Result<T, E> = Success(value: T) | Failure(error: E)

  const INCOME: string := "income"
  const OUTCOME: string := "outcome"

  /** A stored category; `id` is handed out by the store. */
  datatype Category = Category(id: nat, title: string)

  /**
   * A stored transaction. `kind` is the source's `type` field, kept as the raw string
   * because the import path stores whatever the file holds. `category` is optional
   * because the import path looks it up with `find`, which may come back empty.
   */
  datatype Transaction = Transaction(id: nat, title: string, value: int, kind: string, category: Option<Category>)

  /** What `repository.create(...)` builds: a transaction that has no id yet. */
  datatype Draft = Draft(title: string, value: int, kind: string, category: Option<Category>)

  /** Contents of both repositories, with the next ids they will hand out. */
  datatype Ledger = Ledger(
    categories: seq<Category>,
    transactions: seq<Transaction>,
    nextCategoryId: nat,
    nextTransactionId: nat)

  /** `categories.map(category => category.title)` */
  function TitlesOf(categories: seq<Category>): seq<string> {
    seq(|categories|, i requires 0 <= i < |categories| => categories[i].title)
  }

  /** A title is among the titles of a list exactly when some category in it carries the title. */
  lemma TitleListed(categories: seq<Category>, t: string)
    ensures |TitlesOf(categories)| == |categories|
    ensures t in TitlesOf(categories) <==> exists c :: c in categories && c.title == t
  {
    var titles := TitlesOf(categories);
    if c :| c in categories && c.title == t {
      var i :| 0 <= i < |categories| && categories[i] == c;
      assert titles[i] == t;
    }
  }

  lemma TitlesOfConcat(a: seq<Category>, b: seq<Category>)
    ensures TitlesOf(a + b) == TitlesOf(a) + TitlesOf(b)
  {
  }

  /**
   * The first category with the given title: both `findOne({ where: { title } })` on the
   * repository and `finalCategories.find(...)` on an array.
   */
  function FindByTitle(categories: seq<Category>, title: string): (r: Option<Category>)
    ensures r.Some? <==> title in TitlesOf(categories)
    ensures r.Some? ==> r.value in categories && r.value.title == title
    ensures r.Some? ==> exists k ::
      && 0 <= k < |categories| && categories[k] == r.value
      && forall j :: 0 <= j < k ==> categories[j].title != title
  {
    if |categories| == 0 then None
    else
      assert TitlesOf(categories) == [categories[0].title] + TitlesOf(categories[1..]);
      if categories[0].title == title then Some(categories[0])
      else FindByTitle(categories[1..], title)
  }

  /** The categories a batch `save` stores for the given titles, numbered from `firstId`. */
  function NewCategories(titles: seq<string>, firstId: nat): (r: seq<Category>)
    ensures TitlesOf(r) == titles
  {
    seq(|titles|, i requires 0 <= i < |titles| => Category(firstId + i, titles[i]))
  }

  /** The transactions a batch `save` stores for the given drafts, numbered from `firstId`. */
  function Persist(drafts: seq<Draft>, firstId: nat): seq<Transaction> {
    seq(|drafts|, i requires 0 <= i < |drafts| =>
      Transaction(firstId + i, drafts[i].title, drafts[i].value, drafts[i].kind, drafts[i].category))
  }

  /** The ledger after the category repository saves one new category per title. */
  function AddCategories(l: Ledger, titles: seq<string>): Ledger {
    l.(categories := l.categories + NewCategories(titles, l.nextCategoryId),
       nextCategoryId := l.nextCategoryId + |titles|)
  }

  /** The ledger after the transaction repository saves the drafts. */
  function AddTransactions(l: Ledger, drafts: seq<Draft>): Ledger {
    l.(transactions := l.transactions + Persist(drafts, l.nextTransactionId),
       nextTransactionId := l.nextTransactionId + |drafts|)
  }

  ghost predicate UniqueTitles(categories: seq<Category>) {
    forall i, j :: 0 <= i < j < |categories| ==> categories[i].title != categories[j].title
  }

  /**
   * The invariant both services keep: category titles are unique, ids are handed out in
   * increasing order below the next id, and every transaction references a stored category.
   */
  ghost predicate Consistent(l: Ledger) {
    && UniqueTitles(l.categories)
    && (forall i, j :: 0 <= i < j < |l.categories| ==> l.categories[i].id < l.categories[j].id)
    && (forall i :: 0 <= i < |l.categories| ==> l.categories[i].id < l.nextCategoryId)
    && (forall i, j :: 0 <= i < j < |l.transactions| ==> l.transactions[i].id < l.transactions[j].id)
    && (forall i :: 0 <= i < |l.transactions| ==> l.transactions[i].id < l.nextTransactionId)
    && (forall i :: 0 <= i < |l.transactions| ==>
          l.transactions[i].category.Some? && l.transactions[i].category.value in l.categories)
  }

  /**
   * Saving categories whose titles are distinct and not yet stored, then transactions
   * that all reference categories of the resulting store, keeps the ledger consistent.
   */
  lemma {:induction false} SavesKeepConsistent(l: Ledger, titles: seq<string>, drafts: seq<Draft>)
    requires Consistent(l)
    requires forall i, j :: 0 <= i < j < |titles| ==> titles[i] != titles[j]
    requires forall t :: t in titles ==> t !in TitlesOf(l.categories)
    requires forall i :: 0 <= i < |drafts| ==>
      drafts[i].category.Some? && drafts[i].category.value in AddCategories(l, titles).categories
    ensures Consistent(AddTransactions(AddCategories(l, titles), drafts))
  {
    var l1 := AddCategories(l, titles);
    var l2 := AddTransactions(l1, drafts);
    var cs, added := l.categories, NewCategories(titles, l.nextCategoryId);
    assert l1.categories == cs + added;
    forall i, j | 0 <= i < j < |l1.categories|
      ensures l1.categories[i].title != l1.categories[j].title
    {
      if j >= |cs| {
        assert l1.categories[j] == added[j - |cs|];
        assert l1.categories[j].title == TitlesOf(added)[j - |cs|] == titles[j - |cs|];
        if i < |cs| {
          assert titles[j - |cs|] in titles;
          assert l1.categories[i].title == TitlesOf(cs)[i];
        } else {
          assert l1.categories[i] == added[i - |cs|];
          assert l1.categories[i].title == TitlesOf(added)[i - |cs|] == titles[i - |cs|];
        }
      } else {
        assert l1.categories[i] == cs[i] && l1.categories[j] == cs[j];
      }
    }
    forall i | 0 <= i < |l2.transactions|
      ensures l2.transactions[i].category.Some? && l2.transactions[i].category.value in l2.categories
    {
      if i < |l.transactions| {
        assert l2.transactions[i] == l.transactions[i];
      } else {
        assert l2.transactions[i].category == drafts[i - |l.transactions|].category;
      }
    }
  }
}
