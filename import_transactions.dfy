/**
 * Importing transactions from a parsed file: buffer the rows, find which of their category
 * titles are stored, save one category per missing title, and save one transaction per row
 * with its category looked up by title.
 */
module ImportTransactions {
  import opened Entities
  import opened Lists
  import Storage

  /** One parsed line after the header, destructured as [title, type, value, category]. */
  type Fields = (string, string, int, string)

  /** A buffered row (`CSVTransaction`); `kind` is its `type`, `category` a category title. */
  datatype Row = Row(title: string, kind: string, value: int, category: string)

  /** The buffer the `data` handler fills: one row per parsed line, in file order. */
  function Buffered(parsed: seq<Fields>): seq<Row> {
    seq(|parsed|, i requires 0 <= i < |parsed| => Row(parsed[i].0, parsed[i].1, parsed[i].2, parsed[i].3))
  }

  /** The `data` handler pushing every parsed line onto `csvTransactions`. */
  method BufferRows(parsed: seq<Fields>) returns (rows: seq<Row>)
    ensures |rows| == |parsed|
    ensures forall i :: 0 <= i < |parsed| ==>
      rows[i] == Row(parsed[i].0, parsed[i].1, parsed[i].2, parsed[i].3)
  {
    rows := [];
    var i := 0;
    while i < |parsed|
      invariant 0 <= i <= |parsed|
      invariant |rows| == i
      invariant forall k :: 0 <= k < i ==> rows[k] == Row(parsed[k].0, parsed[k].1, parsed[k].2, parsed[k].3)
    {
      var (title, kind, value, category) := parsed[i];
      rows := rows + [Row(title, kind, value, category)];
      i := i + 1;
    }
  }

  /** `csvTransactions.map(transaction => transaction.category)`: a title is listed exactly when some row names it. */
  function CategoryTitles(rows: seq<Row>): (titles: seq<string>)
    ensures |titles| == |rows|
    ensures forall i :: 0 <= i < |rows| ==> titles[i] == rows[i].category
    ensures forall t :: t in titles <==> exists i :: 0 <= i < |rows| && rows[i].category == t
  {
    var titles := seq(|rows|, i requires 0 <= i < |rows| => rows[i].category);
    assert forall i :: 0 <= i < |rows| ==> titles[i] == rows[i].category;
    titles
  }

  /** `find({ where: { title: In(titles) } })`: the stored categories whose title is listed, in store order. */
  function ExistingCategories(stored: seq<Category>, titles: seq<string>): (r: seq<Category>)
    ensures forall c :: c in r <==> c in stored && c.title in titles
  {
    if |stored| == 0 then []
    else
      assert stored == [stored[0]] + stored[1..];
      (if stored[0].title in titles then [stored[0]] else []) + ExistingCategories(stored[1..], titles)
  }

  /**
   * `addCategories`: the listed titles that no stored category carries, each once, in the
   * order of their first occurrence in the list.
   */
  function TitlesToAdd(stored: seq<Category>, titles: seq<string>): (added: seq<string>)
    ensures forall t :: t in added <==> t in titles && t !in TitlesOf(stored)
    ensures NoDuplicates(added)
    ensures forall i, j :: 0 <= i < j < |added| ==> IndexOf(titles, added[i]) < IndexOf(titles, added[j])
  {
    var excluded := TitlesOf(ExistingCategories(stored, titles));
    var kept := Without(titles, excluded);
    ExistingTitlesAll(stored, titles);
    assert forall t :: t in kept <==> t in titles && t !in TitlesOf(stored);
    var added := FirstOccurrences(kept);
    FirstOccurrencesOfWithout(titles, excluded, added);
    added
  }

  /**
   * `addTransactions`: one draft per row, with the row's title, value and type, and the
   * first category carrying the row's category title, if any.
   */
  function MapRows(rows: seq<Row>, categories: seq<Category>): (drafts: seq<Draft>)
    ensures |drafts| == |rows|
    ensures forall i :: 0 <= i < |rows| ==>
      && drafts[i].title == rows[i].title
      && drafts[i].value == rows[i].value
      && drafts[i].kind == rows[i].kind
      && (drafts[i].category.Some? <==> rows[i].category in TitlesOf(categories))
      && (drafts[i].category.Some? ==>
            drafts[i].category.value in categories && drafts[i].category.value.title == rows[i].category)
      && drafts[i].category == FindByTitle(categories, rows[i].category)
  {
    seq(|rows|, i requires 0 <= i < |rows| =>
      Draft(rows[i].title, rows[i].value, rows[i].kind, FindByTitle(categories, rows[i].category)))
  }

  /** The saved transactions `execute` returns and the store it leaves behind. */
  function Import(l: Ledger, rows: seq<Row>): (seq<Transaction>, Ledger) {
    var titles := CategoryTitles(rows);
    var existing := ExistingCategories(l.categories, titles);
    var toAdd := TitlesToAdd(l.categories, titles);
    var l1 := AddCategories(l, toAdd);
    var drafts := MapRows(rows, existing + NewCategories(toAdd, l.nextCategoryId));
    (Persist(drafts, l1.nextTransactionId), AddTransactions(l1, drafts))
  }

  /** `ImportTransactionsService.execute` on the store, from the parsed lines on. */
  method Execute(store: Storage.Store, parsed: seq<Fields>) returns (saved: seq<Transaction>)
    modifies store
    ensures (saved, store.State()) == Import(old(store.State()), Buffered(parsed))
  {
    var rows := BufferRows(parsed);
    assert rows == Buffered(parsed);
    var titles := CategoryTitles(rows);
    var existing := ExistingCategories(store.categories, titles);
    var existingTitles := TitlesOf(existing);
    var toAdd := FirstOccurrences(Without(titles, existingTitles));
    var savedCategories := store.SaveCategories(toAdd);
    var finalCategories := existing + savedCategories;
    saved := store.SaveTransactions(MapRows(rows, finalCategories));
  }

  /** A listed title is an existing title exactly when some stored category carries it. */
  lemma ExistingTitles(stored: seq<Category>, titles: seq<string>, t: string)
    requires t in titles
    ensures t in TitlesOf(ExistingCategories(stored, titles)) <==> t in TitlesOf(stored)
  {
    var existing := ExistingCategories(stored, titles);
    if t in TitlesOf(existing) {
      var i :| 0 <= i < |existing| && TitlesOf(existing)[i] == t;
      var j :| 0 <= j < |stored| && stored[j] == existing[i];
      assert TitlesOf(stored)[j] == t;
    }
    if t in TitlesOf(stored) {
      var j :| 0 <= j < |stored| && TitlesOf(stored)[j] == t;
      var i :| 0 <= i < |existing| && existing[i] == stored[j];
      assert TitlesOf(existing)[i] == t;
    }
  }

  /** `ExistingTitles` for every listed title. */
  lemma ExistingTitlesAll(stored: seq<Category>, titles: seq<string>)
    ensures forall t :: t in titles ==>
      (t in TitlesOf(ExistingCategories(stored, titles)) <==> t in TitlesOf(stored))
  {
    forall t | t in titles {
      ExistingTitles(stored, titles, t);
    }
  }

  /** As many categories are added as there are distinct listed titles not yet stored. */
  lemma AddedCount(stored: seq<Category>, titles: seq<string>)
    ensures |TitlesToAdd(stored, titles)| == |set t | t in titles && t !in TitlesOf(stored)|
  {
    var added := TitlesToAdd(stored, titles);
    DistinctCount(added);
    assert (set t | t in added) == (set t | t in titles && t !in TitlesOf(stored));
  }

  /**
   * Every row's category title is carried by a category of `finalCategories`, so the
   * lookup by title finds a category with exactly that title.
   */
  lemma EveryRowResolves(l: Ledger, rows: seq<Row>)
    ensures var titles := CategoryTitles(rows);
      var toAdd := TitlesToAdd(l.categories, titles);
      var final := ExistingCategories(l.categories, titles) + NewCategories(toAdd, l.nextCategoryId);
      forall i :: 0 <= i < |rows| ==>
        FindByTitle(final, rows[i].category).Some? && FindByTitle(final, rows[i].category).value.title == rows[i].category
  {
    var titles := CategoryTitles(rows);
    var toAdd := TitlesToAdd(l.categories, titles);
    var final := ExistingCategories(l.categories, titles) + NewCategories(toAdd, l.nextCategoryId);
    forall i | 0 <= i < |rows|
      ensures FindByTitle(final, rows[i].category).Some?
    {
      assert titles[i] == rows[i].category;
      ListedTitleIsFinal(l.categories, titles, l.nextCategoryId, rows[i].category);
    }
  }

  /** A listed title is carried by an existing category or by one of the added ones. */
  lemma ListedTitleIsFinal(stored: seq<Category>, titles: seq<string>, firstId: nat, t: string)
    requires t in titles
    ensures t in TitlesOf(ExistingCategories(stored, titles) + NewCategories(TitlesToAdd(stored, titles), firstId))
  {
    var existing := ExistingCategories(stored, titles);
    var toAdd := TitlesToAdd(stored, titles);
    var added := NewCategories(toAdd, firstId);
    TitlesOfConcat(existing, added);
    ExistingTitles(stored, titles, t);
    if t !in TitlesOf(stored) {
      assert t in TitlesOf(added);
    }
  }

  /**
   * One transaction per row, in row order, under consecutive new ids, with title, type
   * and value copied whatever they are, and a category titled as the row's category;
   * the stored transactions before them are unchanged.
   */
  lemma ImportOutput(l: Ledger, rows: seq<Row>)
    ensures var (out, l') := Import(l, rows);
      && |out| == |rows|
      && l'.transactions == l.transactions + out
      && l'.nextTransactionId == l.nextTransactionId + |rows|
      && forall i :: 0 <= i < |rows| ==>
        && out[i].id == l.nextTransactionId + i
        && out[i].title == rows[i].title
        && out[i].kind == rows[i].kind
        && out[i].value == rows[i].value
        && out[i].category.Some?
        && out[i].category.value.title == rows[i].category
  {
    EveryRowResolves(l, rows);
  }

  /**
   * The stored categories are kept and one category per title to add is appended under
   * consecutive new ids; their number is that of the distinct row titles not yet stored.
   */
  lemma ImportAddsMissingCategories(l: Ledger, rows: seq<Row>)
    ensures var l' := Import(l, rows).1;
      var titles := CategoryTitles(rows);
      var toAdd := TitlesToAdd(l.categories, titles);
      && l'.categories == l.categories + NewCategories(toAdd, l.nextCategoryId)
      && |toAdd| == |set t | t in titles && t !in TitlesOf(l.categories)|
  {
    AddedCount(l.categories, CategoryTitles(rows));
  }

  /** Importing into a consistent store leaves it consistent, titles still unique. */
  lemma ImportKeepsConsistent(l: Ledger, rows: seq<Row>)
    requires Consistent(l)
    ensures Consistent(Import(l, rows).1)
  {
    var titles := CategoryTitles(rows);
    var existing := ExistingCategories(l.categories, titles);
    var toAdd := TitlesToAdd(l.categories, titles);
    var added := NewCategories(toAdd, l.nextCategoryId);
    var drafts := MapRows(rows, existing + added);
    EveryRowResolves(l, rows);
    forall i | 0 <= i < |drafts|
      ensures drafts[i].category.Some? && drafts[i].category.value in AddCategories(l, toAdd).categories
    {
      assert drafts[i].category.value in existing + added;
    }
    SavesKeepConsistent(l, toAdd, drafts);
  }

  /**
   * After importing into a consistent store, each row's transaction references the one
   * and only stored category carrying the row's category title: existing categories are
   * reused and each missing title is created once.
   */
  lemma EachRowTitleStoredOnce(l: Ledger, rows: seq<Row>)
    requires Consistent(l)
    ensures var (out, l') := Import(l, rows);
      forall i :: 0 <= i < |rows| ==>
        && out[i].category.Some?
        && out[i].category.value in l'.categories
        && forall c :: c in l'.categories && c.title == rows[i].category ==> c == out[i].category.value
  {
    var (out, l') := Import(l, rows);
    ImportOutput(l, rows);
    ImportKeepsConsistent(l, rows);
    OnlyOwnerOfTitle(l', l.transactions, out, rows);
  }

  /**
   * In a consistent store whose transactions end with `out`, each transaction of `out`
   * references the only stored category carrying its row's category title.
   */
  lemma OnlyOwnerOfTitle(l': Ledger, front: seq<Transaction>, out: seq<Transaction>, rows: seq<Row>)
    requires Consistent(l')
    requires l'.transactions == front + out && |out| == |rows|
    requires forall i :: 0 <= i < |rows| ==>
      out[i].category.Some? && out[i].category.value.title == rows[i].category
    ensures forall i :: 0 <= i < |rows| ==>
      && out[i].category.value in l'.categories
      && forall c :: c in l'.categories && c.title == rows[i].category ==> c == out[i].category.value
  {
    forall i | 0 <= i < |rows|
      ensures out[i].category.value in l'.categories
      ensures forall c :: c in l'.categories && c.title == rows[i].category ==> c == out[i].category.value
    {
      assert l'.transactions[|front| + i] == out[i];
      var found := out[i].category.value;
      forall c | c in l'.categories && c.title == rows[i].category
        ensures c == found
      {
        var a :| 0 <= a < |l'.categories| && l'.categories[a] == c;
        var b :| 0 <= b < |l'.categories| && l'.categories[b] == found;
        assert a == b;
      }
    }
  }
}
