/**
 * Creating one transaction: a type check, a balance check for outcomes, a find-or-create
 * of the category by title, and the save of the transaction.
 */
module CreateTransaction {
  import opened Entities
  import Storage

  datatype Error = InvalidType | InsufficientBalance

  /** The request body: `type` is `kind`, `category` is the category's title. */
  datatype Request = Request(title: string, value: int, kind: string, category: string)

  /**
   * The balance total reported by the transactions repository, as a function of the
   * stored transactions. Its aggregation is not part of this model, so `Create` is
   * stated for every such function.
   */
  type BalanceOf = seq<Transaction> -> int

  /** The outcome of `execute` and the store it leaves behind. */
  function Create(l: Ledger, req: Request, balance: BalanceOf): (Result<Transaction, Error>, Ledger) {
    if req.kind != INCOME && req.kind != OUTCOME then (Failure(InvalidType), l)
    else if req.kind == OUTCOME && req.value > balance(l.transactions) then (Failure(InsufficientBalance), l)
    else
      var found := FindByTitle(l.categories, req.category);
      var l1 := if found.Some? then l else AddCategories(l, [req.category]);
      var category := if found.Some? then found.value else Category(l.nextCategoryId, req.category);
      var draft := Draft(req.title, req.value, req.kind, Some(category));
      (Success(Transaction(l1.nextTransactionId, req.title, req.value, req.kind, Some(category))),
       AddTransactions(l1, [draft]))
  }

  /** `CreateTransactionService.execute` on the store. */
  method Execute(store: Storage.Store, req: Request, balance: BalanceOf) returns (r: Result<Transaction, Error>)
    modifies store
    ensures (r, store.State()) == Create(old(store.State()), req, balance)
  {
    if req.kind != INCOME && req.kind != OUTCOME {
      return Failure(InvalidType);
    }
    if req.kind == OUTCOME {
      var total := balance(store.transactions);
      if req.value > total {
        return Failure(InsufficientBalance);
      }
    }
    var savedCategory := FindByTitle(store.categories, req.category);
    if savedCategory.None? {
      var created := store.SaveCategory(req.category);
      savedCategory := Some(created);
    }
    var transaction := store.SaveTransaction(Draft(req.title, req.value, req.kind, savedCategory));
    r := Success(transaction);
  }

  /** A type other than income or outcome fails and neither repository changes. */
  lemma InvalidTypeChangesNothing(l: Ledger, req: Request, balance: BalanceOf)
    requires req.kind != INCOME && req.kind != OUTCOME
    ensures Create(l, req, balance) == (Failure(InvalidType), l)
  {
  }

  /** An outcome above the balance total fails and neither repository changes. */
  lemma InsufficientBalanceChangesNothing(l: Ledger, req: Request, balance: BalanceOf)
    requires req.kind == OUTCOME && req.value > balance(l.transactions)
    ensures Create(l, req, balance) == (Failure(InsufficientBalance), l)
  {
  }

  /** An income is never rejected, and the balance total has no say in what it does. */
  lemma IncomeIgnoresBalance(l: Ledger, req: Request, balance: BalanceOf, other: BalanceOf)
    requires req.kind == INCOME
    ensures Create(l, req, balance).0.Success?
    ensures Create(l, req, balance) == Create(l, req, other)
  {
  }

  /** An outcome not above the balance total passes the balance check. */
  lemma OutcomeWithinBalancePasses(l: Ledger, req: Request, balance: BalanceOf)
    requires req.kind == OUTCOME && req.value <= balance(l.transactions)
    ensures Create(l, req, balance).0.Success?
  {
  }

  /** Only the two gates can reject a request. */
  lemma FailsOnlyAtTheGates(l: Ledger, req: Request, balance: BalanceOf)
    ensures Create(l, req, balance).0.Success? <==>
      (req.kind == INCOME || (req.kind == OUTCOME && req.value <= balance(l.transactions)))
  {
  }

  /**
   * On success exactly one transaction is appended, carrying the requested title, value
   * and type and the next transaction id; the stored transactions before it are unchanged.
   */
  lemma SuccessAppendsOneTransaction(l: Ledger, req: Request, balance: BalanceOf)
    requires Create(l, req, balance).0.Success?
    ensures var (r, l') := Create(l, req, balance);
      && l'.transactions == l.transactions + [r.value]
      && l'.nextTransactionId == l.nextTransactionId + 1
      && r.value.id == l.nextTransactionId
      && r.value.title == req.title && r.value.value == req.value && r.value.kind == req.kind
  {
  }

  /**
   * When a category with the requested title is stored, no category is created and the
   * transaction references that category.
   */
  lemma ExistingCategoryReused(l: Ledger, req: Request, balance: BalanceOf)
    requires Create(l, req, balance).0.Success?
    requires FindByTitle(l.categories, req.category).Some?
    ensures var (r, l') := Create(l, req, balance);
      && l'.categories == l.categories
      && l'.nextCategoryId == l.nextCategoryId
      && r.value.category == FindByTitle(l.categories, req.category)
  {
  }

  /**
   * When no category has the requested title, exactly one category with that title is
   * appended under the next category id, and the transaction references it.
   */
  lemma MissingCategoryCreated(l: Ledger, req: Request, balance: BalanceOf)
    requires Create(l, req, balance).0.Success?
    requires req.category !in TitlesOf(l.categories)
    ensures var (r, l') := Create(l, req, balance);
      && l'.categories == l.categories + [Category(l.nextCategoryId, req.category)]
      && l'.nextCategoryId == l.nextCategoryId + 1
      && r.value.category == Some(Category(l.nextCategoryId, req.category))
  {
    assert NewCategories([req.category], l.nextCategoryId) == [Category(l.nextCategoryId, req.category)];
  }

  /** Whatever the request, a consistent store stays consistent. */
  lemma {:induction false} CreateKeepsConsistent(l: Ledger, req: Request, balance: BalanceOf)
    requires Consistent(l)
    ensures Consistent(Create(l, req, balance).1)
  {
    var (r, l') := Create(l, req, balance);
    if r.Success? {
      var found := FindByTitle(l.categories, req.category);
      var titles := if found.Some? then [] else [req.category];
      var draft := Draft(req.title, req.value, req.kind, r.value.category);
      assert AddCategories(l, []) == l;
      assert draft.category.value in AddCategories(l, titles).categories by {
        if found.None? {
          assert NewCategories(titles, l.nextCategoryId) == [Category(l.nextCategoryId, req.category)];
        }
      }
      SavesKeepConsistent(l, titles, [draft]);
    }
  }

  /**
   * Two successful creations with the same category title reference the same category,
   * and the second creates no category.
   */
  lemma {:induction false} CategoryResolvedOnce(l: Ledger, req: Request, req2: Request, balance: BalanceOf)
    requires Consistent(l)
    requires req2.category == req.category
    requires Create(l, req, balance).0.Success?
    requires Create(Create(l, req, balance).1, req2, balance).0.Success?
    ensures var (r, l1) := Create(l, req, balance);
      var (r2, l2) := Create(l1, req2, balance);
      && l2.categories == l1.categories
      && r2.value.category == r.value.category
  {
    var (r, l1) := Create(l, req, balance);
    CreateKeepsConsistent(l, req, balance);
    var c := r.value.category.value;
    assert c.title == req.category && c in l1.categories by {
      if FindByTitle(l.categories, req.category).None? {
        MissingCategoryCreated(l, req, balance);
      }
    }
    FirstOfUnique(l1.categories, c);
  }

  /** In a store with unique titles, looking a stored category's title up finds that category. */
  lemma FirstOfUnique(categories: seq<Category>, c: Category)
    requires UniqueTitles(categories)
    requires c in categories
    ensures FindByTitle(categories, c.title) == Some(c)
  {
    var i :| 0 <= i < |categories| && categories[i] == c;
    assert TitlesOf(categories)[i] == c.title;
    var found := FindByTitle(categories, c.title).value;
    var j :| 0 <= j < |categories| && categories[j] == found;
    assert i == j;
  }
}
