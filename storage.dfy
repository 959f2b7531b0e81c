/**
 * The category and transaction repositories, reduced to an in-memory store that keeps
 * both tables in insertion order and hands out increasing ids on `save`.
 */
module Storage {
  import opened Entities

  class Store {
    var categories: seq<Category>
    var transactions: seq<Transaction>
    var nextCategoryId: nat
    var nextTransactionId: nat

    /** The store's contents as a value. */
    function State(): Ledger
      reads this
    {
      Ledger(categories, transactions, nextCategoryId, nextTransactionId)
    }

    constructor ()
      ensures State() == Ledger([], [], 0, 0)
      ensures Consistent(State())
    {
      categories, transactions := [], [];
      nextCategoryId, nextTransactionId := 0, 0;
    }

    /** `categoriesRepository.save(categoriesRepository.create({ title }))` */
    method SaveCategory(title: string) returns (saved: Category)
      modifies this
      ensures saved == Category(old(nextCategoryId), title)
      ensures State() == AddCategories(old(State()), [title])
    {
      saved := Category(nextCategoryId, title);
      categories := categories + [saved];
      nextCategoryId := nextCategoryId + 1;
    }

    /** `categoriesRepository.save(categoriesRepository.create(titles.map(title => ({ title }))))` */
    method SaveCategories(titles: seq<string>) returns (saved: seq<Category>)
      modifies this
      ensures saved == NewCategories(titles, old(nextCategoryId))
      ensures State() == AddCategories(old(State()), titles)
    {
      saved := NewCategories(titles, nextCategoryId);
      categories := categories + saved;
      nextCategoryId := nextCategoryId + |titles|;
    }

    /** `transactionsRepository.save(transaction)` for one draft. */
    method SaveTransaction(draft: Draft) returns (saved: Transaction)
      modifies this
      ensures saved == Transaction(old(nextTransactionId), draft.title, draft.value, draft.kind, draft.category)
      ensures State() == AddTransactions(old(State()), [draft])
    {
      saved := Transaction(nextTransactionId, draft.title, draft.value, draft.kind, draft.category);
      transactions := transactions + [saved];
      nextTransactionId := nextTransactionId + 1;
    }

    /** `transactionsRepository.save(drafts)` for a batch. */
    method SaveTransactions(drafts: seq<Draft>) returns (saved: seq<Transaction>)
      modifies this
      ensures saved == Persist(drafts, old(nextTransactionId))
      ensures State() == AddTransactions(old(State()), drafts)
    {
      saved := Persist(drafts, nextTransactionId);
      transactions := transactions + saved;
      nextTransactionId := nextTransactionId + |drafts|;
    }
  }
}
