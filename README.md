# Transaction services, modelled in Dafny

This project models the two services of a personal-finance backend that hold real logic:

- **Create transaction** (`CreateTransactionService.execute`): reject a `type` other than
  `income`/`outcome`; for an `outcome`, reject a value above the balance total; look the
  category up by title and create it only when absent; save one transaction referencing it.
- **Import transactions** (`ImportTransactionsService.execute`, from the parsed rows on):
  buffer the rows, collect their category titles, find which titles are already stored,
  save one category per missing title (first occurrence kept, duplicates dropped), and save
  one transaction per row with its category found by title among existing + saved categories.

The two TypeORM repositories become one class, `Storage.Store`, holding the categories and
transactions as sequences in insertion order and handing out increasing ids on `save`.
`Entities.Ledger` is the same store as a value. Each service is a module-level method over
the store (`CreateTransaction.Execute`, `ImportTransactions.Execute`, each taking the
`Storage.Store`) whose postcondition ties the
result and the new store to a specification function of the old store
(`CreateTransaction.Create`, `ImportTransactions.Import`); the properties of each service are
lemmas about that function. `Entities.Consistent` is the store invariant that a new store satisfies and both services keep:
unique category titles, increasing ids, every transaction referencing a stored category.

The balance total comes from a repository query whose code is not part of this model, so
`Create` takes it as a parameter `balance: seq<Transaction> -> int` and every property of
`Create` holds for every such function. `Balance.Total` (incomes minus outcomes) is an
assumed definition of that balance, one instance used for the balance lemmas and scenarios.

Files: `lists.dfy` (JavaScript `indexOf` / `filter` pipelines), `entities.dfy`,
`storage.dfy`, `create_transaction.dfy`, `import_transactions.dfy`, `balance.dfy`,
`scenarios.dfy`.

The `Request` and `CSVTransaction` interfaces declare `type: 'income' | 'outcome'` and
`value: number` (src/services/CreateTransactionService.ts:10-15,
src/services/ImportTransactionsService.ts:15-20), but these are compile-time annotations:
nothing checks them at run time. Creation checks the type explicitly and never checks the
sign of a value; import checks neither, so the model stores whatever type and value a row
carries. In the source, `findOne` and `find` with `In(...)` are repository queries and only
`finalCategories.find` searches an array; the model resolves all three by searching the
stored sequence (see the TypeORM line under "## Left out").

## Model

| member | source | states |
|---|---|---|
| `CreateTransaction.Execute` | src/services/CreateTransactionService.ts:18-64 | the returned result and the new store are exactly `Create` of the old store: the type gate, the balance gate read only for outcomes, find-or-create of the category, one saved transaction |
| `CreateTransaction.InvalidTypeChangesNothing` | src/services/CreateTransactionService.ts:24-26 | a type other than `income`/`outcome` fails with `InvalidType` and leaves both repositories and both id counters unchanged |
| `CreateTransaction.InsufficientBalanceChangesNothing` | src/services/CreateTransactionService.ts:30-35 | an `outcome` whose value exceeds the balance total fails with `InsufficientBalance` and changes nothing |
| `CreateTransaction.IncomeIgnoresBalance` | src/services/CreateTransactionService.ts:30 | an `income` always succeeds, and its result and new store are the same whatever the balance function |
| `CreateTransaction.OutcomeWithinBalancePasses` | src/services/CreateTransactionService.ts:33 | an `outcome` whose value is at most the balance total succeeds |
| `CreateTransaction.FailsOnlyAtTheGates` | src/services/CreateTransactionService.ts:24-35 | creation succeeds if and only if the type is `income`, or it is `outcome` with value at most the total |
| `CreateTransaction.SuccessAppendsOneTransaction` | src/services/CreateTransactionService.ts:54-63 | on success the stored transactions become the old ones plus exactly the returned one, which has the next id and the requested title, value and type |
| `CreateTransaction.ExistingCategoryReused` | src/services/CreateTransactionService.ts:40-46 | when a category with the title is stored, no category is created and the transaction references the category found |
| `CreateTransaction.MissingCategoryCreated` | src/services/CreateTransactionService.ts:46-52 | when no category has the title, exactly one category with that title and the next id is appended and the transaction references it |
| `CreateTransaction.CreateKeepsConsistent` | src/services/CreateTransactionService.ts:40-61 | every outcome of creation keeps the store invariant: unique titles, increasing ids, transactions referencing stored categories |
| `CreateTransaction.CategoryResolvedOnce` | src/services/CreateTransactionService.ts:40-52 | two successful creations naming the same category title reference the same category, and the second adds no category |
| `ImportTransactions.BufferRows` | src/services/ImportTransactionsService.ts:37-46 | the buffer holds one row per parsed line, in order, with title, type, value and category copied from the line's four fields |
| `ImportTransactions.CategoryTitles` | src/services/ImportTransactionsService.ts:53 | one title per row, title i being row i's category, so a title is listed exactly when some row names it as its category |
| `ImportTransactions.ExistingCategories` | src/services/ImportTransactionsService.ts:55-59 | the result holds exactly the stored categories whose title is among the row titles |
| `ImportTransactions.ExistingTitles` | src/services/ImportTransactionsService.ts:55-63 | a row title is among the existing titles if and only if some stored category carries it |
| `ImportTransactions.Execute` | src/services/ImportTransactionsService.ts:37-93 | the returned transactions and the new store are exactly `Import` of the old store and the buffered rows |
| `ImportTransactions.TitlesToAdd` | src/services/ImportTransactionsService.ts:65-68 | a title is in the list to add if and only if some row names it and no stored category carries it; the list has no duplicate, and its titles appear in the order of their first occurrence among the row titles |
| `ImportTransactions.AddedCount` | src/services/ImportTransactionsService.ts:65-72 | the number of categories created equals the number of distinct row titles not already stored |
| `ImportTransactions.MapRows` | src/services/ImportTransactionsService.ts:76-85 | one draft per row, carrying the row's title, value and type; its category is the first category in the list carrying the row's category title, present exactly when one does |
| `ImportTransactions.EveryRowResolves` | src/services/ImportTransactionsService.ts:53-83 | for every row, the lookup in `finalCategories` (existing then saved) finds a category whose title equals the row's category |
| `ImportTransactions.ImportOutput` | src/services/ImportTransactionsService.ts:76-89 | one transaction per row, in row order, with consecutive new ids, the row's title, type and value whatever they are, and a category titled as the row's; the old transactions are kept in front |
| `ImportTransactions.ImportAddsMissingCategories` | src/services/ImportTransactionsService.ts:65-74 | the stored categories are kept and one category per title to add is appended with consecutive new ids, as many as there are distinct missing row titles |
| `ImportTransactions.ImportKeepsConsistent` | src/services/ImportTransactionsService.ts:53-89 | importing into a consistent store leaves it consistent: titles stay unique and every new transaction references a stored category |
| `ImportTransactions.EachRowTitleStoredOnce` | src/services/ImportTransactionsService.ts:55-85 | after importing into a consistent store, each row's transaction references a stored category, and it is the only stored category with the row's category title |
| `Lists.IndexOf` | src/services/ImportTransactionsService.ts:67 | `indexOf` gives -1 exactly for an absent element, else a position holding it with no earlier occurrence |
| `Lists.Without` | src/services/ImportTransactionsService.ts:66 | the filter keeps exactly the elements not among the excluded ones, and never lengthens the list |
| `Lists.WithoutKeepsFirstOrder` | src/services/ImportTransactionsService.ts:66-67 | filtering out excluded titles keeps the relative order of the first occurrences of the remaining titles |
| `Lists.KeepFirst` | src/services/ImportTransactionsService.ts:67 | on a prefix, the first-occurrence filter keeps every element of the prefix, each at a first occurrence, in increasing order of first occurrence |
| `Lists.FirstOccurrencesOfWithout` | src/services/ImportTransactionsService.ts:66-67 | filtering out excluded elements, then keeping first occurrences, lists the kept elements in the order of their first occurrence in the unfiltered list |
| `Lists.FirstOccurrences` | src/services/ImportTransactionsService.ts:67 | the first-occurrence filter has the same elements as its input, no duplicates, in the order of first occurrence |
| `Entities.TitleListed` | src/services/ImportTransactionsService.ts:61-63 | the title list of some categories has one title per category, and a title is in it exactly when some category carries it |
| `Entities.FindByTitle` | src/services/ImportTransactionsService.ts:81-83 | the lookup finds a category exactly when one carries the title, and what it finds is the first category in the list with that title |
| `Entities.NewCategories` | src/services/ImportTransactionsService.ts:68-72 | the saved categories carry exactly the given titles, in order |
| `Entities.SavesKeepConsistent` | src/services/ImportTransactionsService.ts:70-89 | saving distinct, not yet stored titles and then transactions that reference stored categories keeps the store invariant |
| `Storage.Store.SaveCategory` | src/services/CreateTransactionService.ts:47-51 | saving a category appends it under the next category id and changes nothing else |
| `Storage.Store.SaveCategories` | src/services/ImportTransactionsService.ts:70-72 | a batch save appends one category per title under consecutive ids and changes nothing else |
| `Storage.Store.SaveTransaction` | src/services/CreateTransactionService.ts:54-61 | saving a transaction appends it under the next transaction id and changes nothing else |
| `Storage.Store.SaveTransactions` | src/services/ImportTransactionsService.ts:87-89 | a batch save appends one transaction per draft under consecutive ids and changes nothing else |
| `Balance.CreateMovesBalance` | src/services/CreateTransactionService.ts:30-61 | with balance = incomes minus outcomes, a successful creation raises the total by an income's value and lowers it by an outcome's |
| `Balance.CreateKeepsBalanceNonNegative` | src/services/CreateTransactionService.ts:30-35 | with that balance, creation never takes a non-negative total below zero when incomes carry non-negative values |
| `Scenarios.OutcomeAgainstEmptyBalance` | src/services/CreateTransactionService.ts:30-35 | an outcome of 50 on an empty store fails with `InsufficientBalance` and the balance stays 0 |
| `Scenarios.NewTitlesInRowOrder` | src/services/ImportTransactionsService.ts:53-68 | rows naming "A" and then "B" in an empty store add the categories in that order, ["A", "B"] |
| `Scenarios.ImportThenBalance` | src/services/ImportTransactionsService.ts:53-89 | importing an income of 100 and an outcome of 30 in "Food" creates "Food" once, references it from both, and leaves a balance of 70 |
| `Scenarios.ImportOneRowIntoEmpty` | src/services/ImportTransactionsService.ts:53-89 | importing any single row into an empty store creates its category under id 0 and one transaction under id 0 that references it, with the row's title, value and type |
| `Scenarios.ImportCreatesMissingCategory` | src/services/ImportTransactionsService.ts:65-89 | importing ("Rent", outcome, 200, "Home") into an empty store creates "Home" once and one transaction referencing it |

## Left out

- CSV parsing (`csv-parse` with comma delimiter, header line skipped, fields trimmed): a foreign library; the model starts from parsed lines of exactly four fields.
- File handling (`path.resolve`, the read stream, `fs.promises.unlink` of the uploaded file): I/O. So is the order between the unlink and the transaction save, which is not awaited.
- The asynchronous `end` wait and all Promise plumbing: the model runs each service as one sequential step.
- The balance query of the transactions repository: its code is not part of this model; `Create` takes the balance as a function of the stored transactions.
- TypeORM internals: the repository queries `findOne` and `find` with `In(...)` become searches of the stored sequence; ids are consecutive naturals rather than generated identifiers; `find` with `In(...)` returns the matching categories in store order, where the database gives no order; `findOne` returns the first match.
- Storage failures and partial writes: every save succeeds in the model.
- Concurrency: the check-then-act races on the balance and on category titles between concurrent requests.
- Number semantics: values are unbounded integers; JavaScript floats, and the raw text value an imported row carries at run time, are not modelled.
- Error messages and HTTP status of `AppError`: the two failures are the cases of `CreateTransaction.Error`.
- Balance.CreateKeepsBalanceNonNegative: holds only for incomes with non-negative values, because the service never checks the sign of a value.
