/**
 * An assumed definition of the repository's balance: the sum of incomes minus the sum of
 * outcomes over every stored transaction. The repository's own `getBalance` is not part of
 * this model; this is one instance of `CreateTransaction.BalanceOf`, and every property of
 * `CreateTransaction.Create` holds for any other.
 */
module Balance {
  import opened Entities
  import opened CreateTransaction

  /**
   * What one transaction contributes: +value for an income, -value for an outcome. The
   * import path can store other types; counting them as 0 is this model's own choice, since
   * the repository's balance code is not part of this model.
   */
  function Signed(t: Transaction): int {
    if t.kind == INCOME then t.value else if t.kind == OUTCOME then -t.value else 0
  }

  /** income - outcome over the given transactions. */
  function Total(ts: seq<Transaction>): int {
    if |ts| == 0 then 0 else Total(ts[..|ts| - 1]) + Signed(ts[|ts| - 1])
  }

  /** The total of two runs of transactions is the sum of their totals. */
  lemma {:induction false} TotalOfConcat(a: seq<Transaction>, b: seq<Transaction>)
    ensures Total(a + b) == Total(a) + Total(b)
  {
    if |b| > 0 {
      assert (a + b)[..|a + b| - 1] == a + b[..|b| - 1];
      TotalOfConcat(a, b[..|b| - 1]);
    } else {
      assert a + b == a;
    }
  }

  /**
   * With this balance, a successful creation moves the total by the transaction's value:
   * up for an income, down for an outcome.
   */
  lemma CreateMovesBalance(l: Ledger, req: Request)
    requires Create(l, req, Total).0.Success?
    ensures var l' := Create(l, req, Total).1;
      Total(l'.transactions) == Total(l.transactions) + (if req.kind == INCOME then req.value else -req.value)
  {
    var (r, l') := Create(l, req, Total);
    SuccessAppendsOneTransaction(l, req, Total);
    TotalOfConcat(l.transactions, [r.value]);
    assert Total([r.value]) == Signed(r.value);
  }

  /**
   * With this balance, creation never takes a non-negative total below zero as long as
   * incomes carry non-negative values (the source does not check the sign of a value).
   */
  lemma CreateKeepsBalanceNonNegative(l: Ledger, req: Request)
    requires Total(l.transactions) >= 0
    requires req.kind == INCOME ==> req.value >= 0
    ensures Total(Create(l, req, Total).1.transactions) >= 0
  {
    if Create(l, req, Total).0.Success? {
      CreateMovesBalance(l, req);
    }
  }
}
