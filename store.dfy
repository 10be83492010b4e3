/** config/database.js: the one PostgreSQL pool every model queries. The controllers and the
    subscription routes reach three of its tables (`usuarios`, `assinaturas`, `pagamentos`);
    `Db` holds them together with the invariant the handlers keep between requests. */
module Store {
  import Users
  import Subscriptions
  import Payments

  /** Every subscription row names a user id the `usuarios` sequence has already handed out. */
  ghost predicate Owned(subs: seq<Subscriptions.SubRow>, nextUser: nat)
  {
    forall r :: r in subs ==> 1 <= r.userId < nextUser
  }

  /** A subscription for a user the sequence has handed out keeps the rows owned, and so does
      handing out further users. */
  lemma OwnedSnoc(subs: seq<Subscriptions.SubRow>, nextUser: nat, laterNext: nat, r: Subscriptions.SubRow)
    requires Owned(subs, nextUser) && nextUser <= laterNext
    requires 1 <= r.userId < laterNext
    ensures Owned(subs + [r], laterNext)
  {
    forall x | x in subs + [r]
      ensures 1 <= x.userId < laterNext
    {
      if x != r {
        assert x in subs;
      }
    }
  }

  class Db {
    const users: Users.UserTable
    const subscriptions: Subscriptions.SubscriptionTable
    const payments: Payments.PaymentTable

    ghost predicate Valid()
      reads this, users, subscriptions, payments
    {
      && users.Valid() && subscriptions.Valid() && payments.Valid()
      && Owned(subscriptions.rows, users.nextId)
    }

    /** A freshly created database: three empty tables. */
    constructor ()
      ensures Valid()
      ensures fresh(users) && fresh(subscriptions) && fresh(payments)
      ensures users.rows == [] && subscriptions.rows == [] && payments.rows == []
    {
      users := new Users.UserTable();
      subscriptions := new Subscriptions.SubscriptionTable();
      payments := new Payments.PaymentTable();
    }
  }
}
