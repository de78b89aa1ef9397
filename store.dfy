/** The database the handlers share: six tables, each with its AUTO_INCREMENT counter, and the
    integrity the schema enforces (UNIQUE firebase_uid, the foreign keys, NOT NULL amount). */
module Store {
  import opened Fields
  import opened Tables
  import opened Schema

  /** `firebase_uid VARCHAR(255) UNIQUE`. */
  predicate UniqueUids(users: map<nat, User>) {
    forall a, b :: a in users && b in users && users[a].firebaseUid == users[b].firebaseUid ==> a == b
  }

  /** What the schema guarantees of a stored transaction: the owner exists, the category is
      NULL or exists, and the amount is positive (the handlers' check) and fits DECIMAL(10,2). */
  predicate Integral(t: Transaction, users: map<nat, User>, categories: map<nat, Category>) {
    && t.userId in users
    && (t.categoryId.Some? ==> t.categoryId.value in categories)
    && 0 < t.amount <= MaxCents
  }

  /** Every stored transaction is integral. */
  predicate AllIntegral(txns: map<nat, Transaction>, users: map<nat, User>, categories: map<nat, Category>) {
    forall k :: k in txns ==> Integral(txns[k], users, categories)
  }

  /** ON DELETE CASCADE of categories.user_id: a category's owner, when it has one, exists. */
  predicate OwnersExist(categories: map<nat, Category>, users: map<nat, User>) {
    forall k :: k in categories && categories[k].userId.Some? ==> categories[k].userId.value in users
  }

  /** Writing an integral row keeps the table integral. */
  lemma IntegralWrite(txns: map<nat, Transaction>, users: map<nat, User>, categories: map<nat, Category>, k: nat, t: Transaction)
    requires AllIntegral(txns, users, categories) && Integral(t, users, categories)
    ensures AllIntegral(txns[k := t], users, categories)
  {
  }

  /** References into a users table stay valid when the table only gains keys. */
  lemma UsersGrow(users: map<nat, User>, users': map<nat, User>, categories: map<nat, Category>, txns: map<nat, Transaction>)
    requires users.Keys <= users'.Keys
    requires OwnersExist(categories, users) && AllIntegral(txns, users, categories)
    ensures OwnersExist(categories, users') && AllIntegral(txns, users', categories)
  {
  }

  /** References into a categories table stay valid when the table only gains keys. */
  lemma CategoriesGrow(categories: map<nat, Category>, categories': map<nat, Category>, users: map<nat, User>, txns: map<nat, Transaction>)
    requires categories.Keys <= categories'.Keys
    requires AllIntegral(txns, users, categories)
    ensures AllIntegral(txns, users, categories')
  {
  }

  class Database {
    var users: map<nat, User>
    var nextUserId: nat
    var categories: map<nat, Category>
    var nextCategoryId: nat
    var transactions: map<nat, Transaction>
    var nextTransactionId: nat
    var paymentMethods: map<nat, PaymentMethod>
    var nextPaymentMethodId: nat
    var currencies: map<nat, Currency>
    var nextCurrencyId: nat
    var accountTypes: map<nat, AccountType>
    var nextAccountTypeId: nat

    ghost predicate Valid()
      reads this
    {
      && Keyed(users, nextUserId, (u: User) => u.id)
      && UniqueUids(users)
      && Keyed(categories, nextCategoryId, (c: Category) => c.id)
      && OwnersExist(categories, users)
      && Keyed(transactions, nextTransactionId, (t: Transaction) => t.id)
      && AllIntegral(transactions, users, categories)
      && Keyed(paymentMethods, nextPaymentMethodId, (p: PaymentMethod) => p.id)
      && Keyed(currencies, nextCurrencyId, (c: Currency) => c.id)
      && Keyed(accountTypes, nextAccountTypeId, (a: AccountType) => a.id)
    }

    /** An empty database; AUTO_INCREMENT starts at 1. */
    constructor ()
      ensures Valid()
      ensures users == map[] && categories == map[] && transactions == map[]
      ensures paymentMethods == map[] && currencies == map[] && accountTypes == map[]
      ensures nextUserId == nextCategoryId == nextTransactionId == 1
      ensures nextPaymentMethodId == nextCurrencyId == nextAccountTypeId == 1
    {
      users, categories, transactions := map[], map[], map[];
      paymentMethods, currencies, accountTypes := map[], map[], map[];
      nextUserId, nextCategoryId, nextTransactionId := 1, 1, 1;
      nextPaymentMethodId, nextCurrencyId, nextAccountTypeId := 1, 1, 1;
    }
  }
}
