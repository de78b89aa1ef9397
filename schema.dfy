/** The rows of the six tables. Columns keep their SQL names in camel case; the SQL column
    `type` is called `kind` (a keyword in Dafny). Nullable columns are `Option`s, timestamps
    are readings of a logical clock, dates are day numbers and amounts are integer cents. */
module Schema {
  import opened Fields

  /** DECIMAL(10,2) in cents: eight integer digits and two fractional digits. */
  const MaxCents: int := 9_999_999_999

  /** The ENUM('income', 'expense') of categories.type and transactions.type. */
  datatype Flow = Income | Expense

  /** `['income', 'expense'].includes(type)`, and the ENUM value that string denotes. */
  function ParseFlow(s: string): (r: Option<Flow>)
    ensures r == Some(Income) <==> s == "income"
    ensures r == Some(Expense) <==> s == "expense"
    ensures r.None? <==> s != "income" && s != "expense"
  {
    if s == "income" then Some(Income)
    else if s == "expense" then Some(Expense)
    else None
  }

  datatype User = User(
    id: nat,
    firebaseUid: string,
    email: string,
    displayName: Option<string>,
    photoUrl: Option<string>,
    emailVerified: bool,
    createdAt: nat,
    updatedAt: nat)

  /** `userId == None` marks a global category, visible to every user. */
  datatype Category = Category(
    id: nat,
    userId: Option<nat>,
    name: string,
    kind: Flow,
    icon: Option<string>,
    color: Option<string>,
    description: Option<string>,
    isDefault: Option<bool>,
    createdAt: nat,
    updatedAt: nat)

  datatype Transaction = Transaction(
    id: nat,
    userId: nat,
    categoryId: Option<nat>,
    amount: int,
    kind: Flow,
    description: Option<string>,
    date: nat,
    createdAt: nat,
    updatedAt: nat)

  /** The schema of payment_methods is not part of this model, so `kind` is the text the
      handlers store. */
  datatype PaymentMethod = PaymentMethod(
    id: nat,
    userId: Option<nat>,
    name: string,
    kind: string,
    icon: Option<string>,
    description: Option<string>,
    isDefault: Option<bool>,
    createdAt: nat,
    updatedAt: nat)

  datatype Currency = Currency(
    id: nat,
    code: string,
    name: string,
    symbol: Option<string>,
    isDefault: bool)

  datatype AccountType = AccountType(
    id: nat,
    name: string,
    description: Option<string>,
    icon: Option<string>)

  /** Where a BOOLEAN value falls in MySQL's ordering: NULL, then FALSE, then TRUE. */
  function BoolRank(b: Option<bool>): (r: int)
    ensures b == Some(true) ==> r == 1
    ensures b == Some(false) ==> r == 0
    ensures b == None ==> r < 0
  {
    match b
    case None => -1
    case Some(v) => if v then 1 else 0
  }
}
