/** transactionController.js: the ledger. Every read and write is scoped to the caller's user
    id; the summary groups the caller's rows by type. */
module Transactions {
  import opened Fields
  import opened Ordering
  import opened Tables
  import opened Schema
  import opened Http
  import opened Store
  import opened Identity

  const RequiredMessage: string := "amount, type, and transaction_date are required"
  const TypeMessage: string := "type must be either \"income\" or \"expense\""
  const AmountMessage: string := "amount must be greater than 0"
  const UserNotFound: string := "User not found"
  const NotFound: string := "Transaction not found"
  const Created: string := "Transaction created successfully"
  const Updated: string := "Transaction updated successfully"
  const Deleted: string := "Transaction deleted successfully"

  /** A row as the handlers return it: `t.*` with the LEFT JOINed category's name and type,
      both null when the row has no category. */
  datatype TransactionView = TransactionView(txn: Transaction, categoryName: Option<string>, categoryType: Option<Flow>)

  function Joined(categories: map<nat, Category>, t: Transaction): (v: TransactionView)
    ensures v.txn == t
    ensures v.categoryName.Some? <==> t.categoryId.Some? && t.categoryId.value in categories
    ensures v.categoryName.Some? ==>
      v.categoryName.value == categories[t.categoryId.value].name && v.categoryType == Some(categories[t.categoryId.value].kind)
    ensures v.categoryName.None? ==> v.categoryType.None?
  {
    if t.categoryId.Some? && t.categoryId.value in categories then
      var c := categories[t.categoryId.value];
      TransactionView(t, Some(c.name), Some(c.kind))
    else
      TransactionView(t, None, None)
  }

  /** Whether the storage engine accepts a written row: the category foreign key holds and the
      amount fits DECIMAL(10,2). MySQL in strict mode rejects the statement otherwise. */
  predicate Storable(categories: map<nat, Category>, t: Transaction): (b: bool)
    ensures t.categoryId.None? && 0 < t.amount <= MaxCents ==> b
    ensures t.categoryId.Some? && t.categoryId.value !in categories ==> !b
    ensures t.amount > MaxCents ==> !b
  {
    (t.categoryId.Some? ==> t.categoryId.value in categories) && -MaxCents <= t.amount <= MaxCents
  }

  // ----- createTransaction -----

  /** The body of a create request; `amount` is the parsed amount in cents. */
  datatype NewTransaction = NewTransaction(
    firebaseUid: Field<string>,
    categoryId: Field<nat>,
    amount: Option<int>,
    kind: Field<string>,
    description: Field<string>,
    date: Option<nat>)

  /** `!amount`: no amount, or zero. */
  predicate MissingAmount(a: Option<int>) {
    a.None? || a.value == 0
  }

  /** The first check: amount, type and transaction_date are all truthy. */
  predicate Present(req: NewTransaction) {
    !MissingAmount(req.amount) && !Falsy(req.kind, "") && req.date.Some?
  }

  /** All three request checks pass. */
  predicate WellFormed(req: NewTransaction) {
    Present(req) && ParseFlow(req.kind.value).Some? && req.amount.value > 0
  }

  /** The checks of createTransaction in the order the handler makes them: presence, type,
      positive amount, then the user lookup. None when every check passes. */
  function CreateRejection(req: NewTransaction, userId: Option<nat>): (r: Option<Response<TransactionView>>)
    ensures r.None? <==> WellFormed(req) && userId.Some?
    ensures r == Some(Fail(400, RequiredMessage)) <==> !Present(req)
    ensures r == Some(Fail(400, TypeMessage)) <==> Present(req) && ParseFlow(req.kind.value).None?
    ensures r == Some(Fail(400, AmountMessage)) <==>
      Present(req) && ParseFlow(req.kind.value).Some? && req.amount.value < 0
    ensures r == Some(Fail(404, UserNotFound)) <==> WellFormed(req) && userId.None?
  {
    if !Present(req) then Some(Fail(400, RequiredMessage))
    else if ParseFlow(req.kind.value).None? then Some(Fail(400, TypeMessage))
    else if req.amount.value <= 0 then Some(Fail(400, AmountMessage))
    else if userId.None? then Some(Fail(404, UserNotFound))
    else None
  }

  /** The row createTransaction inserts. */
  function NewRow(id: nat, userId: nat, req: NewTransaction, now: nat): (t: Transaction)
    requires WellFormed(req)
    ensures t.id == id && t.userId == userId && t.createdAt == now && t.updatedAt == now
  {
    Transaction(id, userId, OrNull(req.categoryId, 0), req.amount.value, ParseFlow(req.kind.value).value,
                OrNull(req.description, ""), req.date.value, now, now)
  }

  /** A created row belongs to the caller and carries the requested positive amount, type and
      date; a falsy category_id or description is stored as NULL, any other as given. */
  lemma NewRowShape(id: nat, userId: nat, req: NewTransaction, now: nat)
    requires WellFormed(req)
    ensures NewRow(id, userId, req, now).amount > 0
    ensures NewRow(id, userId, req, now).userId == userId
    ensures NewRow(id, userId, req, now).amount == req.amount.value
    ensures Some(NewRow(id, userId, req, now).kind) == ParseFlow(req.kind.value)
    ensures NewRow(id, userId, req, now).date == req.date.value
    ensures Falsy(req.categoryId, 0) ==> NewRow(id, userId, req, now).categoryId.None?
    ensures !Falsy(req.categoryId, 0) ==> NewRow(id, userId, req, now).categoryId == Some(req.categoryId.value)
    ensures Falsy(req.description, "") ==> NewRow(id, userId, req, now).description.None?
    ensures !Falsy(req.description, "") ==> NewRow(id, userId, req, now).description == Some(req.description.value)
  {
  }

  method CreateTransaction(db: Database, req: NewTransaction, now: nat) returns (r: Response<TransactionView>)
    requires db.Valid()
    modifies db`transactions, db`nextTransactionId
    ensures db.Valid()
    ensures match CreateRejection(req, Caller(db, req.firebaseUid))
      case Some(rejection) => r == rejection && unchanged(db)
      case None =>
        var t := NewRow(old(db.nextTransactionId), Caller(db, req.firebaseUid).value, req, now);
        if Storable(db.categories, t) then
          && db.transactions == old(db.transactions)[t.id := t]
          && db.nextTransactionId == old(db.nextTransactionId) + 1
          && r == Response(201, Single(Some(Created), Joined(db.categories, t)))
        else
          r == Fail(500, ServerError) && unchanged(db)
    ensures r.status == 201 ==>
      r.body.Single? && GetTransactionById(db, r.body.item.txn.id, req.firebaseUid) == Response(200, Single(None, r.body.item))
  {
    if !Present(req) {
      return Fail(400, RequiredMessage);
    }
    var kind := ParseFlow(req.kind.value);
    if kind.None? {
      return Fail(400, TypeMessage);
    }
    if req.amount.value <= 0 {
      return Fail(400, AmountMessage);
    }
    var userId := Caller(db, req.firebaseUid);
    if userId.None? {
      return Fail(404, UserNotFound);
    }
    var t := Transaction(db.nextTransactionId, userId.value, OrNull(req.categoryId, 0), req.amount.value, kind.value,
                         OrNull(req.description, ""), req.date.value, now, now);
    if !Storable(db.categories, t) {
      return Fail(500, ServerError);
    }
    IntegralWrite(db.transactions, db.users, db.categories, t.id, t);
    KeyedInsert(db.transactions, db.nextTransactionId, (t: Transaction) => t.id, t);
    db.transactions := db.transactions[t.id := t];
    db.nextTransactionId := db.nextTransactionId + 1;
    r := Response(201, Single(Some(Created), Joined(db.categories, db.transactions[t.id])));
  }

  // ----- getTransactions -----

  /** The query string of a listing; an empty parameter counts as absent. */
  datatype TransactionQuery = TransactionQuery(
    firebaseUid: Field<string>,
    kind: Option<string>,
    startDate: Option<nat>,
    endDate: Option<nat>,
    categoryId: Option<nat>)

  /** `transaction_date >= start_date` and `transaction_date <= end_date`, each when given. */
  predicate InPeriod(t: Transaction, startDate: Option<nat>, endDate: Option<nat>): (b: bool)
    ensures startDate.None? && endDate.None? ==> b
    ensures startDate == Some(t.date) && endDate == Some(t.date) ==> b
    ensures startDate.Some? && t.date < startDate.value ==> !b
    ensures endDate.Some? && endDate.value < t.date ==> !b
  {
    (startDate.Some? ==> startDate.value <= t.date) && (endDate.Some? ==> t.date <= endDate.value)
  }

  /** The WHERE clause getTransactions builds: the owner and every supplied filter; a `type`
      outside the ENUM adds no condition. */
  predicate Matches(t: Transaction, userId: nat, q: TransactionQuery): (b: bool)
    ensures b ==> t.userId == userId && InPeriod(t, q.startDate, q.endDate)
    ensures q.kind.None? && q.categoryId.None? ==> (b <==> OwnedInPeriod(t, userId, q.startDate, q.endDate))
    ensures q.kind.Some? && ParseFlow(q.kind.value).None? && q.categoryId.None? ==>
      (b <==> OwnedInPeriod(t, userId, q.startDate, q.endDate))
  {
    && t.userId == userId
    && (q.kind.Some? && ParseFlow(q.kind.value).Some? ==> t.kind == ParseFlow(q.kind.value).value)
    && InPeriod(t, q.startDate, q.endDate)
    && (q.categoryId.Some? ==> t.categoryId == q.categoryId)
  }

  /** ORDER BY t.transaction_date DESC, t.created_at DESC */
  function Key(t: Transaction): (r: seq<int>) {
    [-(t.date as int), -(t.createdAt as int)]
  }

  lemma KeyOrder(a: Transaction, b: Transaction)
    ensures KeyLe(Key(a), Key(b)) <==> a.date > b.date || (a.date == b.date && a.createdAt >= b.createdAt)
  {
    KeyLeCons(-(a.date as int), [-(a.createdAt as int)], -(b.date as int), [-(b.createdAt as int)]);
    KeyLeCons(-(a.createdAt as int), [], -(b.createdAt as int), []);
  }

  predicate NewestFirst(vs: seq<TransactionView>) {
    forall i, j | 0 <= i < j < |vs| ::
      vs[i].txn.date > vs[j].txn.date || (vs[i].txn.date == vs[j].txn.date && vs[i].txn.createdAt >= vs[j].txn.createdAt)
  }

  function JoinAll(categories: map<nat, Category>, rows: seq<Transaction>): (vs: seq<TransactionView>)
    ensures |vs| == |rows|
    ensures forall i :: 0 <= i < |rows| ==> vs[i] == Joined(categories, rows[i])
  {
    seq(|rows|, i requires 0 <= i < |rows| => Joined(categories, rows[i]))
  }

  /** Joining a sorted selection of distinct rows keeps it sorted and distinct. */
  lemma JoinAllOrdered(categories: map<nat, Category>, rows: seq<Transaction>)
    requires SortedBy(rows, Key) && Distinct(rows)
    ensures NewestFirst(JoinAll(categories, rows)) && Distinct(JoinAll(categories, rows))
  {
    var vs := JoinAll(categories, rows);
    forall i, j | 0 <= i < j < |vs|
      ensures vs[i].txn.date > vs[j].txn.date || (vs[i].txn.date == vs[j].txn.date && vs[i].txn.createdAt >= vs[j].txn.createdAt)
    {
      KeyOrder(rows[i], rows[j]);
    }
  }

  /** The caller's rows that match every supplied filter, newest first. */
  function Listed(db: Database, userId: nat, q: TransactionQuery): (rows: seq<Transaction>)
    reads db
    requires db.Valid()
    ensures forall t :: t in rows ==> t in db.transactions.Values && Matches(t, userId, q)
    ensures forall t :: t in db.transactions.Values && Matches(t, userId, q) ==> t in rows
    ensures SortedBy(rows, Key) && Distinct(rows)
  {
    Select(db.transactions, db.nextTransactionId, (t: Transaction) => t.id, (t: Transaction) => Matches(t, userId, q), Key)
  }

  function GetTransactions(db: Database, q: TransactionQuery): (r: Response<TransactionView>)
    reads db
    requires db.Valid()
    ensures Caller(db, q.firebaseUid).None? ==> r == Fail(404, UserNotFound)
    ensures Caller(db, q.firebaseUid).Some? ==>
      var userId := Caller(db, q.firebaseUid).value;
      && r.status == 200 && r.body.Listing?
      && r.body.count == |r.body.items|
      && NewestFirst(r.body.items)
      && Distinct(r.body.items)
      && (forall v :: v in r.body.items ==>
            v.txn in db.transactions.Values && Matches(v.txn, userId, q) && v == Joined(db.categories, v.txn))
      && (forall t :: t in db.transactions.Values && Matches(t, userId, q) ==> Joined(db.categories, t) in r.body.items)
  {
    match Caller(db, q.firebaseUid)
    case None => Fail(404, UserNotFound)
    case Some(userId) =>
      var rows := Listed(db, userId, q);
      var vs := JoinAll(db.categories, rows);
      JoinAllOrdered(db.categories, rows);
      assert forall t :: t in rows ==> Joined(db.categories, t) in vs by {
        forall t | t in rows ensures Joined(db.categories, t) in vs {
          var i :| 0 <= i < |rows| && rows[i] == t;
          assert vs[i] == Joined(db.categories, t);
        }
      }
      Response(200, Listing(|vs|, vs))
  }

  // ----- getTransactionById -----

  /** `SELECT ... WHERE t.id = ? AND t.user_id = ?`: the row, only when it belongs to the
      caller. An unresolved caller binds NULL, which no row matches. */
  function OwnedRow(db: Database, id: nat, uid: Field<string>): (r: Option<Transaction>)
    reads db
    requires db.Valid()
    ensures r.Some? <==>
      Caller(db, uid).Some? && id in db.transactions && db.transactions[id].userId == Caller(db, uid).value
    ensures r.Some? ==> r.value == db.transactions[id]
  {
    var userId := Caller(db, uid);
    if userId.Some? && id in db.transactions && db.transactions[id].userId == userId.value
    then Some(db.transactions[id])
    else None
  }

  function GetTransactionById(db: Database, id: nat, uid: Field<string>): (r: Response<TransactionView>)
    reads db
    requires db.Valid()
    ensures r.Success() <==>
      Caller(db, uid).Some? && id in db.transactions && db.transactions[id].userId == Caller(db, uid).value
    ensures !r.Success() ==> r == Fail(404, NotFound)
    ensures r.Success() ==> r == Response(200, Single(None, Joined(db.categories, db.transactions[id])))
  {
    match OwnedRow(db, id, uid)
    case None => Fail(404, NotFound)
    case Some(t) => Response(200, Single(None, Joined(db.categories, t)))
  }

  // ----- updateTransaction -----

  /** The body of an update request; `amount` is the parsed amount in cents. */
  datatype TransactionPatch = TransactionPatch(
    firebaseUid: Field<string>,
    categoryId: Field<nat>,
    amount: Option<int>,
    kind: Field<string>,
    description: Field<string>,
    date: Option<nat>)

  /** The SET list of updateTransaction over the existing row: category_id, amount and
      description are replaced unless omitted (so null clears them), type and
      transaction_date only when truthy. None when a truthy `type` is outside the ENUM, which
      the storage engine rejects. */
  function Merge(t: Transaction, p: TransactionPatch, now: nat): (r: Option<Transaction>)
    ensures r.None? <==> !Falsy(p.kind, "") && ParseFlow(p.kind.value).None?
    ensures r.Some? ==>
      && r.value.id == t.id && r.value.userId == t.userId
      && r.value.createdAt == t.createdAt && r.value.updatedAt == now
    ensures r.Some? ==> r.value.categoryId == IfDefined(p.categoryId, t.categoryId)
    ensures r.Some? ==> r.value.description == IfDefined(p.description, t.description)
    ensures r.Some? ==> r.value.amount == (if p.amount.Some? then p.amount.value else t.amount)
    ensures r.Some? && Falsy(p.kind, "") ==> r.value.kind == t.kind
    ensures r.Some? && !Falsy(p.kind, "") ==> Some(r.value.kind) == ParseFlow(p.kind.value)
    ensures r.Some? ==> r.value.date == (if p.date.Some? then p.date.value else t.date)
  {
    var kind := if Falsy(p.kind, "") then Some(t.kind) else ParseFlow(p.kind.value);
    if kind.None? then None
    else
      Some(t.(categoryId := IfDefined(p.categoryId, t.categoryId),
              amount := if p.amount.Some? then p.amount.value else t.amount,
              kind := kind.value,
              description := IfDefined(p.description, t.description),
              date := if p.date.Some? then p.date.value else t.date,
              updatedAt := now))
  }

  /** An update that supplies nothing rewrites the row as it was, bar updated_at. */
  lemma MergeNothing(t: Transaction, uid: Field<string>, now: nat)
    ensures Merge(t, TransactionPatch(uid, Undefined, None, Undefined, Undefined, None), now) == Some(t.(updatedAt := now))
  {
  }

  method UpdateTransaction(db: Database, id: nat, p: TransactionPatch, now: nat) returns (r: Response<TransactionView>)
    requires db.Valid()
    modifies db`transactions
    ensures db.Valid()
    ensures match old(OwnedRow(db, id, p.firebaseUid))
      case None => r == Fail(404, NotFound) && unchanged(db)
      case Some(t) =>
        if p.amount.Some? && p.amount.value <= 0 then
          r == Fail(400, AmountMessage) && unchanged(db)
        else
          match Merge(t, p, now)
          case None => r == Fail(500, ServerError) && unchanged(db)
          case Some(t') =>
            if Storable(db.categories, t') then
              && db.transactions == old(db.transactions)[id := t']
              && r == Response(200, Single(Some(Updated), Joined(db.categories, t')))
            else
              r == Fail(500, ServerError) && unchanged(db)
  {
    var existing := OwnedRow(db, id, p.firebaseUid);
    if existing.None? {
      return Fail(404, NotFound);
    }
    if p.amount.Some? && p.amount.value <= 0 {
      return Fail(400, AmountMessage);
    }
    var merged := Merge(existing.value, p, now);
    if merged.None? || !Storable(db.categories, merged.value) {
      return Fail(500, ServerError);
    }
    IntegralWrite(db.transactions, db.users, db.categories, id, merged.value);
    KeyedReplace(db.transactions, db.nextTransactionId, (t: Transaction) => t.id, id, merged.value);
    db.transactions := db.transactions[id := merged.value];
    r := Response(200, Single(Some(Updated), Joined(db.categories, db.transactions[id])));
  }

  // ----- deleteTransaction -----

  method DeleteTransaction(db: Database, id: nat, uid: Field<string>) returns (r: Response<TransactionView>)
    requires db.Valid()
    modifies db`transactions
    ensures db.Valid()
    ensures old(OwnedRow(db, id, uid)).None? ==> r == Fail(404, NotFound) && unchanged(db)
    ensures old(OwnedRow(db, id, uid)).Some? ==>
      db.transactions == old(db.transactions) - {id} && r == Response(200, Done(Deleted))
  {
    var existing := OwnedRow(db, id, uid);
    if existing.None? {
      return Fail(404, NotFound);
    }
    KeyedRemove(db.transactions, db.nextTransactionId, (t: Transaction) => t.id, id);
    db.transactions := db.transactions - {id};
    r := Response(200, Done(Deleted));
  }

  // ----- getTransactionSummary -----

  datatype Group = Group(total: int, count: nat)

  /** One row of `SELECT type, SUM(amount), COUNT(*) ... GROUP BY type`. */
  datatype GroupRow = GroupRow(kind: Flow, total: int, count: nat)

  datatype Summary = Summary(income: Group, expense: Group, balance: int)

  datatype SummaryQuery = SummaryQuery(firebaseUid: Field<string>, startDate: Option<nat>, endDate: Option<nat>)

  /** SUM(amount) over the rows of one type. */
  function Total(rows: seq<Transaction>, k: Flow): (r: int)
    ensures (forall x :: x in rows ==> x.amount <= MaxCents) ==> r <= Count(rows, k) * MaxCents
  {
    if rows == [] then 0
    else (if rows[0].kind == k then rows[0].amount else 0) + Total(rows[1..], k)
  }

  /** COUNT(*) over the rows of one type. */
  function Count(rows: seq<Transaction>, k: Flow): (r: nat)
    ensures r <= |rows|
    ensures r == 0 <==> forall i :: 0 <= i < |rows| ==> rows[i].kind != k
  {
    if rows == [] then 0
    else (if rows[0].kind == k then 1 else 0) + Count(rows[1..], k)
  }

  /** Every row is an income or an expense, so the two counts add up to all rows. */
  lemma {:induction false} CountsPartition(rows: seq<Transaction>)
    ensures Count(rows, Income) + Count(rows, Expense) == |rows|
  {
    if rows != [] {
      CountsPartition(rows[1..]);
    }
  }

  /** A type without rows sums to zero. */
  lemma {:induction false} EmptyGroupTotal(rows: seq<Transaction>, k: Flow)
    requires Count(rows, k) == 0
    ensures Total(rows, k) == 0
  {
    if rows != [] {
      EmptyGroupTotal(rows[1..], k);
    }
  }

  /** With positive amounts, a row of type k contributes its whole amount to k's total. */
  lemma {:induction false} TotalCoversRow(rows: seq<Transaction>, t: Transaction)
    requires forall x :: x in rows ==> x.amount > 0
    requires t in rows
    ensures Total(rows, t.kind) >= t.amount && Count(rows, t.kind) >= 1
  {
    if rows[0] != t {
      TotalCoversRow(rows[1..], t);
    } else {
      TotalNonNegative(rows[1..], t.kind);
    }
  }

  lemma {:induction false} TotalNonNegative(rows: seq<Transaction>, k: Flow)
    requires forall x :: x in rows ==> x.amount > 0
    ensures Total(rows, k) >= 0
  {
    if rows != [] {
      TotalNonNegative(rows[1..], k);
    }
  }

  /** GROUP BY type: one row for each type that occurs, none for a type that does not. */
  function GroupByType(rows: seq<Transaction>): (g: seq<GroupRow>)
    ensures forall x :: x in g ==> x.count > 0 && x.total == Total(rows, x.kind) && x.count == Count(rows, x.kind)
    ensures forall i, j :: 0 <= i < j < |g| ==> g[i].kind != g[j].kind
    ensures Count(rows, Income) > 0 ==> GroupRow(Income, Total(rows, Income), Count(rows, Income)) in g
    ensures Count(rows, Expense) > 0 ==> GroupRow(Expense, Total(rows, Expense), Count(rows, Expense)) in g
  {
    (if Count(rows, Income) > 0 then [GroupRow(Income, Total(rows, Income), Count(rows, Income))] else [])
    + (if Count(rows, Expense) > 0 then [GroupRow(Expense, Total(rows, Expense), Count(rows, Expense))] else [])
  }

  /** `summary.find(s => s.type === k) || { total: 0, count: 0 }` */
  function GroupOrZero(g: seq<GroupRow>, k: Flow): (r: Group)
    ensures (forall x :: x in g ==> x.kind != k) ==> r == Group(0, 0)
    ensures forall x :: x in g && x.kind == k ==> (forall i :: 0 <= i < |g| && g[i] != x ==> g[i].kind != k) ==> r == Group(x.total, x.count)
  {
    if g == [] then Group(0, 0)
    else if g[0].kind == k then Group(g[0].total, g[0].count)
    else GroupOrZero(g[1..], k)
  }

  /** The aggregate of one type, read back from the grouped rows: a missing group yields the
      same zero total and count an empty sum would. */
  lemma GroupOf(rows: seq<Transaction>, k: Flow)
    ensures GroupOrZero(GroupByType(rows), k) == Group(Total(rows, k), Count(rows, k))
  {
    var g := GroupByType(rows);
    if Count(rows, k) == 0 {
      EmptyGroupTotal(rows, k);
    } else {
      var x := GroupRow(k, Total(rows, k), Count(rows, k));
      assert x in g;
    }
  }

  /** The WHERE clause of the summary: the owner and the inclusive date bounds. */
  predicate OwnedInPeriod(t: Transaction, userId: nat, startDate: Option<nat>, endDate: Option<nat>) {
    t.userId == userId && InPeriod(t, startDate, endDate)
  }

  /** The caller's rows within the inclusive date bounds, in primary-key order. */
  function PeriodRows(txns: map<nat, Transaction>, next: nat, userId: nat, startDate: Option<nat>, endDate: Option<nat>): (rows: seq<Transaction>)
    ensures forall t :: t in rows ==> t in txns.Values && OwnedInPeriod(t, userId, startDate, endDate)
    ensures forall k :: k in txns && k < next && OwnedInPeriod(txns[k], userId, startDate, endDate) ==> txns[k] in rows
    ensures (forall k :: k in txns ==> txns[k].id == k) ==> Distinct(rows)
  {
    RowsBelowDistinct(txns, next, (t: Transaction) => t.id);
    Filter(RowsBelow(txns, next), (t: Transaction) => OwnedInPeriod(t, userId, startDate, endDate))
  }

  function Summarize(rows: seq<Transaction>): (s: Summary)
    ensures s.income == Group(Total(rows, Income), Count(rows, Income))
    ensures s.expense == Group(Total(rows, Expense), Count(rows, Expense))
    ensures s.balance == s.income.total - s.expense.total
    ensures s.income.count + s.expense.count == |rows|
  {
    var g := GroupByType(rows);
    GroupOf(rows, Income);
    GroupOf(rows, Expense);
    CountsPartition(rows);
    var income := GroupOrZero(g, Income);
    var expense := GroupOrZero(g, Expense);
    Summary(income, expense, income.total - expense.total)
  }

  function GetTransactionSummary(db: Database, q: SummaryQuery): (r: Response<Summary>)
    reads db
    requires db.Valid()
    ensures Caller(db, q.firebaseUid).None? ==> r == Fail(404, UserNotFound)
    ensures Caller(db, q.firebaseUid).Some? ==>
      var rows := PeriodRows(db.transactions, db.nextTransactionId, Caller(db, q.firebaseUid).value, q.startDate, q.endDate);
      && r.status == 200 && r.body.Single?
      && r.body.item.income == Group(Total(rows, Income), Count(rows, Income))
      && r.body.item.expense == Group(Total(rows, Expense), Count(rows, Expense))
      && r.body.item.balance == r.body.item.income.total - r.body.item.expense.total
  {
    match Caller(db, q.firebaseUid)
    case None => Fail(404, UserNotFound)
    case Some(userId) => Response(200, Single(None, Summarize(PeriodRows(db.transactions, db.nextTransactionId, userId, q.startDate, q.endDate))))
  }

  /** The summary counts exactly the rows that the listing with the same caller and date
      bounds (and no type or category filter) returns. */
  lemma SummaryCountsListing(db: Database, uid: Field<string>, startDate: Option<nat>, endDate: Option<nat>)
    requires db.Valid()
    requires Caller(db, uid).Some?
    ensures var s := GetTransactionSummary(db, SummaryQuery(uid, startDate, endDate)).body.item;
      s.income.count + s.expense.count == GetTransactions(db, TransactionQuery(uid, None, startDate, endDate, None)).body.count
  {
    var userId := Caller(db, uid).value;
    var q := TransactionQuery(uid, None, startDate, endDate, None);
    var scan := RowsBelow(db.transactions, db.nextTransactionId);
    var p1 := (t: Transaction) => OwnedInPeriod(t, userId, startDate, endDate);
    var p2 := (t: Transaction) => Matches(t, userId, q);
    FilterAgrees(scan, p1, p2);
    CountsPartition(PeriodRows(db.transactions, db.nextTransactionId, userId, startDate, endDate));
  }

  /** A row of the caller inside the date bounds shows in its type's group: the total is at
      least its amount and the count at least one. */
  lemma SummaryIncludesRow(db: Database, uid: Field<string>, startDate: Option<nat>, endDate: Option<nat>, t: Transaction)
    requires db.Valid()
    requires Caller(db, uid).Some?
    requires t in db.transactions.Values && t.userId == Caller(db, uid).value && InPeriod(t, startDate, endDate)
    ensures var s := GetTransactionSummary(db, SummaryQuery(uid, startDate, endDate)).body.item;
      var g := if t.kind == Income then s.income else s.expense;
      g.total >= t.amount && g.count >= 1
  {
    var rows := PeriodRows(db.transactions, db.nextTransactionId, Caller(db, uid).value, startDate, endDate);
    var k :| k in db.transactions && db.transactions[k] == t;
    TotalCoversRow(rows, t);
  }
}
