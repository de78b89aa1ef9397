/** categoryController.js: categories are private to a user or global (user_id NULL). None of
    the handlers but the listing looks at the caller, and deleting a category detaches the
    transactions that used it. */
module Categories {
  import opened Fields
  import opened Ordering
  import opened Tables
  import opened Schema
  import opened Http
  import opened Store
  import opened Identity
  import Transactions

  const RequiredMessage: string := "name and type are required"
  const TypeMessage: string := "type must be either \"income\" or \"expense\""
  const UidRequired: string := "firebase_uid is required"
  const NotFound: string := "Category not found"
  const Created: string := "Category created successfully"
  const Updated: string := "Category updated successfully"
  const Deleted: string := "Category deleted successfully"

  /** The folder emoji every created category gets. */
  const DefaultIcon: string := "\U{1F4C1}"

  // ----- createCategory -----

  /** The body of a create request. The handler reads `icon` and `color` and then ignores them. */
  datatype NewCategory = NewCategory(
    firebaseUid: Field<string>,
    name: Field<string>,
    kind: Field<string>,
    icon: Field<string>,
    color: Field<string>,
    description: Field<string>,
    isDefault: Field<bool>)

  /** The checks of createCategory in order: name and type present, then type in the ENUM.
      The caller's identity is not checked. */
  function CreateRejection(req: NewCategory): (r: Option<Response<Category>>)
    ensures r.None? <==> !Falsy(req.name, "") && !Falsy(req.kind, "") && ParseFlow(req.kind.value).Some?
    ensures r == Some(Fail(400, RequiredMessage)) <==> Falsy(req.name, "") || Falsy(req.kind, "")
    ensures r == Some(Fail(400, TypeMessage)) <==>
      !Falsy(req.name, "") && !Falsy(req.kind, "") && ParseFlow(req.kind.value).None?
  {
    if Falsy(req.name, "") || Falsy(req.kind, "") then Some(Fail(400, RequiredMessage))
    else if ParseFlow(req.kind.value).None? then Some(Fail(400, TypeMessage))
    else None
  }

  /** The row createCategory inserts for the (possibly unresolved) caller. */
  function NewRow(id: nat, userId: Option<nat>, req: NewCategory, now: nat): (c: Category)
    requires CreateRejection(req).None?
    ensures c.id == id && c.name == req.name.value && Some(c.kind) == ParseFlow(req.kind.value)
    ensures c.createdAt == now && c.updatedAt == now
  {
    Category(id, userId, req.name.value, ParseFlow(req.kind.value).value, Some(DefaultIcon), None,
             OrNull(req.description, ""), Some(Or(req.isDefault, false, false)), now, now)
  }

  /** A created category belongs to the caller when the uid resolves and is global otherwise;
      whatever the request says, its icon is the folder and its color NULL; a falsy description
      is NULL and is_default is false unless the request sets it to true. */
  lemma NewRowShape(id: nat, userId: Option<nat>, req: NewCategory, now: nat)
    requires CreateRejection(req).None?
    ensures NewRow(id, userId, req, now).userId == userId
    ensures NewRow(id, userId, req, now).icon == Some(DefaultIcon)
    ensures NewRow(id, userId, req, now).color == None
    ensures Falsy(req.description, "") <==> NewRow(id, userId, req, now).description.None?
    ensures req.isDefault == Given(true) ==> NewRow(id, userId, req, now).isDefault == Some(true)
    ensures req.isDefault != Given(true) ==> NewRow(id, userId, req, now).isDefault == Some(false)
  {
    OrFalse(req.isDefault);
  }

  method CreateCategory(db: Database, req: NewCategory, now: nat) returns (r: Response<Category>)
    requires db.Valid()
    modifies db`categories, db`nextCategoryId
    ensures db.Valid()
    ensures CreateRejection(req).Some? ==> r == CreateRejection(req).value && unchanged(db)
    ensures CreateRejection(req).None? ==>
      var c := NewRow(old(db.nextCategoryId), Caller(db, req.firebaseUid), req, now);
      && db.categories == old(db.categories)[c.id := c]
      && db.nextCategoryId == old(db.nextCategoryId) + 1
      && r == Response(201, Single(Some(Created), c))
    ensures r.status == 201 ==>
      r.body.Single? && GetCategoryById(db, r.body.item.id) == Response(200, Single(None, r.body.item))
  {
    if Falsy(req.name, "") || Falsy(req.kind, "") {
      return Fail(400, RequiredMessage);
    }
    var kind := ParseFlow(req.kind.value);
    if kind.None? {
      return Fail(400, TypeMessage);
    }
    var userId := Caller(db, req.firebaseUid);
    var c := Category(db.nextCategoryId, userId, req.name.value, kind.value, Some(DefaultIcon), None,
                      OrNull(req.description, ""), Some(Or(req.isDefault, false, false)), now, now);
    KeyedInsert(db.categories, db.nextCategoryId, (c: Category) => c.id, c);
    CategoriesGrow(db.categories, db.categories[c.id := c], db.users, db.transactions);
    db.categories := db.categories[c.id := c];
    db.nextCategoryId := db.nextCategoryId + 1;
    r := Response(201, Single(Some(Created), db.categories[c.id]));
  }

  // ----- getCategories -----

  /** The query string of a listing; an empty parameter counts as absent. */
  datatype CategoryQuery = CategoryQuery(firebaseUid: Field<string>, kind: Option<string>)

  /** The `type` condition: a parameter outside the ENUM adds none. */
  function TypeFilter(kind: Option<string>): (r: Option<Flow>)
    ensures kind.None? ==> r.None?
    ensures kind.Some? ==> r == ParseFlow(kind.value)
  {
    if kind.Some? then ParseFlow(kind.value) else None
  }

  /** The WHERE clause as the handler writes it, read with SQL's precedence of AND over OR:
      for a known user `user_id = ? OR (user_id IS NULL AND type = ?)`, for an unknown one
      `user_id IS NULL AND type = ?`, the type condition present only when filtering. */
  predicate Visible(c: Category, userId: Option<nat>, kind: Option<Flow>): (b: bool)
    ensures b ==> c.userId.None? || c.userId == userId
    ensures userId.Some? && c.userId == userId ==> b
    ensures c.userId.None? ==> (b <==> kind.None? || c.kind == kind.value)
  {
    || (userId.Some? && c.userId == userId)
    || (c.userId.None? && (kind.Some? ==> c.kind == kind.value))
  }

  /** ORDER BY is_default DESC, name ASC */
  function Key(c: Category): (r: seq<int>) {
    RankedKey(BoolRank(c.isDefault), c.name)
  }

  predicate DefaultsFirst(cs: seq<Category>) {
    forall i, j | 0 <= i < j < |cs| ::
      || BoolRank(cs[i].isDefault) > BoolRank(cs[j].isDefault)
      || (BoolRank(cs[i].isDefault) == BoolRank(cs[j].isDefault) && TextLe(cs[i].name, cs[j].name))
  }

  lemma DefaultsFirstWhenSorted(cs: seq<Category>)
    requires SortedBy(cs, Key)
    ensures DefaultsFirst(cs)
  {
    forall i, j | 0 <= i < j < |cs|
      ensures || BoolRank(cs[i].isDefault) > BoolRank(cs[j].isDefault)
              || (BoolRank(cs[i].isDefault) == BoolRank(cs[j].isDefault) && TextLe(cs[i].name, cs[j].name))
    {
      RankedKeyOrder(BoolRank(cs[i].isDefault), cs[i].name, BoolRank(cs[j].isDefault), cs[j].name);
    }
  }

  function GetCategories(db: Database, q: CategoryQuery): (r: Response<Category>)
    reads db
    requires db.Valid()
    ensures Falsy(q.firebaseUid, "") ==> r == Fail(400, UidRequired)
    ensures !Falsy(q.firebaseUid, "") ==>
      var userId := Caller(db, q.firebaseUid);
      && r.status == 200 && r.body.Listing?
      && r.body.count == |r.body.items|
      && DefaultsFirst(r.body.items)
      && Distinct(r.body.items)
      && (forall c :: c in r.body.items ==> c in db.categories.Values && Visible(c, userId, TypeFilter(q.kind)))
      && (forall c :: c in db.categories.Values && Visible(c, userId, TypeFilter(q.kind)) ==> c in r.body.items)
      && (forall c :: c in r.body.items ==> c.userId.None? || c.userId == userId)
  {
    if Falsy(q.firebaseUid, "") then Fail(400, UidRequired)
    else
      var userId := Caller(db, q.firebaseUid);
      var kind := TypeFilter(q.kind);
      var rows := Select(db.categories, db.nextCategoryId, (c: Category) => c.id, (c: Category) => Visible(c, userId, kind), Key);
      DefaultsFirstWhenSorted(rows);
      Response(200, Listing(|rows|, rows))
  }

  /** A known user's own categories are listed whatever `type` asks for: the type condition
      binds only to the global disjunct. */
  lemma OwnCategoriesIgnoreType(db: Database, uid: Field<string>, kind: Option<string>, c: Category)
    requires db.Valid()
    requires Caller(db, uid).Some?
    requires c in db.categories.Values && c.userId == Caller(db, uid)
    ensures c in GetCategories(db, CategoryQuery(uid, kind)).body.items
  {
  }

  /** A global category is listed for every caller with a uid exactly when it has the filtered
      type (or no valid type is asked for). */
  lemma GlobalCategoriesFiltered(db: Database, uid: Field<string>, kind: Option<string>, c: Category)
    requires db.Valid()
    requires !Falsy(uid, "")
    requires c in db.categories.Values && c.userId.None?
    ensures c in GetCategories(db, CategoryQuery(uid, kind)).body.items <==>
      TypeFilter(kind).None? || c.kind == TypeFilter(kind).value
  {
  }

  /** A caller whose uid resolves to no user sees global categories only, and only of the
      filtered type. */
  lemma UnknownCallerSeesGlobals(db: Database, uid: Field<string>, kind: Option<string>)
    requires db.Valid()
    requires !Falsy(uid, "") && Caller(db, uid).None?
    ensures forall c :: c in GetCategories(db, CategoryQuery(uid, kind)).body.items ==>
      c.userId.None? && (TypeFilter(kind).Some? ==> c.kind == TypeFilter(kind).value)
  {
  }

  // ----- the type filter as evidently intended -----

  /** The listing the handler's comment describes: the caller's categories and the global ones,
      both narrowed by the type filter, i.e. `(user_id = ? OR user_id IS NULL) AND type = ?`. */
  predicate IntendedVisible(c: Category, userId: Option<nat>, kind: Option<Flow>): (b: bool)
    ensures b ==> Visible(c, userId, kind)
    ensures b && kind.Some? ==> c.kind == kind.value
    ensures kind.None? ==> (b <==> Visible(c, userId, kind))
  {
    && ((userId.Some? && c.userId == userId) || c.userId.None?)
    && (kind.Some? ==> c.kind == kind.value)
  }

  /** As written, a user's own income category is listed when only expense categories are
      asked for; the intended filter drops it. */
  lemma PrecedenceLetsOtherTypesThrough()
    ensures var c := Category(1, Some(7), "Salary", Income, None, None, None, Some(false), 0, 0);
      Visible(c, Some(7), Some(Expense)) && !IntendedVisible(c, Some(7), Some(Expense))
  {
  }

  /** getCategories with the type condition applied to both disjuncts. */
  function GetCategoriesAsIntended(db: Database, q: CategoryQuery): (r: Response<Category>)
    reads db
    requires db.Valid()
    ensures Falsy(q.firebaseUid, "") ==> r == Fail(400, UidRequired)
    ensures !Falsy(q.firebaseUid, "") ==>
      var userId := Caller(db, q.firebaseUid);
      && r.status == 200 && r.body.Listing?
      && r.body.count == |r.body.items|
      && DefaultsFirst(r.body.items)
      && Distinct(r.body.items)
      && (forall c :: c in r.body.items ==> c in db.categories.Values && IntendedVisible(c, userId, TypeFilter(q.kind)))
      && (forall c :: c in db.categories.Values && IntendedVisible(c, userId, TypeFilter(q.kind)) ==> c in r.body.items)
  {
    if Falsy(q.firebaseUid, "") then Fail(400, UidRequired)
    else
      var userId := Caller(db, q.firebaseUid);
      var kind := TypeFilter(q.kind);
      var rows := Select(db.categories, db.nextCategoryId, (c: Category) => c.id, (c: Category) => IntendedVisible(c, userId, kind), Key);
      DefaultsFirstWhenSorted(rows);
      Response(200, Listing(|rows|, rows))
  }

  /** Every category of the corrected listing has the requested type, and the corrected listing
      is part of the one as written, equal to it when no valid type is requested. */
  lemma IntendedFilterNarrows(db: Database, q: CategoryQuery)
    requires db.Valid()
    requires !Falsy(q.firebaseUid, "")
    ensures TypeFilter(q.kind).Some? ==>
      forall c :: c in GetCategoriesAsIntended(db, q).body.items ==> c.kind == TypeFilter(q.kind).value
    ensures forall c :: c in GetCategoriesAsIntended(db, q).body.items ==> c in GetCategories(db, q).body.items
    ensures TypeFilter(q.kind).None? ==>
      forall c :: c in GetCategories(db, q).body.items <==> c in GetCategoriesAsIntended(db, q).body.items
  {
  }

  // ----- getCategoryById -----

  /** `SELECT * FROM categories WHERE id = ?`, not scoped to any user. */
  function GetCategoryById(db: Database, id: nat): (r: Response<Category>)
    reads db
    ensures r.Success() <==> id in db.categories
    ensures !r.Success() ==> r == Fail(404, NotFound)
    ensures r.Success() ==> r == Response(200, Single(None, db.categories[id]))
  {
    if id in db.categories then Response(200, Single(None, db.categories[id]))
    else Fail(404, NotFound)
  }

  // ----- updateCategory -----

  datatype CategoryPatch = CategoryPatch(
    name: Field<string>,
    kind: Field<string>,
    icon: Field<string>,
    color: Field<string>,
    description: Field<string>,
    isDefault: Field<bool>)

  /** The SET list of updateCategory over the existing row: name and type are replaced only
      when truthy, icon, color, description and is_default whenever supplied (so null clears
      them). The handler does not check the type; None when a truthy one is outside the ENUM,
      which the storage engine rejects. */
  function Merge(c: Category, p: CategoryPatch, now: nat): (r: Option<Category>)
    ensures r.None? <==> !Falsy(p.kind, "") && ParseFlow(p.kind.value).None?
    ensures r.Some? ==>
      && r.value.id == c.id && r.value.userId == c.userId
      && r.value.createdAt == c.createdAt && r.value.updatedAt == now
    ensures r.Some? ==> r.value.name == Or(p.name, "", c.name)
    ensures r.Some? && Falsy(p.kind, "") ==> r.value.kind == c.kind
    ensures r.Some? && !Falsy(p.kind, "") ==> Some(r.value.kind) == ParseFlow(p.kind.value)
    ensures r.Some? ==> r.value.icon == IfDefined(p.icon, c.icon)
    ensures r.Some? ==> r.value.color == IfDefined(p.color, c.color)
    ensures r.Some? ==> r.value.description == IfDefined(p.description, c.description)
    ensures r.Some? ==> r.value.isDefault == IfDefined(p.isDefault, c.isDefault)
  {
    var kind := if Falsy(p.kind, "") then Some(c.kind) else ParseFlow(p.kind.value);
    if kind.None? then None
    else
      Some(c.(name := Or(p.name, "", c.name),
              kind := kind.value,
              icon := IfDefined(p.icon, c.icon),
              color := IfDefined(p.color, c.color),
              description := IfDefined(p.description, c.description),
              isDefault := IfDefined(p.isDefault, c.isDefault),
              updatedAt := now))
  }

  /** An update that supplies nothing rewrites the row as it was, bar updated_at. */
  lemma MergeNothing(c: Category, now: nat)
    ensures Merge(c, CategoryPatch(Undefined, Undefined, Undefined, Undefined, Undefined, Undefined), now) == Some(c.(updatedAt := now))
  {
  }

  /** The two merges side by side: an explicit null or empty name keeps the old name, while an
      explicit null icon, color or description clears the stored one. */
  lemma MergeNulls(c: Category, now: nat)
    ensures var r := Merge(c, CategoryPatch(Null, Null, Null, Null, Null, Null), now);
      r.Some? && r.value.name == c.name && r.value.kind == c.kind
      && r.value.icon.None? && r.value.color.None? && r.value.description.None? && r.value.isDefault.None?
    ensures var r := Merge(c, CategoryPatch(Given(""), Given(""), Given(""), Given(""), Given(""), Given(false)), now);
      r.Some? && r.value.name == c.name && r.value.kind == c.kind
      && r.value.icon == Some("") && r.value.color == Some("") && r.value.description == Some("")
      && r.value.isDefault == Some(false)
  {
  }

  method UpdateCategory(db: Database, id: nat, p: CategoryPatch, now: nat) returns (r: Response<Category>)
    requires db.Valid()
    modifies db`categories
    ensures db.Valid()
    ensures id !in old(db.categories) ==> r == Fail(404, NotFound) && unchanged(db)
    ensures id in old(db.categories) ==>
      match Merge(old(db.categories[id]), p, now)
      case None => r == Fail(500, ServerError) && unchanged(db)
      case Some(c) =>
        db.categories == old(db.categories)[id := c] && r == Response(200, Single(Some(Updated), c))
  {
    if id !in db.categories {
      return Fail(404, NotFound);
    }
    var merged := Merge(db.categories[id], p, now);
    if merged.None? {
      return Fail(500, ServerError);
    }
    KeyedReplace(db.categories, db.nextCategoryId, (c: Category) => c.id, id, merged.value);
    CategoriesGrow(db.categories, db.categories[id := merged.value], db.users, db.transactions);
    db.categories := db.categories[id := merged.value];
    r := Response(200, Single(Some(Updated), db.categories[id]));
  }

  // ----- deleteCategory -----

  /** A transaction after `ON DELETE SET NULL` for category `id`. */
  function Detach(t: Transaction, id: nat): (r: Transaction)
    ensures r.categoryId != Some(id)
    ensures t.categoryId != Some(id) ==> r == t
    ensures r.(categoryId := t.categoryId) == t
  {
    if t.categoryId == Some(id) then t.(categoryId := None) else t
  }

  /** The transactions table after category `id` is deleted: the same rows, none of them
      referencing `id` any more. */
  function Detached(txns: map<nat, Transaction>, id: nat): (r: map<nat, Transaction>)
    ensures r.Keys == txns.Keys
    ensures forall k :: k in txns ==> r[k] == Detach(txns[k], id)
  {
    map k | k in txns :: Detach(txns[k], id)
  }

  method DeleteCategory(db: Database, id: nat) returns (r: Response<Category>)
    requires db.Valid()
    modifies db`categories, db`transactions
    ensures db.Valid()
    ensures id !in old(db.categories) ==> r == Fail(404, NotFound) && unchanged(db)
    ensures id in old(db.categories) ==>
      && db.categories == old(db.categories) - {id}
      && db.transactions == Detached(old(db.transactions), id)
      && r == Response(200, Done(Deleted))
  {
    if id !in db.categories {
      return Fail(404, NotFound);
    }
    KeyedRemove(db.categories, db.nextCategoryId, (c: Category) => c.id, id);
    db.categories := db.categories - {id};
    db.transactions := Detached(db.transactions, id);
    r := Response(200, Done(Deleted));
  }

  // ----- deleting a category and the transaction summary -----

  function DetachAll(s: seq<Transaction>, id: nat): (r: seq<Transaction>)
    ensures |r| == |s|
    ensures forall i :: 0 <= i < |s| ==> r[i] == Detach(s[i], id)
  {
    seq(|s|, i requires 0 <= i < |s| => Detach(s[i], id))
  }

  lemma DetachAllAppend(a: seq<Transaction>, b: seq<Transaction>, id: nat)
    ensures DetachAll(a + b, id) == DetachAll(a, id) + DetachAll(b, id)
  {
    assert forall i :: 0 <= i < |a + b| ==> DetachAll(a + b, id)[i] == (DetachAll(a, id) + DetachAll(b, id))[i];
  }

  /** Scanning the detached table is detaching the scan. */
  lemma {:induction false} ScanDetached(txns: map<nat, Transaction>, id: nat, n: nat)
    ensures RowsBelow(Detached(txns, id), n) == DetachAll(RowsBelow(txns, n), id)
  {
    if n > 0 {
      ScanDetached(txns, id, n - 1);
      var tail := if n - 1 in txns then [txns[n - 1]] else [];
      DetachAllAppend(RowsBelow(txns, n - 1), tail, id);
    }
  }

  /** Filtering on a condition that detaching cannot change commutes with detaching. */
  lemma {:induction false} FilterDetached(s: seq<Transaction>, id: nat, p: Transaction -> bool)
    requires forall t :: p(Detach(t, id)) == p(t)
    ensures Filter(DetachAll(s, id), p) == DetachAll(Filter(s, p), id)
  {
    if s != [] {
      var d := DetachAll(s, id);
      FilterDetached(s[1..], id, p);
      assert d[1..] == DetachAll(s[1..], id);
      var head := if p(s[0]) then [s[0]] else [];
      assert Filter(d, p) == DetachAll(head, id) + Filter(d[1..], p);
      DetachAllAppend(head, Filter(s[1..], p), id);
    }
  }

  /** Detaching keeps every row's type and amount, so every total and count. */
  lemma {:induction false} AggregatesDetached(s: seq<Transaction>, id: nat, k: Flow)
    ensures Transactions.Total(DetachAll(s, id), k) == Transactions.Total(s, k)
    ensures Transactions.Count(DetachAll(s, id), k) == Transactions.Count(s, k)
  {
    if s != [] {
      AggregatesDetached(s[1..], id, k);
      assert DetachAll(s, id)[1..] == DetachAll(s[1..], id);
    }
  }

  /** Deleting a category leaves every user's summary, for every period, as it was: the
      summary groups rows by their own type, not their category's. */
  lemma DeleteKeepsSummaries(txns: map<nat, Transaction>, next: nat, id: nat, userId: nat, startDate: Option<nat>, endDate: Option<nat>)
    ensures Transactions.Summarize(Transactions.PeriodRows(Detached(txns, id), next, userId, startDate, endDate))
         == Transactions.Summarize(Transactions.PeriodRows(txns, next, userId, startDate, endDate))
  {
    var rows := Transactions.PeriodRows(txns, next, userId, startDate, endDate);
    ScanDetached(txns, id, next);
    var p := (t: Transaction) => Transactions.OwnedInPeriod(t, userId, startDate, endDate);
    assert forall t :: p(Detach(t, id)) == p(t) by {
      forall t ensures p(Detach(t, id)) == p(t) {
        assert Detach(t, id).userId == t.userId && Detach(t, id).date == t.date;
      }
    }
    FilterDetached(RowsBelow(txns, next), id, p);
    AggregatesDetached(rows, id, Income);
    AggregatesDetached(rows, id, Expense);
  }
}
