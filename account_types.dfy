/** accountTypeController.js: the catalogue of account types. */
module AccountTypes {
  import opened Fields
  import opened Ordering
  import opened Tables
  import opened Schema
  import opened Http
  import opened Store

  const RequiredMessage: string := "name is required"
  const NotFound: string := "Account type not found"
  const Created: string := "Account type created successfully"

  /** ORDER BY name ASC */
  function Key(a: AccountType): (r: seq<int>) {
    Codes(a.name)
  }

  predicate ByName(s: seq<AccountType>) {
    forall i, j | 0 <= i < j < |s| :: TextLe(s[i].name, s[j].name)
  }

  function GetAccountTypes(db: Database): (r: Response<AccountType>)
    reads db
    requires db.Valid()
    ensures r.status == 200 && r.body.Listing?
    ensures r.body.count == |r.body.items|
    ensures ByName(r.body.items) && Distinct(r.body.items)
    ensures forall a :: a in r.body.items <==> a in db.accountTypes.Values
  {
    var rows := Select(db.accountTypes, db.nextAccountTypeId, (a: AccountType) => a.id, (a: AccountType) => true, Key);
    Response(200, Listing(|rows|, rows))
  }

  function GetAccountTypeById(db: Database, id: nat): (r: Response<AccountType>)
    reads db
    ensures r.Success() <==> id in db.accountTypes
    ensures !r.Success() ==> r == Fail(404, NotFound)
    ensures r.Success() ==> r == Response(200, Single(None, db.accountTypes[id]))
  {
    if id in db.accountTypes then Response(200, Single(None, db.accountTypes[id]))
    else Fail(404, NotFound)
  }

  datatype NewAccountType = NewAccountType(name: Field<string>, description: Field<string>, icon: Field<string>)

  /** The row createAccountType inserts: a falsy description or icon is NULL. */
  function NewRow(id: nat, req: NewAccountType): (a: AccountType)
    requires !Falsy(req.name, "")
    ensures a.id == id && a.name == req.name.value
    ensures a.description.None? <==> Falsy(req.description, "")
    ensures a.description.Some? ==> a.description.value == req.description.value
    ensures a.icon.None? <==> Falsy(req.icon, "")
    ensures a.icon.Some? ==> a.icon.value == req.icon.value
  {
    AccountType(id, req.name.value, OrNull(req.description, ""), OrNull(req.icon, ""))
  }

  method CreateAccountType(db: Database, req: NewAccountType) returns (r: Response<AccountType>)
    requires db.Valid()
    modifies db`accountTypes, db`nextAccountTypeId
    ensures db.Valid()
    ensures Falsy(req.name, "") ==> r == Fail(400, RequiredMessage) && unchanged(db)
    ensures !Falsy(req.name, "") ==>
      var a := NewRow(old(db.nextAccountTypeId), req);
      && db.accountTypes == old(db.accountTypes)[a.id := a]
      && db.nextAccountTypeId == old(db.nextAccountTypeId) + 1
      && r == Response(201, Single(Some(Created), a))
    ensures r.status == 201 ==>
      r.body.Single? && GetAccountTypeById(db, r.body.item.id) == Response(200, Single(None, r.body.item))
  {
    if Falsy(req.name, "") {
      return Fail(400, RequiredMessage);
    }
    var a := AccountType(db.nextAccountTypeId, req.name.value, OrNull(req.description, ""), OrNull(req.icon, ""));
    KeyedInsert(db.accountTypes, db.nextAccountTypeId, (a: AccountType) => a.id, a);
    db.accountTypes := db.accountTypes[a.id := a];
    db.nextAccountTypeId := db.nextAccountTypeId + 1;
    r := Response(201, Single(Some(Created), db.accountTypes[a.id]));
  }
}
