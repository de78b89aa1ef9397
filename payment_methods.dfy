/** paymentMethodController.js: payment methods owned by a user. The payment_methods schema is
    not part of this model, so the stored `type` is free text and the table has no foreign key. */
module PaymentMethods {
  import opened Fields
  import opened Ordering
  import opened Tables
  import opened Schema
  import opened Http
  import opened Store
  import opened Identity

  const RequiredMessage: string := "name and type are required"
  const TypeMessage: string := "type must be one of: cash, card, bank, digital, other"
  const NotFound: string := "Payment method not found"
  const Created: string := "Payment method created successfully"
  const Updated: string := "Payment method updated successfully"
  const Deleted: string := "Payment method deleted successfully"

  /** The types createPaymentMethod accepts. */
  predicate KnownType(s: string) {
    s in ["cash", "card", "bank", "digital", "other"]
  }

  // ----- createPaymentMethod -----

  datatype NewPaymentMethod = NewPaymentMethod(
    firebaseUid: Field<string>,
    name: Field<string>,
    kind: Field<string>,
    icon: Field<string>,
    description: Field<string>,
    isDefault: Field<bool>)

  /** The checks of createPaymentMethod in order: name and type present, then type among the
      five known ones. The caller's identity is not checked. */
  function CreateRejection(req: NewPaymentMethod): (r: Option<Response<PaymentMethod>>)
    ensures r.None? <==> !Falsy(req.name, "") && !Falsy(req.kind, "") && KnownType(req.kind.value)
    ensures r == Some(Fail(400, RequiredMessage)) <==> Falsy(req.name, "") || Falsy(req.kind, "")
    ensures r == Some(Fail(400, TypeMessage)) <==>
      !Falsy(req.name, "") && !Falsy(req.kind, "") && !KnownType(req.kind.value)
  {
    if Falsy(req.name, "") || Falsy(req.kind, "") then Some(Fail(400, RequiredMessage))
    else if !KnownType(req.kind.value) then Some(Fail(400, TypeMessage))
    else None
  }

  /** The row createPaymentMethod inserts for the (possibly unresolved) caller. */
  function NewRow(id: nat, userId: Option<nat>, req: NewPaymentMethod, now: nat): (m: PaymentMethod)
    requires CreateRejection(req).None?
    ensures m.id == id && m.name == req.name.value && m.kind == req.kind.value
    ensures m.createdAt == now && m.updatedAt == now
  {
    PaymentMethod(id, userId, req.name.value, req.kind.value, OrNull(req.icon, ""), OrNull(req.description, ""),
                  Some(Or(req.isDefault, false, false)), now, now)
  }

  /** A created payment method carries the resolved user id, NULL when the uid does not
      resolve; a falsy icon or description is NULL and is_default is false unless set to true. */
  lemma NewRowShape(id: nat, userId: Option<nat>, req: NewPaymentMethod, now: nat)
    requires CreateRejection(req).None?
    ensures NewRow(id, userId, req, now).userId == userId
    ensures KnownType(NewRow(id, userId, req, now).kind)
    ensures Falsy(req.icon, "") <==> NewRow(id, userId, req, now).icon.None?
    ensures Falsy(req.description, "") <==> NewRow(id, userId, req, now).description.None?
    ensures req.isDefault == Given(true) ==> NewRow(id, userId, req, now).isDefault == Some(true)
    ensures req.isDefault != Given(true) ==> NewRow(id, userId, req, now).isDefault == Some(false)
  {
    OrFalse(req.isDefault);
  }

  method CreatePaymentMethod(db: Database, req: NewPaymentMethod, now: nat) returns (r: Response<PaymentMethod>)
    requires db.Valid()
    modifies db`paymentMethods, db`nextPaymentMethodId
    ensures db.Valid()
    ensures CreateRejection(req).Some? ==> r == CreateRejection(req).value && unchanged(db)
    ensures CreateRejection(req).None? ==>
      var m := NewRow(old(db.nextPaymentMethodId), Caller(db, req.firebaseUid), req, now);
      && db.paymentMethods == old(db.paymentMethods)[m.id := m]
      && db.nextPaymentMethodId == old(db.nextPaymentMethodId) + 1
      && r == Response(201, Single(Some(Created), m))
    ensures r.status == 201 ==>
      r.body.Single? && GetPaymentMethodById(db, r.body.item.id) == Response(200, Single(None, r.body.item))
  {
    if Falsy(req.name, "") || Falsy(req.kind, "") {
      return Fail(400, RequiredMessage);
    }
    if !KnownType(req.kind.value) {
      return Fail(400, TypeMessage);
    }
    var userId := Caller(db, req.firebaseUid);
    var m := PaymentMethod(db.nextPaymentMethodId, userId, req.name.value, req.kind.value, OrNull(req.icon, ""),
                           OrNull(req.description, ""), Some(Or(req.isDefault, false, false)), now, now);
    KeyedInsert(db.paymentMethods, db.nextPaymentMethodId, (m: PaymentMethod) => m.id, m);
    db.paymentMethods := db.paymentMethods[m.id := m];
    db.nextPaymentMethodId := db.nextPaymentMethodId + 1;
    r := Response(201, Single(Some(Created), db.paymentMethods[m.id]));
  }

  // ----- getPaymentMethods -----

  /** `WHERE user_id = ?`: with an unresolved caller the parameter is NULL, and `user_id = NULL`
      holds for no row, not even the rows whose user_id is NULL. */
  predicate Owned(m: PaymentMethod, userId: Option<nat>): (b: bool)
    ensures userId.None? ==> !b
    ensures m.userId.None? ==> !b
    ensures userId.Some? ==> (b <==> m.userId == userId)
  {
    userId.Some? && m.userId == userId
  }

  /** ORDER BY is_default DESC, name ASC */
  function Key(m: PaymentMethod): (r: seq<int>) {
    RankedKey(BoolRank(m.isDefault), m.name)
  }

  predicate DefaultsFirst(ms: seq<PaymentMethod>) {
    forall i, j | 0 <= i < j < |ms| ::
      || BoolRank(ms[i].isDefault) > BoolRank(ms[j].isDefault)
      || (BoolRank(ms[i].isDefault) == BoolRank(ms[j].isDefault) && TextLe(ms[i].name, ms[j].name))
  }

  lemma DefaultsFirstWhenSorted(ms: seq<PaymentMethod>)
    requires SortedBy(ms, Key)
    ensures DefaultsFirst(ms)
  {
    forall i, j | 0 <= i < j < |ms|
      ensures || BoolRank(ms[i].isDefault) > BoolRank(ms[j].isDefault)
              || (BoolRank(ms[i].isDefault) == BoolRank(ms[j].isDefault) && TextLe(ms[i].name, ms[j].name))
    {
      RankedKeyOrder(BoolRank(ms[i].isDefault), ms[i].name, BoolRank(ms[j].isDefault), ms[j].name);
    }
  }

  function GetPaymentMethods(db: Database, uid: Field<string>): (r: Response<PaymentMethod>)
    reads db
    requires db.Valid()
    ensures r.status == 200 && r.body.Listing?
    ensures r.body.count == |r.body.items|
    ensures DefaultsFirst(r.body.items) && Distinct(r.body.items)
    ensures forall m :: m in r.body.items ==> m in db.paymentMethods.Values && Owned(m, Caller(db, uid))
    ensures forall m :: m in db.paymentMethods.Values && Owned(m, Caller(db, uid)) ==> m in r.body.items
    ensures Caller(db, uid).None? ==> r.body.items == []
  {
    var userId := Caller(db, uid);
    var rows := Select(db.paymentMethods, db.nextPaymentMethodId, (m: PaymentMethod) => m.id, (m: PaymentMethod) => Owned(m, userId), Key);
    DefaultsFirstWhenSorted(rows);
    assert |rows| > 0 ==> rows[0] in rows;
    Response(200, Listing(|rows|, rows))
  }

  // ----- getPaymentMethodById -----

  function GetPaymentMethodById(db: Database, id: nat): (r: Response<PaymentMethod>)
    reads db
    ensures r.Success() <==> id in db.paymentMethods
    ensures !r.Success() ==> r == Fail(404, NotFound)
    ensures r.Success() ==> r == Response(200, Single(None, db.paymentMethods[id]))
  {
    if id in db.paymentMethods then Response(200, Single(None, db.paymentMethods[id]))
    else Fail(404, NotFound)
  }

  // ----- updatePaymentMethod -----

  datatype PaymentMethodPatch = PaymentMethodPatch(
    name: Field<string>,
    kind: Field<string>,
    icon: Field<string>,
    description: Field<string>,
    isDefault: Field<bool>)

  /** The SET list of updatePaymentMethod over the existing row: name and type are replaced
      only when truthy, icon, description and is_default whenever supplied. */
  function Merge(m: PaymentMethod, p: PaymentMethodPatch, now: nat): (r: PaymentMethod)
    ensures r.id == m.id && r.userId == m.userId && r.createdAt == m.createdAt && r.updatedAt == now
    ensures r.name == Or(p.name, "", m.name)
    ensures r.kind == Or(p.kind, "", m.kind)
    ensures r.icon == IfDefined(p.icon, m.icon)
    ensures r.description == IfDefined(p.description, m.description)
    ensures r.isDefault == IfDefined(p.isDefault, m.isDefault)
  {
    m.(name := Or(p.name, "", m.name),
       kind := Or(p.kind, "", m.kind),
       icon := IfDefined(p.icon, m.icon),
       description := IfDefined(p.description, m.description),
       isDefault := IfDefined(p.isDefault, m.isDefault),
       updatedAt := now)
  }

  /** The update does not check the type: any truthy text replaces it, so a payment method can
      end up with a type that create would have refused. */
  lemma UpdateSkipsTypeCheck(m: PaymentMethod, now: nat)
    ensures var r := Merge(m, PaymentMethodPatch(Undefined, Given("cheque"), Undefined, Undefined, Undefined), now);
      r.kind == "cheque" && !KnownType(r.kind)
  {
  }

  method UpdatePaymentMethod(db: Database, id: nat, p: PaymentMethodPatch, now: nat) returns (r: Response<PaymentMethod>)
    requires db.Valid()
    modifies db`paymentMethods
    ensures db.Valid()
    ensures id !in old(db.paymentMethods) ==> r == Fail(404, NotFound) && unchanged(db)
    ensures id in old(db.paymentMethods) ==>
      var m := Merge(old(db.paymentMethods[id]), p, now);
      db.paymentMethods == old(db.paymentMethods)[id := m] && r == Response(200, Single(Some(Updated), m))
  {
    if id !in db.paymentMethods {
      return Fail(404, NotFound);
    }
    db.paymentMethods := db.paymentMethods[id := Merge(db.paymentMethods[id], p, now)];
    r := Response(200, Single(Some(Updated), db.paymentMethods[id]));
  }

  // ----- deletePaymentMethod -----

  method DeletePaymentMethod(db: Database, id: nat) returns (r: Response<PaymentMethod>)
    requires db.Valid()
    modifies db`paymentMethods
    ensures db.Valid()
    ensures id !in old(db.paymentMethods) ==> r == Fail(404, NotFound) && unchanged(db)
    ensures id in old(db.paymentMethods) ==>
      db.paymentMethods == old(db.paymentMethods) - {id} && r == Response(200, Done(Deleted))
  {
    if id !in db.paymentMethods {
      return Fail(404, NotFound);
    }
    db.paymentMethods := db.paymentMethods - {id};
    r := Response(200, Done(Deleted));
  }
}
