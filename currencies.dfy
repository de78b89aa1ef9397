/** currencyController.js: the currency catalogue. Codes are stored and looked up upper-cased,
    and a currency created as the default takes that flag away from every other one. */
module Currencies {
  import opened Fields
  import opened Ordering
  import opened Tables
  import opened Schema
  import opened Http
  import opened Store

  const RequiredMessage: string := "code and name are required"
  const NotFound: string := "Currency not found"
  const Created: string := "Currency created successfully"

  // ----- upper-casing -----

  /** `toUpperCase` on one character, for the ASCII letters. */
  function UpperChar(c: char): (r: char)
    ensures 'a' <= c <= 'z' ==> r as int == c as int - 32
    ensures !('a' <= c <= 'z') ==> r == c
    ensures !('a' <= r <= 'z')
  {
    if 'a' <= c <= 'z' then (c as int - 32) as char else c
  }

  function Upper(s: string): (r: string)
    ensures |r| == |s|
    ensures forall i :: 0 <= i < |s| ==> r[i] == UpperChar(s[i])
  {
    seq(|s|, i requires 0 <= i < |s| => UpperChar(s[i]))
  }

  /** Upper-casing twice is upper-casing once. */
  lemma UpperIdempotent(s: string)
    ensures Upper(Upper(s)) == Upper(s)
  {
    assert forall i :: 0 <= i < |s| ==> UpperChar(UpperChar(s[i])) == UpperChar(s[i]);
  }

  // ----- getCurrencies -----

  function Rank(c: Currency): int {
    if c.isDefault then 1 else 0
  }

  /** ORDER BY is_default DESC, code ASC */
  function Key(c: Currency): (r: seq<int>) {
    RankedKey(Rank(c), c.code)
  }

  /** The default currency (or currencies) first, then by code. */
  predicate DefaultFirst(cs: seq<Currency>) {
    forall i, j | 0 <= i < j < |cs| ::
      (cs[j].isDefault ==> cs[i].isDefault) && (cs[i].isDefault == cs[j].isDefault ==> TextLe(cs[i].code, cs[j].code))
  }

  lemma DefaultFirstWhenSorted(cs: seq<Currency>)
    requires SortedBy(cs, Key)
    ensures DefaultFirst(cs)
  {
    forall i, j | 0 <= i < j < |cs|
      ensures (cs[j].isDefault ==> cs[i].isDefault) && (cs[i].isDefault == cs[j].isDefault ==> TextLe(cs[i].code, cs[j].code))
    {
      RankedKeyOrder(Rank(cs[i]), cs[i].code, Rank(cs[j]), cs[j].code);
    }
  }

  function GetCurrencies(db: Database): (r: Response<Currency>)
    reads db
    requires db.Valid()
    ensures r.status == 200 && r.body.Listing?
    ensures r.body.count == |r.body.items|
    ensures DefaultFirst(r.body.items) && Distinct(r.body.items)
    ensures forall c :: c in r.body.items <==> c in db.currencies.Values
  {
    var rows := Select(db.currencies, db.nextCurrencyId, (c: Currency) => c.id, (c: Currency) => true, Key);
    DefaultFirstWhenSorted(rows);
    Response(200, Listing(|rows|, rows))
  }

  // ----- getCurrencyByCode -----

  /** `WHERE code = ?` with the upper-cased parameter; codes are not declared unique, so the
      first match in primary-key order is the one returned. */
  function GetCurrencyByCode(db: Database, code: string): (r: Response<Currency>)
    reads db
    requires db.Valid()
    ensures r.Success() <==> exists k :: k in db.currencies && db.currencies[k].code == Upper(code)
    ensures !r.Success() ==> r == Fail(404, NotFound)
    ensures r.Success() ==>
      r.status == 200 && r.body.Single? && r.body.item in db.currencies.Values && r.body.item.code == Upper(code)
  {
    var upper := Upper(code);
    var rows := RowsBelow(db.currencies, db.nextCurrencyId);
    match FirstWhere(rows, (c: Currency) => c.code == upper)
    case None => Fail(404, NotFound)
    case Some(c) => Response(200, Single(None, c))
  }

  /** The lookup ignores the case of ASCII letters: asking for the code or its upper-cased form
      gives the same reply. */
  lemma LookupIgnoresCase(db: Database, code: string)
    requires db.Valid()
    ensures GetCurrencyByCode(db, code) == GetCurrencyByCode(db, Upper(code))
  {
    UpperIdempotent(code);
  }

  // ----- createCurrency -----

  datatype NewCurrency = NewCurrency(code: Field<string>, name: Field<string>, symbol: Field<string>, isDefault: Field<bool>)

  /** At most one currency is the default. */
  predicate SingleDefault(m: map<nat, Currency>) {
    forall a, b :: a in m && b in m && m[a].isDefault && m[b].isDefault ==> a == b
  }

  /** `UPDATE currencies SET is_default = FALSE WHERE is_default = TRUE` */
  function ClearDefaults(m: map<nat, Currency>): (r: map<nat, Currency>)
    ensures r.Keys == m.Keys
    ensures forall k :: k in m ==> r[k] == m[k].(isDefault := false)
  {
    map k | k in m :: m[k].(isDefault := false)
  }

  /** The row createCurrency inserts: the code upper-cased, a falsy symbol NULL, and the
      default flag only for a request that sets it to true. */
  function NewRow(id: nat, req: NewCurrency): (c: Currency)
    requires !Falsy(req.code, "") && !Falsy(req.name, "")
    ensures c.id == id && c.code == Upper(req.code.value) && c.name == req.name.value
    ensures c.symbol == OrNull(req.symbol, "")
    ensures c.isDefault <==> req.isDefault == Given(true)
  {
    OrFalse(req.isDefault);
    Currency(id, Upper(req.code.value), req.name.value, OrNull(req.symbol, ""), Or(req.isDefault, false, false))
  }

  /** The currencies table after a create that passed the check. */
  function Inserted(m: map<nat, Currency>, c: Currency): (r: map<nat, Currency>)
    ensures r.Keys == m.Keys + {c.id} && r[c.id] == c
    ensures forall k :: k in m && k != c.id ==> r[k] == (if c.isDefault then m[k].(isDefault := false) else m[k])
  {
    (if c.isDefault then ClearDefaults(m) else m)[c.id := c]
  }

  /** A currency created as the default is afterwards the only default. */
  lemma CreatedDefaultIsOnlyDefault(m: map<nat, Currency>, c: Currency)
    requires c.isDefault
    ensures forall k :: k in Inserted(m, c) ==> (Inserted(m, c)[k].isDefault <==> k == c.id)
  {
  }

  /** A currency created as not the default leaves every existing row as it was. */
  lemma CreatedPlainKeepsDefaults(m: map<nat, Currency>, c: Currency)
    requires !c.isDefault && c.id !in m
    ensures forall k :: k in m ==> k in Inserted(m, c) && Inserted(m, c)[k] == m[k]
    ensures Inserted(m, c)[c.id] == c
  {
  }

  /** Either way a create keeps the single-default rule. */
  lemma CreateKeepsSingleDefault(m: map<nat, Currency>, c: Currency)
    requires SingleDefault(m)
    ensures SingleDefault(Inserted(m, c))
  {
    if c.isDefault {
      CreatedDefaultIsOnlyDefault(m, c);
    }
  }

  method CreateCurrency(db: Database, req: NewCurrency) returns (r: Response<Currency>)
    requires db.Valid()
    modifies db`currencies, db`nextCurrencyId
    ensures db.Valid()
    ensures Falsy(req.code, "") || Falsy(req.name, "") ==> r == Fail(400, RequiredMessage) && unchanged(db)
    ensures !Falsy(req.code, "") && !Falsy(req.name, "") ==>
      var c := NewRow(old(db.nextCurrencyId), req);
      && db.currencies == Inserted(old(db.currencies), c)
      && db.nextCurrencyId == old(db.nextCurrencyId) + 1
      && r == Response(201, Single(Some(Created), c))
    ensures r.status == 201 ==> r.body.Single? && GetCurrencyByCode(db, r.body.item.code).Success()
  {
    if Falsy(req.code, "") || Falsy(req.name, "") {
      return Fail(400, RequiredMessage);
    }
    if !Falsy(req.isDefault, false) {
      db.currencies := ClearDefaults(db.currencies);
    }
    var c := Currency(db.nextCurrencyId, Upper(req.code.value), req.name.value, OrNull(req.symbol, ""),
                      Or(req.isDefault, false, false));
    KeyedInsert(db.currencies, db.nextCurrencyId, (c: Currency) => c.id, c);
    db.currencies := db.currencies[c.id := c];
    db.nextCurrencyId := db.nextCurrencyId + 1;
    r := Response(201, Single(Some(Created), db.currencies[c.id]));
    UpperIdempotent(req.code.value);
  }
}
