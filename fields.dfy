/** Request values as the handlers receive them, and the two JavaScript idioms they use to
    merge a request value with a stored one. */
module Fields {

  datatype Option<+T> = None | Some(value: T)

  /** One key of a JSON request body: absent (JavaScript `undefined`), an explicit `null`,
      or a value. */
  datatype Field<+T> = Undefined | Null | Given(value: T)

  /** JavaScript truthiness of a field. Each primitive type the handlers read has exactly one
      falsy value `zero`: "" for strings, 0 for numbers, false for booleans. */
  predicate Falsy<T(==)>(f: Field<T>, zero: T) {
    !f.Given? || f.value == zero
  }

  /** `f || fallback`: a falsy request value keeps the fallback. */
  function Or<T(==)>(f: Field<T>, zero: T, fallback: T): (r: T) {
    if Falsy(f, zero) then fallback else f.value
  }

  /** `f || null`: a falsy request value is stored as SQL NULL. */
  function OrNull<T(==)>(f: Field<T>, zero: T): (r: Option<T>) {
    if Falsy(f, zero) then None else Some(f.value)
  }

  /** `f !== undefined ? f : current`: only omission keeps the current value, and an explicit
      null clears it. */
  function IfDefined<T>(f: Field<T>, current: Option<T>): (r: Option<T>) {
    match f
    case Undefined => current
    case Null => None
    case Given(v) => Some(v)
  }

  /** The two merges agree on omission and on a truthy value, and differ on an explicit null
      (which `||` ignores and `!== undefined` stores) and on the zero value (which `||`
      ignores and `!== undefined` stores as is). */
  lemma MergesCompared<T>(f: Field<T>, zero: T, current: T)
    ensures f.Undefined? ==> Or(f, zero, current) == current && IfDefined(f, Some(current)) == Some(current)
    ensures !Falsy(f, zero) ==> Or(f, zero, current) == f.value && IfDefined(f, Some(current)) == Some(f.value)
    ensures f.Null? ==> Or(f, zero, current) == current && IfDefined(f, Some(current)) == None
    ensures f == Given(zero) ==> Or(f, zero, current) == current && IfDefined(f, Some(current)) == Some(zero)
  {
  }

  /** `f || false` on a boolean field is true exactly when the field is the value true. */
  lemma OrFalse(f: Field<bool>)
    ensures Or(f, false, false) == (f == Given(true))
  {
    if f.Given? {
      assert f.value || f == Given(false);
    }
  }
}
