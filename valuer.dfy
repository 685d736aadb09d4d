/**
 * ValidateValuer, the custom type function the guide registers for
 * sql.NullString: it turns a field that implements driver.Valuer into the
 * value its Value() method yields, so that the validator's rules see that
 * value instead of the wrapper.
 */
module Valuer {
  import opened Wrappers

  /**
   * What ValidateValuer is handed: a field whose dynamic type does not
   * implement driver.Valuer, or one that does, together with the pair
   * (val, err) its Value() method returns. `val == None` is a nil
   * driver.Value; `err == None` is a nil error.
   */
  datatype Field<V, E> = NotValuer | Valuer(val: Option<V>, err: Option<E>)

  /**
   * The coerced value, or None for Go's nil `interface{}`: a value comes out
   * exactly when the field is a valuer whose Value() succeeded with a non-nil
   * value, and it is that value.
   */
  function ValidateValuer<V, E>(field: Field<V, E>): (r: Option<V>)
    ensures r.Some? <==> field.Valuer? && field.err.None? && field.val.Some?
    ensures r.Some? ==> r == field.val
  {
    match field
    case Valuer(val, None) => val
    case _ => None
  }

  /**
   * On success the valuer's result is passed through unchanged (a nil value
   * stays nil); a field that is not a valuer, or whose Value() fails, gives
   * nil whatever value came with the error.
   */
  lemma ValidateValuerCases<V, E>(val: Option<V>, other: Option<V>, e: E)
    ensures ValidateValuer<V, E>(Valuer(val, None)) == val
    ensures ValidateValuer(Valuer(val, Some(e))) == ValidateValuer(Valuer(other, Some(e))) == None
    ensures ValidateValuer<V, E>(NotValuer) == None
  {
  }
}
