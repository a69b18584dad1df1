/** JavaScript's two kinds of "no value", as the model needs them.

- `Option<T>` is a nullable stored value: `None` is `null`.
- `Maybe<T>` is an optional input field: absent (`undefined`), an explicit
  `null`, or a value.
- `Result<T, E>` carries either a value or the error a thrown exception
  would have carried.
 */
module Wrappers {

  /** A nullable value; `None` stands for `null`. */
  datatype Option<+T> = None | Some(value: T) {

    /** The value, or `default` when `null`. */
    function GetOr(default: T): T {
      match this
      case Some(v) => v
      case None => default
    }
  }

  /** An optional field of a validated payload. */
  datatype Maybe<+T> = Undefined | Null | Defined(value: T)

  /** A computation that either produced a value or failed with an error. */
  datatype Result<+T, +E> = Ok(value: T) | Err(error: E)

  /** `m ?? null`: both nullish forms collapse to `null`, a value is kept
      as it is, and nothing else is ever substituted. */
  function OrNull<T>(m: Maybe<T>): (r: Option<T>)
    ensures r.Some? <==> m.Defined?
    ensures r.Some? ==> r.value == m.value
  {
    match m
    case Defined(v) => Some(v)
    case _ => None
  }

  /** What a database column declared with `.default(d)` stores: the
      default when the field is left out, `null` when `null` is given
      explicitly, and the given value otherwise. */
  function ColumnDefault<T>(m: Maybe<T>, d: T): (r: Option<T>)
    ensures m.Undefined? ==> r == Some(d)
    ensures m.Null? <==> r.None?
    ensures m.Defined? ==> r == Some(m.value)
  {
    match m
    case Undefined => Some(d)
    case Null => None
    case Defined(v) => Some(v)
  }

  /** The `?? null` fill and a column default disagree exactly on an
      omitted field: there `?? null` stores `null` where the column would
      have stored its default. */
  lemma {:induction false} NullFillIgnoresDefault<T>(m: Maybe<T>, d: T)
    ensures OrNull(m) != ColumnDefault(m, d) <==> m.Undefined?
  {
  }
}
