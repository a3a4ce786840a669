/** Failure-compatible result types shared by every handler of the model. */
module Wrappers {

  /** A value that may be absent: JavaScript's `undefined`/`null`, or a failed parse. */
  datatype Option<+T> = None | Some(value: T)

  /** An HTTP outcome: a success body with its status, or an error status with the `message` field. */
  datatype Response<+T> = Ok(status: nat, value: T) | Err(status: nat, message: string)

  /** JavaScript truthiness of an optional number: `undefined`, `null` and `0` are falsy. */
  predicate TruthyNat(x: Option<nat>) {
    x.Some? && x.value != 0
  }

  predicate TruthyInt(x: Option<int>) {
    x.Some? && x.value != 0
  }

  /** `x || d` for an optional number. */
  function IntOr(x: Option<int>, d: int): (r: int)
    ensures TruthyInt(x) ==> r == x.value
    ensures !TruthyInt(x) ==> r == d
  {
    if TruthyInt(x) then x.value else d
  }

  /** A destructuring default `{ x = d }`: only an absent value takes it, so `0` stays `0`. */
  function OrDefault<T>(x: Option<T>, d: T): (r: T)
    ensures x.Some? ==> r == x.value
    ensures x.None? ==> r == d
  {
    match x
    case None => d
    case Some(v) => v
  }

  /** `x || null` for a string: the empty string and `undefined` both become `null`. */
  function NonEmptyOrNull(x: Option<string>): (r: Option<string>)
    ensures r.Some? <==> x.Some? && x.value != ""
    ensures r.Some? ==> r.value == x.value
  {
    if x.Some? && x.value != "" then x else None
  }

  /** `x || d` for a string parameter: absent and empty both give `d`. */
  function StrOr(x: Option<string>, d: string): (r: string)
    ensures x.Some? && x.value != "" ==> r == x.value
    ensures x.None? || x.value == "" ==> r == d
  {
    if x.Some? && x.value != "" then x.value else d
  }
}
