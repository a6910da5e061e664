/** The few JavaScript notions the components rely on: values and their
    truthiness, `||`, the stored user key, and the outcome of a `fetch`. */
module Js {

  datatype Option<+T> = None | Some(value: T)

  /** A JSON/JavaScript value as far as the components inspect one: contact
      ids, names, e-mails, phone numbers and owner ids are compared with `===`
      and tested for truthiness, nothing more. Numbers are integers here. */
  datatype Value = Undefined | Null | Str(s: string) | Num(n: int)

  /** JavaScript truthiness: `undefined`, `null`, `''` and `0` are falsy. */
  predicate Truthy(v: Value)
  {
    match v
    case Str(s) => s != ""
    case Num(n) => n != 0
    case _ => false
  }

  /** The expression `a || b`. */
  function Or(a: Value, b: Value): Value
  {
    if Truthy(a) then a else b
  }

  /** `localStorage.getItem('userKey')` is `null` or a string; the guard
      `if (!userKey)` also rejects the empty string. */
  predicate KeyPresent(userKey: Option<string>)
  {
    userKey.Some? && userKey.value != ""
  }

  /** What an awaited `fetch` (and the `response.json()` after it) came to:
      a response with `ok` set and its parsed body, a response without `ok`,
      or an exception from the transport or from parsing. */
  datatype Reply<+T> = Ok(body: T) | NotOk | Threw

  /** The `value` member of a parsed list response: an array or anything else. */
  datatype Payload<+T> = NotArray | Array(items: seq<T>)
}
