/** The fragment of JavaScript value semantics the fixture normaliser relies on:
    a property that may be `undefined`, `null` or hold a value, the `??` and
    `?.` operators, string truthiness, and the TypeError thrown when a
    property is read off `undefined` or `null`. */
module Js {

  /** A JSON-ish property: absent (`undefined`), `null`, or present. */
  datatype Field<+T> = Missing | Null | Present(value: T)
  {
    /** `undefined` or `null`: the values `??` and `?.` treat alike. */
    predicate IsNullish() {
      !Present?
    }
  }

  /** `f ?? null`: a nullish property becomes `null`, anything else is kept. */
  function OrNull<T>(f: Field<T>): Field<T> {
    if f.Present? then f else Null
  }

  /** `f ?? fallback` for a property whose fallback is an ordinary value. */
  function OrElse<T>(f: Field<T>, fallback: T): T {
    if f.Present? then f.value else fallback
  }

  /** `o?.p`: `undefined` when `o` is nullish, otherwise the property `p` of `o`. */
  function Chain<T, U>(o: Field<T>, p: T -> Field<U>): Field<U> {
    if o.Present? then p(o.value) else Missing
  }

  /** Truthiness of a string-valued property: `undefined`, `null` and `""`
      are falsy, every other string is truthy. */
  predicate Truthy(f: Field<string>) {
    f.Present? && f.value != ""
  }

  /** The exception raised by `o.p` when `o` is `undefined` or `null`;
      `property` is the name that was being read. */
  datatype TypeError = CannotRead(property: string)

  /** The outcome of an expression that may throw. */
  datatype Result<+T> = Ok(value: T) | Thrown(error: TypeError)
}
