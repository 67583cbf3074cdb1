/**
 * JavaScript string-valued fields as they arrive in records and props: a string, or
 * `undefined` (the property is absent), or `null`; and optional string props,
 * `undefined` or a string. Truthiness and the `a || b` fallback are the
 * language's own.
 */
module Js {
  import opened Wrappers

  datatype Field = Undefined | Null | Str(s: string)

  /** A field is truthy when it holds a non-empty string. */
  predicate Truthy(f: Field) {
    f.Str? && f.s != ""
  }

  /** `f || fallback` where the fallback is a string. */
  function Or(f: Field, fallback: string): (r: string)
    ensures Truthy(f) ==> r == f.s
    ensures !Truthy(f) ==> r == fallback
  {
    if Truthy(f) then f.s else fallback
  }

  /** Template-literal interpolation `${f}`. */
  function Interpolate(f: Field): string {
    match f
    case Undefined => "undefined"
    case Null => "null"
    case Str(s) => s
  }

  /** Truthiness of an optional string prop (`undefined` or a string). */
  predicate Present(o: Option<string>) {
    o.Some? && o.value != ""
  }

  /** `o || fallback` for an optional string prop. */
  function OrElse(o: Option<string>, fallback: string): (r: string)
    ensures Present(o) ==> r == o.value
    ensures !Present(o) ==> r == fallback
  {
    if Present(o) then o.value else fallback
  }
}
