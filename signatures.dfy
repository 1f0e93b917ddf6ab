/**
 * What reflection reports about one declared method of DevicePolicyManager, and the values
 * that flow through an intercepted call.
 */
module Signatures {

  /** Parameter and return kinds, as coarse as the engine needs them. */
  datatype Kind = VoidKind | BooleanKind | IntKind | ObjectKind

  /** A value in a result slot: Kotlin `null`, a boxed boolean, a boxed int, or some object. */
  datatype Value = Null | Bool(b: bool) | Int(i: int) | Ref(id: nat)

  /** One overload: its name, its parameter kinds in order and its return kind. */
  datatype Descriptor = Descriptor(name: string, params: seq<Kind>, ret: Kind)

  /**
   * Whether `v` can stand as the result of a method declared to return `k`. The hook framework
   * wants `null` for a void method; a primitive boolean result must be a boxed boolean, since a
   * `null` would fail when the caller unboxes it.
   */
  predicate Fits(v: Value, k: Kind) {
    match k
    case VoidKind => v.Null?
    case BooleanKind => v.Bool?
    case IntKind => v.Int?
    case ObjectKind => v.Null? || v.Ref?
  }
}
