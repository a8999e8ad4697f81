/**
 * `empty_base`, a class with no members, and the trait `is_empty_base<T>`:
 * false by the primary template, true by the one specialisation for
 * `empty_base`.
 */
module EmptyBase {
  import opened Protocol

  /** A small universe of types. */
  datatype Ty = EmptyBase | Int | Char | Double | Pointer(pointee: Ty) | Struct(name: string)

  /** `is_empty_base<T>::value` */
  function IsEmptyBase(t: Ty): (r: bool)
    ensures r <==> t == EmptyBase
  {
    match t
    case EmptyBase => true  // the specialisation, deriving from `true_`
    case _ => false         // the primary template, deriving from `false_`
  }

  /**
   * The `is_empty<empty_base>` specialisation. `None` means the general
   * `is_empty` answers, whose compiler-based detection is not part of this model.
   */
  function IsEmptySpecialisation(t: Ty): (r: Option<bool>)
    ensures r.Some? <==> t == EmptyBase
    ensures r.Some? ==> r.value
  {
    if t == EmptyBase then Some(true) else None
  }

  /** No two distinct types satisfy the trait. */
  lemma IsEmptyBaseIsEquality(t: Ty, u: Ty)
    ensures IsEmptyBase(t) && IsEmptyBase(u) ==> t == u
  {
  }
}
