/** The values a cell holds, as far as its skip policy can tell them apart.

    Go's `reflect.ValueOf(x).Kind()` only matters here through one question — is `x` a
    pointer? — and `reflect.DeepEqual` on non-pointer values is structural equality.
    A value is therefore either plain data, compared structurally, or a pointer,
    identified by the address it holds. What a pointer points to is not modelled: the
    skip policy never looks at it.
 */
module Values {

  datatype Value<D> = Plain(data: D) | Pointer(addr: nat)

  /** `eqIgnorePtr(a, b)`: the skip policy of the cell in writable.go. Only the kind of
      `a` is inspected: a pointer is never equal to anything, not even to itself, because
      the data it points to may have been changed in place; any other value is compared
      structurally. */
  function EqIgnorePtr<D(==)>(a: Value<D>, b: Value<D>): (equal: bool)
    ensures equal ==> a == b
    ensures a.Pointer? ==> !equal
    ensures a.Plain? && a == b ==> equal
  {
    if a.Pointer? then false
    else a == b
  }
}
