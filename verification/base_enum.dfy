/** The common interface of the repository's value-carrying enums. */
module BaseEnum {
  import opened Wrappers

  /**
   `equalsValue(value)` on a constant whose `getValue()` is `own`: a `null`
   argument never matches; any other matches exactly the constant's own value.
   */
  function EqualsValue(own: int, value: Option<int>): (r: bool)
    ensures value.None? ==> !r
    ensures value.Some? ==> (r <==> value.value == own)
  {
    match value
      case None => false
      case Some(v) => own == v
  }
}
