/** What both revisions of the scheduler see of a supplier's first run. */
module SupplierOutcome {

  /** How the first run of a supplier ended. A `null` result throws when it is unboxed, so it is `Threw`. */
  datatype Outcome = ReturnedTrue | ReturnedFalse | Threw
}
