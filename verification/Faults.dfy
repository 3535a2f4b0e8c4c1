module Faults {
  /** A storage call fails before its update, after it, or not at all. */
  datatype Fault = NoFault | FaultBefore | FaultAfter
}
