/** What can befall one call to a database, or to another service outside the process. */
module Faults {

  /** The call works, reports an error and has no effect, or takes effect and then reports one. */
  datatype Fault = Works | FailsBefore | FailsAfter
}
