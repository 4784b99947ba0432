/** The nullable results of the Kotlin source (`T?`) as an Option datatype. */
module Wrappers {

  datatype Option<+T> = None | Some(value: T)
}
