/** The optional value the Kotlin code expresses with a nullable type (`T?`). */
module Wrappers {

  datatype Option<+T> = None | Some(value: T)
}
