/** The optional value used for Kotlin's nullable types (`Long?`, `LocalDateTime?`, `Todo?`). */
module Wrappers {

  datatype Option<+T> = None | Some(value: T)
}
