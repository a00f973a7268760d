/** What several modules share. */
module Basics {

  datatype Option<+T> = None | Some(value: T)

  /** Nanoseconds since 1970. */
  type Instant = nat
}
