module Wrappers {
  datatype Option<T> = None | Some(value: T)
}

/** The two values of the lock word in mutex.c and spinlock.c. */
module LockWord {
  const STATUS_LOCK := 0
  const STATUS_UNLOCK := 1
}
