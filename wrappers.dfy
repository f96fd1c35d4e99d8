/** Values that stand for Java's null references and for the one exception
    the adapter can run into. */
module Wrappers {

  /** A Java reference that may be null: None is null. */
  datatype Option<+T> = None | Some(value: T)

  /** The result of a java.util.List call that may throw
      IndexOutOfBoundsException. */
  datatype Outcome<+T> = Returned(value: T) | IndexOutOfBounds
}
