/** Value types shared by the modules of this model. */
module Common {

  /** A value, or Java's `null`. */
  datatype Option<T> = None | Some(value: T)

  /** The Java exceptions that the modelled code can raise. */
  datatype Exception =
    | IndexOutOfBounds(index: int)       // java.lang.IndexOutOfBoundsException, raised by ArrayList
    | ArrayIndexOutOfBounds(index: int)  // reading an int[] outside its bounds
    | IllegalArgument                    // ArrayList(int) given a negative capacity
    | AssertionFailed                    // junit.framework.Assert.assertTrue given false
    | NullPointer                        // a method called on a null reference

  /** What a Java method that returns a value does: return it, or throw. */
  datatype Result<T> = Ok(value: T) | Thrown(exception: Exception)

  /** What a Java `void` method does: complete, or throw. */
  datatype Outcome = Done | Failed(exception: Exception)
}
