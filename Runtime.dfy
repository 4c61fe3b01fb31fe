/**
 * The few platform (CLR) notions the library's behaviour depends on: bytes,
 * arguments of static type `object`, and the exceptions the library lets escape.
 */
module Runtime {

  /** A `System.Byte`. */
  newtype byte = x: int | 0 <= x < 0x100

  /**
   * An argument of type `object` (a template value, a query value, a property
   * value returned by reflection), seen the only way the library looks at it:
   * either a null reference or the string its `ToString()` produces.
   * `ToString()` of dates, GUIDs and numbers is culture dependent and is not modelled;
   * `Text` simply carries its result.
   */
  datatype Value = Null | Text(text: string)

  /** Identity of a platform exception raised inside a transport or stream operation. */
  type Fault = nat

  /** The exceptions that escape the modelled operations. */
  datatype Exn =
    | NullReference            // a member access through a null reference
    | ArgumentNull             // System.ArgumentNullException
    | Argument                 // System.ArgumentException (blank string, duplicate dictionary key)
    | ObjectDisposed           // reading a stream that has already been closed
    | Aggregate(cause: Fault)  // AggregateException.Flatten() of a faulted task
}
