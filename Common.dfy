/** Values shared by every part of the model: the exceptions the library
    raises, a result type that carries them, and the library's Optional. */
module Common {

  /** The exceptions raised by the modelled code, one constructor per kind. */
  datatype Error =
    | PipelineNotClosed      // ChainedCondition.apply on an open condition
    | PipelineAlreadyClosed  // a builder call on a closed condition
    | AttributeError         // ChainedCondition.otherwise with no 'if' branch
    | VarArgPresent          // constructor spec that has *args
    | IndexError             // list index out of range
    | ValueError             // range() with a step of zero
    | AssertionError         // failed `assert` in date_generator

  /** Either a value or the exception the operation raised. */
  datatype Result<T> = Ok(value: T) | Err(error: Error)

  /** The library's value-or-absence container; `Empty` is its EMPTY singleton. */
  datatype Optional<T> = Empty | Of(value: T)
}
