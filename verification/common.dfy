/** Small value types shared by every part of the model. */
module Common {

  datatype Option<+T> = None | Some(value: T)

  /** The outcome of visiting one parse-tree node while the AST is built.
      `Null` is the visitor's empty result, `Built` a produced node and
      `Fault` an abort of the whole build: a C++ exception that nothing
      catches, or undefined behaviour that the program does not guard. */
  datatype Visit<+T> = Null | Built(node: T) | Fault(why: FaultKind)

  datatype FaultKind =
    | SignedOverflow      // signed 64-bit arithmetic left its range (undefined behaviour)
    | DivisionByZero      // integer `/` or `%` by zero (undefined behaviour)
    | InvalidNumber       // std::stoll threw std::invalid_argument
    | NumberOutOfRange    // std::stoll threw std::out_of_range
    | NullDereference     // a null node pointer was dereferenced
    | FloatConversion     // std::stod threw while folding in double precision
}
