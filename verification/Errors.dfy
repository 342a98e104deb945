/** Error codes: src/propagation.cpp, include/opentracing/propagation.h and the standard categories. */
module Errors {
  /**
    A `std::error_code`. Categories are compared by name, which is what
    `are_errors_equal` does, and by address, which agrees with it within one program.
   */
  datatype ErrorCode = ErrorCode(category: string, value: int)

  /** A default-constructed code, which means success. */
  const NO_ERROR := ErrorCode("system", 0)

  const IO_ERROR := ErrorCode("generic", 5)

  const INVALID_SPAN_CONTEXT := ErrorCode("OpenTracingPropagationError", 1)
  const SPAN_CONTEXT_CORRUPTED := ErrorCode("OpenTracingPropagationError", 3)
  const KEY_NOT_FOUND := ErrorCode("OpenTracingPropagationError", 4)
  const LOOKUP_NOT_SUPPORTED := ErrorCode("OpenTracingPropagationError", 5)
}
