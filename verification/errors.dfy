/** The parts of a bson_error_t the helpers fill in: an error domain and an
    error code. Message texts are not modelled. */
module Errors {

  /** Error domains: MONGOC_ERROR_COMMAND, which the validators report, and
      any other domain a caller may pass through. */
  datatype ErrorDomain = CommandDomain | OtherDomain(id: nat)

  /** Error codes: MONGOC_ERROR_COMMAND_INVALID_ARG, which the validators
      report, and any other code a caller may pass through. */
  datatype ErrorCode = CommandInvalidArg | OtherCode(id: nat)

  datatype Error = Error(domain: ErrorDomain, code: ErrorCode)
}
