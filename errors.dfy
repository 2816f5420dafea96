/** The exception kinds the services, validators and repositories raise, as
    values; `Result` is a call that either returns or throws. */
module Errors {
  import opened Wrappers

  /** One Bean Validation failure on a request field. */
  datatype FieldError = FieldError(field: string, defaultMessage: string)

  datatype Failure =
    | MethodArgumentNotValid(fieldErrors: seq<FieldError>)
    | HandlerMethodValidation(message: string)
    | ExistingResourceNotFound(message: string)
    | ResourceNotFound(message: string)
    | NoSuchElement(message: string)
    | EntityNotFound(message: string)
    | ConstraintViolation(message: string)
    | DuplicateResource(message: string)
    | EmailAlreadyInUse(message: string)
    | DataIntegrityViolation(detail: Option<string>)
    | IllegalArgument(message: string)
    | NumberFormat(message: string)          // a subclass of IllegalArgumentException
    | AccessDenied(message: string)          // Spring Security's AccessDeniedException
    | AccessDeniedByBusiness(message: string)
    | Authentication(message: string)
    | NonUniqueResult                        // IncorrectResultSizeDataAccessException
    | Unexpected(message: string)            // any other exception

  datatype Result<+T> = Ok(value: T) | Err(error: Failure)

  /** A call that returns nothing or throws. */
  datatype Outcome = Pass | Fail(error: Failure)
}
