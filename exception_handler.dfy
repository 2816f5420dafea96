/** The REST exception handler: every failure a request can end in becomes an
    HTTP status and a JSON body. */
module ExceptionHandler {
  import opened Wrappers
  import opened Text
  import opened Errors

  const BadRequest := 400
  const Unauthorized := 401
  const Forbidden := 403
  const NotFound := 404
  const Conflict := 409
  const InternalServerError := 500

  const DuplicateKeyPhrase := "duplicate key value violates unique constraint"
  const NullColumnPhrase := "null value in column"
  const UniqueViolationText := "Violação de unicidade: Um recurso com o valor fornecido já existe."
  const NullColumnText := "Erro de preenchimento: Um campo obrigatório está nulo."
  const IntegrityText := "Erro de integridade de dados."
  const ArgumentValidationText := "Falha de validação em argumentos."
  const ForbiddenText := "Você não tem permissão para realizar esta ação."
  const BadCredentialsText := "Credenciais inválidas. Verifique seu email e senha."
  const UnexpectedText := "Ocorreu um erro inesperado. Tente novamente mais tarde."

  /** One entry of the 400 body of a field-validation failure. */
  datatype FieldMessage = FieldMessage(field: string, message: string)

  /** The JSON body: the list of field errors, or the standard error record
      (its timestamp and request path are not modelled). */
  datatype Body =
    | FieldMessages(entries: seq<FieldMessage>)
    | StandardError(status: int, error: string, message: string)

  datatype Response = Response(status: int, body: Body)

  /** The kinds the not-found handlers catch. */
  predicate IsNotFound(f: Failure) {
    f.ResourceNotFound? || f.ExistingResourceNotFound? || f.NoSuchElement? || f.EntityNotFound? || f.ConstraintViolation?
  }

  predicate IsConflict(f: Failure) {
    f.DuplicateResource? || f.EmailAlreadyInUse? || f.DataIntegrityViolation?
  }

  /** IllegalArgumentException (NumberFormatException among its subclasses) and
      the two validation exceptions. */
  predicate IsBadRequest(f: Failure) {
    f.MethodArgumentNotValid? || f.HandlerMethodValidation? || f.IllegalArgument? || f.NumberFormat?
  }

  predicate IsForbidden(f: Failure) {
    f.AccessDenied? || f.AccessDeniedByBusiness?
  }

  /** The message of a data-integrity conflict, chosen from the database's
      message: a unique-key violation first, then a null column, otherwise (a
      missing message included) the generic text. */
  function IntegrityMessage(detail: Option<string>): (m: string)
    ensures m == UniqueViolationText <==> detail.Some? && Contains(detail.value, DuplicateKeyPhrase)
    ensures m == NullColumnText <==>
              detail.Some? && !Contains(detail.value, DuplicateKeyPhrase) && Contains(detail.value, NullColumnPhrase)
    ensures m == IntegrityText <==>
              detail.None? || (!Contains(detail.value, DuplicateKeyPhrase) && !Contains(detail.value, NullColumnPhrase))
  {
    if detail.Some? && Contains(detail.value, DuplicateKeyPhrase) then UniqueViolationText
    else if detail.Some? && Contains(detail.value, NullColumnPhrase) then NullColumnText
    else IntegrityText
  }

  function StandardResponse(status: int, error: string, message: string): Response {
    Response(status, StandardError(status, error, message))
  }

  /** The handler Spring picks for each failure, and the response it builds. */
  function Handle(f: Failure): (r: Response)
    ensures r.status in {BadRequest, Unauthorized, Forbidden, NotFound, Conflict, InternalServerError}
    ensures r.body.StandardError? ==> r.body.status == r.status
    ensures r.status == BadRequest <==> IsBadRequest(f)
    ensures r.status == Unauthorized <==> f.Authentication?
    ensures r.status == Forbidden <==> IsForbidden(f)
    ensures r.status == NotFound <==> IsNotFound(f)
    ensures r.status == Conflict <==> IsConflict(f)
    ensures r.status == InternalServerError <==> f.NonUniqueResult? || f.Unexpected?
    ensures r.body.FieldMessages? <==> f.MethodArgumentNotValid?
    ensures f.MethodArgumentNotValid? ==>
              |r.body.entries| == |f.fieldErrors| &&
              forall i | 0 <= i < |f.fieldErrors| ::
                r.body.entries[i] == FieldMessage(f.fieldErrors[i].field, f.fieldErrors[i].defaultMessage)
    ensures IsNotFound(f) ==> r.body.message == f.message
    ensures f.DuplicateResource? || f.EmailAlreadyInUse? || f.IllegalArgument? || f.NumberFormat? ==>
              r.body.message == f.message
    ensures f.DataIntegrityViolation? ==> r.body.message == IntegrityMessage(f.detail)
    ensures f.HandlerMethodValidation? ==> r.body.message == ArgumentValidationText
    ensures f.Authentication? ==> r.body.message == BadCredentialsText
    ensures f.NonUniqueResult? || f.Unexpected? ==> r.body.message == UnexpectedText
  {
    match f
    case MethodArgumentNotValid(errors) =>
      Response(BadRequest, FieldMessages(seq(|errors|, i requires 0 <= i < |errors| =>
        FieldMessage(errors[i].field, errors[i].defaultMessage))))
    case ExistingResourceNotFound(m) => StandardResponse(NotFound, "Recurso não encontrado", m)
    case HandlerMethodValidation(_) => StandardResponse(BadRequest, "Requisição inválida", ArgumentValidationText)
    case EmailAlreadyInUse(m) => StandardResponse(Conflict, "Conflito de Recurso", m)
    case DuplicateResource(m) => StandardResponse(Conflict, "Conflito de Recurso", m)
    case DataIntegrityViolation(detail) => StandardResponse(Conflict, "Conflito de dados", IntegrityMessage(detail))
    case IllegalArgument(m) => StandardResponse(BadRequest, "Requisição inválida", m)
    case NumberFormat(m) => StandardResponse(BadRequest, "Requisição inválida", m)
    case AccessDenied(_) => StandardResponse(Forbidden, "Acesso negado", ForbiddenText)
    case AccessDeniedByBusiness(_) => StandardResponse(Forbidden, "Acesso negado", ForbiddenText)
    case Authentication(_) => StandardResponse(Unauthorized, "Falha na autenticação", BadCredentialsText)
    case EntityNotFound(m) => StandardResponse(NotFound, "Recurso não encontrado", m)
    case NoSuchElement(m) => StandardResponse(NotFound, "Recurso não encontrado", m)
    case ConstraintViolation(m) => StandardResponse(NotFound, "Recurso não encontrado", m)
    case ResourceNotFound(m) => StandardResponse(NotFound, "Recurso não encontrado", m)
    case NonUniqueResult => StandardResponse(InternalServerError, "Erro interno do servidor", UnexpectedText)
    case Unexpected(_) => StandardResponse(InternalServerError, "Erro interno do servidor", UnexpectedText)
  }

  /** A 403 says nothing about why access was refused: both exception kinds, with
      any message, give the same response. */
  lemma ForbiddenHidesReason(a: string, b: string)
    ensures Handle(AccessDenied(a)) == Handle(AccessDeniedByBusiness(b))
    ensures Handle(AccessDenied(a)).body.message == ForbiddenText
  {
  }

  /** Neither does a 401 from failed credentials, nor a 500. */
  lemma FixedMessagesHideDetail(f: Failure, g: Failure)
    requires f.Authentication? == g.Authentication? && f.Unexpected? == g.Unexpected?
    requires (f.Authentication? || f.Unexpected?) && (g.Authentication? || g.Unexpected?)
    ensures Handle(f) == Handle(g)
  {
  }

  /** A database message that reports both a unique-key violation and a null
      column is reported as the unique-key violation. */
  lemma UniqueViolationWins(detail: string)
    requires Contains(detail, DuplicateKeyPhrase) && Contains(detail, NullColumnPhrase)
    ensures Handle(DataIntegrityViolation(Some(detail))).body.message == UniqueViolationText
  {
  }
}
