/** The per-request authentication filter: it reads a bearer token from the
    Authorization header, resolves its subject to a user and either lets the
    request through (anonymous or authenticated) or answers 401 itself. */
module SecurityFilter {
  import opened Wrappers
  import opened Text
  import opened Records
  import opened BearerToken
  import opened Repositories

  const ExpiredText := "Token JWT expirado."
  const InvalidTokenText := "Token JWT inválido ou malformado."
  const UnknownUserText := "Usuário associado ao token não foi encontrado."

  /** What verifying a token gives: its subject, or one of the two ways
      verification fails. */
  datatype Verification = Subject(email: string) | Expired | Invalid

  /** The token service never lets TokenExpiredException out: every
      verification failure is rethrown as a plain RuntimeException. */
  function TokenServiceSubject(verify: string -> Verification): (g: string -> Verification)
    ensures forall t :: g(t) != Expired
    ensures forall t :: verify(t).Subject? ==> g(t) == verify(t)
  {
    t => if verify(t).Subject? then verify(t) else Invalid
  }

  /** The filter's decision. The first two let the request continue down the
      chain; the last answers 401 without invoking it, as a JSON body or
      through `sendError`. */
  datatype Decision =
    | Anonymous
    | Authenticated(principal: Principal)
    | Rejected(message: string, json: bool)

  predicate ContinuesChain(d: Decision) {
    !d.Rejected?
  }

  function Filter(header: Option<string>, verify: string -> Verification, users: map<int, UserRow>): (d: Decision)
    ensures d.Anonymous? <==> RecoverToken(header).None?
    ensures d.Authenticated? ==>
              var t := RecoverToken(header).value;
              verify(t).Subject? && d.principal.id in users &&
              users[d.principal.id].email == verify(t).email &&
              UsersWithEmail(users, verify(t).email) == {d.principal.id} &&
              d.principal.authorities == users[d.principal.id].roles
    ensures (RecoverToken(header).Some? && verify(RecoverToken(header).value).Subject? &&
             |UsersWithEmail(users, verify(RecoverToken(header).value).email)| == 1) ==> d.Authenticated?
    ensures d.Rejected? && d.json <==> RecoverToken(header).Some? && verify(RecoverToken(header).value) == Expired
    ensures d.Rejected? && d.message == UnknownUserText <==>
              RecoverToken(header).Some? && verify(RecoverToken(header).value).Subject? &&
              UsersWithEmail(users, verify(RecoverToken(header).value).email) == {}
    ensures d == Rejected(InvalidTokenText, false) <==>
              RecoverToken(header).Some? &&
              (verify(RecoverToken(header).value) == Invalid ||
               (verify(RecoverToken(header).value).Subject? &&
                |UsersWithEmail(users, verify(RecoverToken(header).value).email)| > 1))
  {
    match RecoverToken(header)
    case None => Anonymous
    case Some(token) =>
      match verify(token)
      case Expired => Rejected(ExpiredText, true)
      case Invalid => Rejected(InvalidTokenText, false)
      case Subject(email) =>
        match Single(UsersWithEmail(users, email))
        case Absent => Rejected(UnknownUserText, false)
        // IncorrectResultSizeDataAccessException is a RuntimeException too
        case NonUnique => Rejected(InvalidTokenText, false)
        case Present(id) => Authenticated(Principal(id, users[id].roles))
  }

  /** With the token service in front of it, the filter never answers
      "Token JWT expirado.": an expired token is reported as invalid. */
  lemma ExpiredBranchUnreachable(header: Option<string>, verify: string -> Verification, users: map<int, UserRow>)
    ensures var d := Filter(header, TokenServiceSubject(verify), users);
            !(d.Rejected? && d.json) && (d.Rejected? ==> d.message != ExpiredText)
  {
  }

  /** A request whose bearer token names a registered user runs as that user. */
  lemma RegisteredUserAuthenticated(token: string, verify: string -> Verification,
                                    users: map<int, UserRow>, id: int)
    requires token == [] || (token[0] > ' ' && token[|token| - 1] > ' ')
    requires !Contains(token, BearerPrefix)
    requires id in users && verify(token) == Subject(users[id].email)
    requires forall other | other in users && other != id :: users[other].email != users[id].email
    ensures Filter(Some(BearerPrefix + token), verify, users) == Authenticated(Principal(id, users[id].roles))
  {
    BearerRoundTrip(token);
    assert UsersWithEmail(users, users[id].email) == {id};
  }
}
