/** The `token_required` and `role_required` decorators as decisions over the
    request headers and a token decoder. The wrapped view is represented by
    the reply it would give; a decorator either passes that reply through or
    answers instead of it. */
module AuthDecorator {
  import opened Base
  import opened Tokens

  /** The header name `token_required` reads, spelled as in the code. Nothing
      else in the backend or in the browser uses this spelling. */
  const HeaderName := "Authrization"

  /** What `token_required` decides before the view runs: the claims it
      stores on the request, or the 401 it answers with. */
  datatype Gate = Pass(userId: nat, role: string) | Reject(response: Response)

  function TokenRequired(headers: map<string, string>, decode: string -> Decoded): (r: Gate)
    ensures (HeaderName !in headers || headers[HeaderName] == "") <==>
              r == Reject(Response(401, "Token is missing"))
    ensures r.Reject? ==> r.response.code == 401
    ensures HeaderName in headers && headers[HeaderName] != "" && ' ' !in headers[HeaderName] ==>
              r == Reject(Response(401, "Token validation failed"))
    ensures r.Pass? <==>
              && HeaderName in headers && SecondField(headers[HeaderName]).Some?
              && var d := decode(SecondField(headers[HeaderName]).value);
                 d.Valid? && d.userId.Some? && d.role.Some?
    ensures r.Pass? ==> var d := decode(SecondField(headers[HeaderName]).value);
              r == Pass(d.userId.value, d.role.value)
    ensures (HeaderName in headers && SecondField(headers[HeaderName]).Some?) ==>
              var d := decode(SecondField(headers[HeaderName]).value);
              && (d.Expired? ==> r == Reject(Response(401, "Token has expired")))
              && (d.Invalid? ==> r == Reject(Response(401, "Invalid token")))
              && (d.Valid? && (d.userId.None? || d.role.None?) ==> r == Reject(Response(401, "Token validation failed")))
  {
    if HeaderName !in headers || headers[HeaderName] == "" then Reject(Response(401, "Token is missing"))
    else
      match SecondField(headers[HeaderName])
      case None => Reject(Response(401, "Token validation failed"))
      case Some(token) =>
        match decode(token)
        case Expired => Reject(Response(401, "Token has expired"))
        case Invalid => Reject(Response(401, "Invalid token"))
        case Valid(userId, role, _) =>
          if userId.None? || role.None? then Reject(Response(401, "Token validation failed"))
          else Pass(userId.value, role.value)
  }

  /** A view wrapped in `token_required`: its own reply when the token passes. */
  function TokenGuarded(headers: map<string, string>, decode: string -> Decoded, view: Response): (r: Response)
    ensures TokenRequired(headers, decode).Reject? ==> r == TokenRequired(headers, decode).response
    ensures TokenRequired(headers, decode).Pass? ==> r == view
  {
    match TokenRequired(headers, decode)
    case Reject(response) => response
    case Pass(_, _) => view
  }

  /** A view wrapped in `role_required(required)`: the token checks first,
      then the role claim must equal `required` exactly. */
  function RoleRequired(required: string, headers: map<string, string>, decode: string -> Decoded,
                        view: Response): (r: Response)
    ensures TokenRequired(headers, decode).Reject? ==> r == TokenRequired(headers, decode).response
    ensures TokenRequired(headers, decode).Pass? && TokenRequired(headers, decode).role != required ==>
              r == Response(403, "Insufficient permissions")
    ensures (TokenRequired(headers, decode).Pass? && TokenRequired(headers, decode).role == required) ==> r == view
  {
    match TokenRequired(headers, decode)
    case Reject(response) => response
    case Pass(_, role) => if role != required then Response(403, "Insufficient permissions") else view
  }

  /** When the gate refuses, the reply does not depend on the view: the
      wrapped function is never called. */
  lemma RefusalIgnoresView(required: string, headers: map<string, string>, decode: string -> Decoded,
                           v1: Response, v2: Response)
    requires !(TokenRequired(headers, decode).Pass? && TokenRequired(headers, decode).role == required)
    ensures RoleRequired(required, headers, decode, v1) == RoleRequired(required, headers, decode, v2)
    ensures RoleRequired(required, headers, decode, v1).code in {401, 403}
  {
  }

  /** A client that sends the standard `Authorization` header and nothing
      else is refused as if it had sent no token at all, whatever the token. */
  lemma StandardHeaderIsIgnored(token: string, decode: string -> Decoded, required: string, view: Response)
    ensures var headers := map["Authorization" := "Bearer " + token];
            RoleRequired(required, headers, decode, view) == Response(401, "Token is missing")
  {
    var headers := map["Authorization" := "Bearer " + token];
    assert HeaderName !in headers;
  }

  /** A token sent as `Bearer <token>` under the header name the decorator
      reads, whose payload carries the required role, reaches the view. */
  lemma BearerWithRoleReachesView(token: string, decode: string -> Decoded, userId: nat, required: string,
                                  others: bool, view: Response)
    requires ' ' !in token
    requires decode(token) == Valid(Some(userId), Some(required), others)
    ensures var headers := map[HeaderName := "Bearer " + token];
            && TokenRequired(headers, decode) == Pass(userId, required)
            && RoleRequired(required, headers, decode, view) == view
  {
    BearerToken(token);
  }
}
