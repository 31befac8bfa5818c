/**
  The admin gate: `/admin/login` signs a fixed admin identity, and the
  `authenticateAdmin` middleware checks the `x-auth-token` header. Signing and
  verification are cryptographic calls outside the model, so they are passed in
  as functions: `verify` yields the decoded claims, or None where the real call
  throws (bad signature, expired token, malformed input).
*/
module AdminAuth {
  import opened Wrappers

  datatype Admin = Admin(id: int, username: string)

  /** The decoded payload of a token; `admin` is absent when the payload has no such field. */
  datatype Claims = Claims(admin: Option<Admin>)

  /** The middleware's decision: go on with the decoded admin attached, or answer with an error. */
  datatype AuthResult = Granted(admin: Option<Admin>) | Denied(status: int, message: string)

  const MissingTokenMessage: string := "No token, authorization denied"
  const InvalidTokenMessage: string := "Token is not valid"

  /** The identity `/admin/login` signs, without checking any credential. */
  const LoginAdmin: Admin := Admin(1, "admin")

  /** The header is absent or empty; both are falsy, so both count as "no token". */
  predicate TokenMissing(header: Option<string>)
  {
    header.None? || header.value == ""
  }

  /** `authenticateAdmin`: 401 without a token, 400 when verification fails,
      and otherwise the request proceeds carrying the token's admin. */
  function AuthenticateAdmin(header: Option<string>, verify: string -> Option<Claims>): (r: AuthResult)
    ensures r == Denied(401, MissingTokenMessage) <==> TokenMissing(header)
    ensures r == Denied(400, InvalidTokenMessage) <==> !TokenMissing(header) && verify(header.value).None?
    ensures r.Granted? <==> !TokenMissing(header) && verify(header.value).Some?
    ensures r.Granted? ==> r.admin == verify(header.value).value.admin
  {
    if TokenMissing(header) then Denied(401, MissingTokenMessage)
    else match verify(header.value)
      case None => Denied(400, InvalidTokenMessage)
      case Some(claims) => Granted(claims.admin)
  }

  /** `/admin/login`: the token `sign` issues for the fixed admin identity. */
  function Login(sign: Claims -> string): (token: string)
    ensures token == sign(Claims(Some(Admin(1, "admin"))))
  {
    sign(Claims(Some(LoginAdmin)))
  }

  /** When verification accepts exactly what signing produced, and a signed
      token is never empty, a token fresh from login passes the gate as the
      fixed admin. */
  lemma LoginTokenPassesGate(sign: Claims -> string, verify: string -> Option<Claims>)
    requires forall c :: verify(sign(c)) == Some(c)
    requires forall c :: sign(c) != ""
    ensures AuthenticateAdmin(Some(Login(sign)), verify) == Granted(Some(LoginAdmin))
  {
  }
}
