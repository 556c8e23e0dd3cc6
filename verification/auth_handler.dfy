/** The Lambda entry point of the JWT service: routes the `/auth` requests to the session
    operations and turns their results and errors into status codes. */
module AuthHandler {
  import opened Wrappers
  import opened Text
  import opened Http
  import opened Sessions

  const BearerPrefix: string := "Bearer "

  /** The request names one of the four routes; every other (path, method) pair falls
      through the `switch` to 404. */
  predicate Routed(req: Request) {
    || Is(req, "POST", "/auth/register")
    || Is(req, "POST", "/auth/login")
    || Is(req, "POST", "/auth/logout")
    || Is(req, "POST", "/auth/refresh")
  }

  /** `authHeader.split(' ')[1]` for a header that starts with `Bearer `: the text after
      the prefix up to the next space. */
  function BearerToken(auth: string): (tok: string)
    requires StartsWith(auth, BearerPrefix)
    ensures PieceAt(auth, |BearerPrefix|, tok, ' ')
  {
    var rest := auth[|BearerPrefix|..];
    assert auth == "Bearer" + [' '] + rest;
    SplitAtFirst("Bearer", rest, ' ');
    FirstPiece(rest, ' ');
    assert rest[0..] == rest;
    Split(auth, ' ')[1]
  }

  /** POST /auth/register. A body without both fields makes `register` throw. */
  function RegisterRoute(cfg: Config, lib: Libraries, s: Store, body: RawBody, newToken: string): (a: Answer<Store>)
    ensures a.reply.status == 201 || a == Answer(InternalError, s)
    ensures a.reply.status == 201 <==>
      body.Json? && body.fields.username.Some? && body.fields.password.Some? && body.fields.username.value !in s
    ensures a.reply.status == 201 ==>
      var name := body.fields.username.value;
      && a.reply.payload == TokenPair(lib.sign(SigningSecret(cfg), name), newToken)
      && a.after == Register(cfg, lib, s, name, body.fields.password.value, newToken).store
      && a.after[name].refreshToken == Some(newToken)
  {
    match body
    case Json(Body(Some(name), Some(password), _)) =>
      var step := Register(cfg, lib, s, name, password, newToken);
      (match step.result
       case Success(t) => Answer(Reply(201, TokenPair(t.accessToken, t.refreshToken)), step.store)
       case Failure(_) => Answer(InternalError, s))
    case _ => Answer(InternalError, s)
  }

  /** POST /auth/login. A failed login throws "Invalid credentials", which the catch-all
      turns into 500, the same as a body without both fields. */
  function LoginRoute(cfg: Config, lib: Libraries, s: Store, body: RawBody, newToken: string): (a: Answer<Store>)
    ensures a.reply.status == 200 || a == Answer(InternalError, s)
    ensures a.reply.status == 200 <==>
      && body.Json? && body.fields.username.Some? && body.fields.password.Some?
      && Login(cfg, lib, s, body.fields.username.value, body.fields.password.value, newToken).result.Success?
    ensures a.reply.status == 200 ==>
      var name := body.fields.username.value;
      && a.reply.payload == TokenPair(lib.sign(SigningSecret(cfg), name), newToken)
      && a.after == Login(cfg, lib, s, name, body.fields.password.value, newToken).store
  {
    match body
    case Json(Body(Some(name), Some(password), _)) =>
      var step := Login(cfg, lib, s, name, password, newToken);
      (match step.result
       case Success(t) => Answer(Reply(200, TokenPair(t.accessToken, t.refreshToken)), step.store)
       case Failure(_) => Answer(InternalError, s))
    case _ => Answer(InternalError, s)
  }

  /** POST /auth/logout. The refresh token travels as `Authorization: Bearer <token>`;
      without a header map, reading `headers.Authorization` throws. */
  function LogoutRoute(s: Store, headers: HeaderBag): (a: Answer<Store>)
    ensures !headers.Headers? ==> a == Answer(InternalError, s)
    ensures headers.Headers? ==> (a.reply.status == 400 <==> !HasBearer(headers))
    ensures headers.Headers? && HasBearer(headers) ==> a.reply.status == 200
    ensures a.reply.status == 400 ==> a.after == s
    ensures a.reply.status == 200 ==>
      HasBearer(headers) && a.after == Logout(s, BearerToken(Authorization(headers).value))
    ensures a.reply.status in {200, 400, 500}
  {
    match headers
    case Headers(_) =>
      if HasBearer(headers) then
        Answer(Reply(200, Message("Logged out successfully")), Logout(s, BearerToken(Authorization(headers).value)))
      else
        Answer(Reply(400, Message("Bad Request - Bearer token is required")), s)
    case _ => Answer(InternalError, s)
  }

  /** The `Authorization` header is present and starts with `Bearer `. */
  predicate HasBearer(headers: HeaderBag) {
    Authorization(headers).Some? && StartsWith(Authorization(headers).value, BearerPrefix)
  }

  /** POST /auth/refresh. An unknown token throws "Invalid refresh token", which becomes 500. */
  function RefreshRoute(cfg: Config, lib: Libraries, s: Store, body: RawBody): (a: Answer<Store>)
    ensures a.after == s
    ensures a.reply.status == 200 || a.reply == InternalError
    ensures a.reply.status == 200 <==> body.Json? && body.fields.refreshToken.Some? && InUse(s, body.fields.refreshToken.value)
    ensures a.reply.status == 200 ==>
      exists name :: Holds(s, name, body.fields.refreshToken.value) && a.reply.payload == AccessToken(lib.sign(SigningSecret(cfg), name))
  {
    match body
    case Json(Body(_, _, Some(tok))) =>
      (match RefreshAccessToken(cfg, lib, s, tok)
       case Success(access) => Answer(Reply(200, AccessToken(access)), s)
       case Failure(_) => Answer(InternalError, s))
    case _ => Answer(InternalError, s)
  }

  /** `handler`: OPTIONS pre-flight first, then the route table, then 404. */
  function Handle(cfg: Config, lib: Libraries, s: Store, req: Request, newToken: string): (a: Answer<Store>)
    ensures req.httpMethod == "OPTIONS" ==> a == Answer(Reply(200, Empty), s)
    ensures a.reply.status == 404 <==> req.httpMethod != "OPTIONS" && !Routed(req)
    ensures a.reply.status == 404 ==> a == Answer(NotFound, s)
    ensures a.reply.status in {200, 201, 400, 404, 500}
    ensures a.after != s ==> a.reply.status == 200 || a.reply.status == 201
    ensures a.reply.status == 201 ==> Is(req, "POST", "/auth/register")
    ensures a.reply.status == 400 <==> Is(req, "POST", "/auth/logout") && req.headers.Headers? && !HasBearer(req.headers)
  {
    if req.httpMethod == "OPTIONS" then Answer(Reply(200, Empty), s)
    else if Is(req, "POST", "/auth/register") then RegisterRoute(cfg, lib, s, req.body, newToken)
    else if Is(req, "POST", "/auth/login") then LoginRoute(cfg, lib, s, req.body, newToken)
    else if Is(req, "POST", "/auth/logout") then LogoutRoute(s, req.headers)
    else if Is(req, "POST", "/auth/refresh") then RefreshRoute(cfg, lib, s, req.body)
    else Answer(NotFound, s)
  }

  /** Every error the session operations throw surfaces as 500 and leaves the table as it
      was: a taken username, bad credentials, an unknown refresh token. */
  lemma ThrownErrorsAreInternal(cfg: Config, lib: Libraries, s: Store, req: Request, newToken: string)
    requires req.body.Json?
    requires
      || (Is(req, "POST", "/auth/register") && req.body.fields.username.Some? && req.body.fields.password.Some?
          && Register(cfg, lib, s, req.body.fields.username.value, req.body.fields.password.value, newToken).result.Failure?)
      || (Is(req, "POST", "/auth/login") && req.body.fields.username.Some? && req.body.fields.password.Some?
          && Login(cfg, lib, s, req.body.fields.username.value, req.body.fields.password.value, newToken).result.Failure?)
      || (Is(req, "POST", "/auth/refresh") && req.body.fields.refreshToken.Some?
          && RefreshAccessToken(cfg, lib, s, req.body.fields.refreshToken.value).Failure?)
    ensures Handle(cfg, lib, s, req, newToken) == Answer(InternalError, s)
  {
  }
}
