/** End-to-end properties of the JWT service across the auth and data handlers. */
module JwtFlows {
  import opened Wrappers
  import opened Text
  import opened Http
  import opened Sessions
  import AuthHandler
  import DataHandler

  function Post(path: string, body: Body): Request {
    Request("POST", path, NoHeaders, Json(body))
  }

  /** `GET /data/private` with `Authorization: Bearer <tok>`. */
  function PrivateWith(tok: string): Request {
    Request("GET", "/data/private", Headers(map["Authorization" := "Bearer " + tok]), NoBody)
  }

  /** Register, a login with a wrong password, a login with the right one, then private
      data with and without the access token. The wrong password is answered with 500, the
      code's catch-all, not 401. */
  lemma {:induction false} RegisterLoginFetch(
    cfg: Config, lib: Libraries, s: Store, name: string, password: string, wrong: string, t1: string, t2: string)
    requires name !in s
    requires SecretConfigured(cfg)
    requires lib.compare(password, lib.hash(password)) && !lib.compare(wrong, lib.hash(password))
    requires var access := lib.sign(cfg.jwtSecret.value, name);
      access != "" && ' ' !in access && lib.verify(cfg.jwtSecret, access)
    ensures var reg := AuthHandler.Handle(cfg, lib, s, Post("/auth/register", Body(Some(name), Some(password), None)), t1);
      var bad := AuthHandler.Handle(cfg, lib, reg.after, Post("/auth/login", Body(Some(name), Some(wrong), None)), t2);
      var good := AuthHandler.Handle(cfg, lib, reg.after, Post("/auth/login", Body(Some(name), Some(password), None)), t2);
      && reg.reply.status == 201
      && bad == Answer(InternalError, reg.after)
      && good.reply.status == 200
      && good.reply.payload.TokenPair?
      && DataHandler.Handle(cfg, lib, PrivateWith(good.reply.payload.accessToken)).status == 200
      && DataHandler.Handle(cfg, lib, Request("GET", "/data/private", Headers(map[]), NoBody)).status == 401
  {
    var access := lib.sign(cfg.jwtSecret.value, name);
    DataHandler.SchemeIsIgnored("Bearer", access);
    assert "Bearer " + access == "Bearer" + [' '] + access;
  }

  /** A second login revokes the refresh token of the first: refreshing with it fails. */
  lemma {:induction false} SecondLoginRevokesFirst(
    cfg: Config, lib: Libraries, s: Store, name: string, password: string, t1: string, t2: string)
    requires UniqueRefreshTokens(s)
    requires !InUse(s, t1) && !InUse(s, t2) && t1 != t2
    requires Login(cfg, lib, s, name, password, t1).result.Success?
    ensures var s1 := Login(cfg, lib, s, name, password, t1).store;
      var s2 := Login(cfg, lib, s1, name, password, t2).store;
      AuthHandler.Handle(cfg, lib, s2, Post("/auth/refresh", Body(None, None, Some(t1))), t2)
        == Answer(InternalError, s2)
  {
    var s1 := Login(cfg, lib, s, name, password, t1).store;
    LoginKeepsTokensUnique(cfg, lib, s, name, password, t1);
    forall other | other in s1 ensures !Holds(s1, other, t2) {
      if other != name {
        assert s1[other] == s[other];
      }
    }
    LoginRotatesRefreshToken(cfg, lib, s1, name, password, t2, t1);
  }

  /** Logging out through the handler ends the session, and a second logout with the same
      header is a successful no-op. */
  lemma {:induction false} LogoutThroughHandler(cfg: Config, lib: Libraries, s: Store, tok: string, unused: string)
    requires UniqueRefreshTokens(s)
    requires ' ' !in tok
    ensures var req := Request("POST", "/auth/logout", Headers(map["Authorization" := "Bearer " + tok]), NoBody);
      var once := AuthHandler.Handle(cfg, lib, s, req, unused);
      var twice := AuthHandler.Handle(cfg, lib, once.after, req, unused);
      && once.reply.status == 200
      && twice == once
      && AuthHandler.Handle(cfg, lib, once.after, Post("/auth/refresh", Body(None, None, Some(tok))), unused)
           == Answer(InternalError, once.after)
  {
    var auth := "Bearer " + tok;
    assert auth == "Bearer" + [' '] + tok;
    SplitAtFirst("Bearer", tok, ' ');
    SplitWithoutSeparator(tok, ' ');
    assert AuthHandler.BearerToken(auth) == tok;
    LogoutIdempotent(s, tok);
    LogoutEndsSession(cfg, lib, s, tok);
  }
}
