/** The Lambda entry point serving public and private data; private data is gated by
    `verifyToken`. */
module DataHandler {
  import opened Wrappers
  import opened Text
  import opened Http
  import opened Sessions

  const PublicData: string := "This is public data"
  const PrivateData: string := "This is private data"

  /** `headers.Authorization?.split(" ")[1]`: the second space-separated word of the
      header, whatever the first word is. */
  function PresentedToken(fields: map<string, string>): (r: Option<string>)
    ensures r.Some? <==> "Authorization" in fields && ' ' in fields["Authorization"]
    ensures r.Some? ==>
      var auth := fields["Authorization"];
      PieceAt(auth, Find(auth, ' ') + 1, r.value, ' ')
  {
    if "Authorization" in fields then
      var auth := fields["Authorization"];
      SplitCount(auth, ' ');
      assert ' ' in auth ==> PieceAt(auth, Find(auth, ' ') + 1, Split(auth, ' ')[1], ' ') by {
        if ' ' in auth {
          SecondPiece(auth, ' ');
        }
      }
      At(Split(auth, ' '), 1)
    else None
  }

  /** The token gate `!token || !verifyToken(token)`, negated: a token is present, not
      empty, and `verifyToken` accepts it. The contract spells the token out as the slice
      of the header between the first space and the next one. */
  predicate Admitted(cfg: Config, lib: Libraries, fields: map<string, string>)
    ensures Admitted(cfg, lib, fields) <==>
      && "Authorization" in fields
      && var auth := fields["Authorization"];
      && ' ' in auth
      && var rest := auth[Find(auth, ' ') + 1..];
      && var tok := rest[..Find(rest, ' ')];
      && tok != "" && VerifyToken(cfg, lib, tok)
  {
    match PresentedToken(fields)
    case Some(tok) =>
      var auth := fields["Authorization"];
      PieceLength(auth, Find(auth, ' ') + 1, tok, ' ');
      tok != "" && VerifyToken(cfg, lib, tok)
    case None => false
  }

  /** `handler`. OPTIONS is answered before anything else; reading `headers.Authorization`
      throws when the event has no header map, and that is the only way to reach 500. */
  function Handle(cfg: Config, lib: Libraries, req: Request): (r: Reply)
    ensures req.httpMethod == "OPTIONS" ==> r == Reply(200, Empty)
    ensures Is(req, "GET", "/data/public") ==> r == Reply(200, Data(PublicData))
    ensures r.status in {200, 401, 404, 500}
    ensures r.status == 404 <==>
      req.httpMethod != "OPTIONS" && !Is(req, "GET", "/data/public") && !Is(req, "GET", "/data/private")
    ensures r.status == 500 <==> Is(req, "GET", "/data/private") && !req.headers.Headers?
    ensures Is(req, "GET", "/data/private") && req.headers.Headers? ==>
      (r.status == 200 <==> Admitted(cfg, lib, req.headers.fields)) &&
      (r.status == 401 <==> !Admitted(cfg, lib, req.headers.fields))
    ensures r.payload == Data(PrivateData) ==>
      Is(req, "GET", "/data/private") && req.headers.Headers? && Admitted(cfg, lib, req.headers.fields)
  {
    if req.httpMethod == "OPTIONS" then Reply(200, Empty)
    else if Is(req, "GET", "/data/public") then Reply(200, Data(PublicData))
    else if Is(req, "GET", "/data/private") then
      match req.headers
      case Headers(fields) =>
        if Admitted(cfg, lib, fields) then Reply(200, Data(PrivateData))
        else Reply(401, Message("Unauthorized"))
      case _ => InternalError
    else NotFound
  }

  /** The first word of the header is not checked: any scheme followed by a space and the
      token presents that token. */
  lemma SchemeIsIgnored(scheme: string, tok: string)
    requires ' ' !in scheme && ' ' !in tok
    ensures PresentedToken(map["Authorization" := scheme + [' '] + tok]) == Some(tok)
  {
    var auth := scheme + [' '] + tok;
    SplitAtFirst(scheme, tok, ' ');
    SplitWithoutSeparator(tok, ' ');
    assert ' ' in auth by {
      assert auth[|scheme|] == ' ';
    }
  }

  /** While `JWT_SECRET` is unset or empty, a library that rejects every token without a
      secret keeps private data locked, even from tokens the service signed itself. */
  lemma UnsetSecretLocksPrivateData(cfg: Config, lib: Libraries, req: Request)
    requires !SecretConfigured(cfg)
    requires RejectsWithoutSecret(lib)
    ensures Handle(cfg, lib, req).payload != Data(PrivateData)
  {
  }

  /** The other side of that hypothesis: with a library that accepts some token against an
      unset or empty secret (as `jsonwebtoken` 8.5.1 and earlier do for an unsigned one),
      presenting that token as `Bearer <tok>` is served private data. */
  lemma UnsignedTokenOpensPrivateData(cfg: Config, lib: Libraries, tok: string)
    requires !SecretConfigured(cfg)
    requires tok != "" && ' ' !in tok && lib.verify(cfg.jwtSecret, tok)
    ensures Handle(cfg, lib, Request("GET", "/data/private", Headers(map["Authorization" := "Bearer " + tok]), NoBody))
      == Reply(200, Data(PrivateData))
  {
    assert "Bearer " + tok == "Bearer" + [' '] + tok;
    SchemeIsIgnored("Bearer", tok);
  }
}
