/** The session state machine of the JWT service: `register`, `login`, `logout`,
    `refreshAccessToken` and `verifyToken` acting on the users table. */
module Sessions {
  import opened Wrappers
  import LexOrder

  /** A row of the users table, keyed by username: the bcrypt digest of the password and,
      while a session is open, the refresh token issued for it. */
  datatype User = User(passwordHash: string, refreshToken: Option<string>)

  type Store = map<string, User>

  /** The foreign libraries the service calls, as opaque functions:
      `hash` is `bcrypt.hash(password, 10)`, `compare` is `bcrypt.compare(password, digest)`,
      `sign(secret, username)` is `jwt.sign({ username }, secret, { expiresIn: "15m" })` and
      `verify(secret, token)` holds when `jwt.verify(token, secret)` returns a truthy payload
      instead of throwing, with `secret` the raw `JWT_SECRET` (`None` for unset). */
  datatype Libraries = Libraries(
    hash: string -> string,
    compare: (string, string) -> bool,
    sign: (string, string) -> string,
    verify: (Option<string>, string) -> bool)

  /** The `JWT_SECRET` environment variable, which may be unset. */
  datatype Config = Config(jwtSecret: Option<string>)

  const DefaultJwtSecret: string := "your-secret-key"

  /** A truthy secret: set and not empty. */
  predicate Usable(secret: Option<string>) {
    secret.Some? && secret.value != ""
  }

  /** `JWT_SECRET` is set and not empty. */
  predicate SecretConfigured(cfg: Config) {
    Usable(cfg.jwtSecret)
  }

  /** What every version of `jsonwebtoken` does: a signed token checked against a falsy
      secret throws. */
  ghost predicate SignedTokensNeedSecret(lib: Libraries) {
    forall secret, key, name | !Usable(secret) :: !lib.verify(secret, lib.sign(key, name))
  }

  /** What `jsonwebtoken` 9 does: against a falsy secret every token throws. Versions up to
      8.5.1 fall back to `alg: none` there and accept an unsigned token. */
  ghost predicate RejectsWithoutSecret(lib: Libraries) {
    forall secret, tok | !Usable(secret) :: !lib.verify(secret, tok)
  }

  /** The secret tokens are signed with: `process.env.JWT_SECRET || "your-secret-key"`,
      so an unset or empty variable falls back to the built-in default. */
  function SigningSecret(cfg: Config): (k: string)
    ensures k != ""
    ensures SecretConfigured(cfg) ==> k == cfg.jwtSecret.value
    ensures !SecretConfigured(cfg) ==> k == DefaultJwtSecret
  {
    if SecretConfigured(cfg) then cfg.jwtSecret.value else DefaultJwtSecret
  }

  /** The errors the operations throw. `UsernameTaken` is the conditional put's
      `attribute_not_exists(username)` failing. */
  datatype Fault = UsernameTaken | InvalidCredentials | InvalidRefreshToken

  datatype Tokens = Tokens(accessToken: string, refreshToken: string)

  /** What an operation returns or throws, and the table after it. */
  datatype Step<T> = Step(result: Result<T, Fault>, store: Store)

  /** User `name` currently holds refresh token `tok`. */
  predicate Holds(s: Store, name: string, tok: string) {
    name in s && s[name].refreshToken == Some(tok)
  }

  /** Some user currently holds refresh token `tok`. */
  predicate InUse(s: Store, tok: string) {
    exists name :: name in s && Holds(s, name, tok)
  }

  /** The invariant the `RefreshTokenIndex` is meant to give: no two users share a refresh
      token. */
  predicate UniqueRefreshTokens(s: Store) {
    forall a, b :: a in s && b in s && a != b && s[a].refreshToken.Some? ==> s[a].refreshToken != s[b].refreshToken
  }

  /** The `RefreshTokenIndex` query followed by `Items[0]`: some user holding `tok`, or none.
      The index does not order several matches, so the least username is taken. */
  function FindByRefreshToken(s: Store, tok: string): (r: Option<string>)
    ensures r.None? <==> !InUse(s, tok)
    ensures r.Some? ==> Holds(s, r.value, tok)
  {
    var holders := set name | name in s && s[name].refreshToken == Some(tok);
    if holders == {} then
      assert forall name :: name in s && Holds(s, name, tok) ==> name in holders;
      None
    else
      var first := LexOrder.Least(holders);
      Some(first)
  }

  /** `register`: a conditional put of `{username, hash(password), refreshToken: newToken}`
      that fails when the username is taken, then an access token for the new user. */
  function Register(cfg: Config, lib: Libraries, s: Store, username: string, password: string, newToken: string): (r: Step<Tokens>)
    ensures r.result.Failure? <==> username in s
    ensures r.result.Failure? ==> r == Step(Failure(UsernameTaken), s)
    ensures r.result.Success? ==>
      && r.store.Keys == s.Keys + {username}
      && r.store[username] == User(lib.hash(password), Some(newToken))
      && (forall name :: name in s ==> r.store[name] == s[name])
      && r.result.value.accessToken == lib.sign(SigningSecret(cfg), username)
      && r.store[username].refreshToken == Some(r.result.value.refreshToken)
  {
    if username in s then Step(Failure(UsernameTaken), s)
    else
      var user := User(lib.hash(password), Some(newToken));
      Step(Success(Tokens(lib.sign(SigningSecret(cfg), username), newToken)), s[username := user])
  }

  /** `login`: an unknown username and a wrong password throw the same error; otherwise
      the user's refresh token is overwritten with a fresh one. */
  function Login(cfg: Config, lib: Libraries, s: Store, username: string, password: string, newToken: string): (r: Step<Tokens>)
    ensures r.result.Failure? <==> username !in s || !lib.compare(password, s[username].passwordHash)
    ensures r.result.Failure? ==> r == Step(Failure(InvalidCredentials), s)
    ensures r.result.Success? ==>
      && r.store.Keys == s.Keys
      && r.store[username].passwordHash == s[username].passwordHash
      && r.store[username].refreshToken == Some(newToken)
      && (forall name :: name in s && name != username ==> r.store[name] == s[name])
      && r.result.value == Tokens(lib.sign(SigningSecret(cfg), username), newToken)
  {
    if username !in s || !lib.compare(password, s[username].passwordHash) then
      Step(Failure(InvalidCredentials), s)
    else
      var user := s[username].(refreshToken := Some(newToken));
      Step(Success(Tokens(lib.sign(SigningSecret(cfg), username), newToken)), s[username := user])
  }

  /** `logout`: removes the refresh token of the user the index finds for `tok`; a token
      nobody holds is not an error and changes nothing. */
  function Logout(s: Store, tok: string): (r: Store)
    ensures r.Keys == s.Keys
    ensures forall name :: name in s ==> r[name].passwordHash == s[name].passwordHash
    ensures forall name :: name in s && !Holds(s, name, tok) ==> r[name] == s[name]
    ensures InUse(s, tok) ==> exists name :: Holds(s, name, tok) && r[name].refreshToken.None?
    ensures InUse(s, tok) ==> exists name :: Holds(s, name, tok) && r == s[name := s[name].(refreshToken := None)]
    ensures !InUse(s, tok) ==> r == s
  {
    match FindByRefreshToken(s, tok)
    case None => s
    case Some(name) => s[name := s[name].(refreshToken := None)]
  }

  /** `refreshAccessToken`: a new access token for the user holding `tok`; the table is
      only read. */
  function RefreshAccessToken(cfg: Config, lib: Libraries, s: Store, tok: string): (r: Result<string, Fault>)
    ensures r.Failure? <==> !InUse(s, tok)
    ensures r.Failure? ==> r.error == InvalidRefreshToken
    ensures r.Success? ==> exists name :: Holds(s, name, tok) && r.value == lib.sign(SigningSecret(cfg), name)
  {
    match FindByRefreshToken(s, tok)
    case None => Failure(InvalidRefreshToken)
    case Some(name) => Success(lib.sign(SigningSecret(cfg), name))
  }

  /** `verifyToken`: total, every throw is `false`. It hands `jwt.verify` the raw
      `JWT_SECRET`, without the default signing uses; what happens then without a secret is
      up to the library (`SignedTokensNeedSecret`, `RejectsWithoutSecret`). */
  function VerifyToken(cfg: Config, lib: Libraries, tok: string): (ok: bool)
    ensures SecretConfigured(cfg) ==> (ok <==> lib.verify(Some(SigningSecret(cfg)), tok))
    ensures !SecretConfigured(cfg) ==>
      (ok <==> lib.verify(cfg.jwtSecret, tok)) && cfg.jwtSecret != Some(SigningSecret(cfg))
  {
    lib.verify(cfg.jwtSecret, tok)
  }

  // ---------------------------------------------------------------------------------------
  // Properties of the state machine

  /** While refresh tokens are unique, the index finds exactly the user holding the token,
      so which match `Items[0]` is never matters. */
  lemma HolderIsFound(s: Store, name: string, tok: string)
    requires UniqueRefreshTokens(s)
    requires Holds(s, name, tok)
    ensures FindByRefreshToken(s, tok) == Some(name)
  {
    var found := FindByRefreshToken(s, tok);
    assert Holds(s, found.value, tok);
  }

  /** A username is registered at most once: registering it again throws and leaves the
      table alone, and the table grew by exactly one row. */
  lemma RegisterOnlyOnce(cfg: Config, lib: Libraries, s: Store, username: string, p1: string, f1: string, p2: string, f2: string)
    requires Register(cfg, lib, s, username, p1, f1).result.Success?
    ensures var s1 := Register(cfg, lib, s, username, p1, f1).store;
      && |s1| == |s| + 1
      && Register(cfg, lib, s1, username, p2, f2) == Step(Failure(UsernameTaken), s1)
  {
    var s1 := Register(cfg, lib, s, username, p1, f1).store;
    assert s1.Keys == s.Keys + {username};
  }

  lemma RegisterKeepsTokensUnique(cfg: Config, lib: Libraries, s: Store, username: string, password: string, newToken: string)
    requires UniqueRefreshTokens(s)
    requires !InUse(s, newToken)
    ensures UniqueRefreshTokens(Register(cfg, lib, s, username, password, newToken).store)
  {
    var s1 := Register(cfg, lib, s, username, password, newToken).store;
    forall a, b | a in s1 && b in s1 && a != b && s1[a].refreshToken.Some?
      ensures s1[a].refreshToken != s1[b].refreshToken
    {
      if username !in s && (a == username || b == username) {
        var other := if a == username then b else a;
        assert !Holds(s, other, newToken);
      }
    }
  }

  lemma LoginKeepsTokensUnique(cfg: Config, lib: Libraries, s: Store, username: string, password: string, newToken: string)
    requires UniqueRefreshTokens(s)
    requires !InUse(s, newToken)
    ensures UniqueRefreshTokens(Login(cfg, lib, s, username, password, newToken).store)
  {
    var r := Login(cfg, lib, s, username, password, newToken);
    var s1 := r.store;
    forall a, b | a in s1 && b in s1 && a != b && s1[a].refreshToken.Some?
      ensures s1[a].refreshToken != s1[b].refreshToken
    {
      if r.result.Success? && (a == username || b == username) {
        var other := if a == username then b else a;
        assert !Holds(s, other, newToken);
        assert s1[other] == s[other];
      }
    }
  }

  lemma LogoutKeepsTokensUnique(s: Store, tok: string)
    requires UniqueRefreshTokens(s)
    ensures UniqueRefreshTokens(Logout(s, tok))
  {
    var s1 := Logout(s, tok);
    forall a, b | a in s1 && b in s1 && a != b && s1[a].refreshToken.Some?
      ensures s1[a].refreshToken != s1[b].refreshToken
    {
      assert s1[a] == s[a];
    }
  }

  /** After `logout` nobody holds the token any more. */
  lemma LogoutClearsToken(s: Store, tok: string)
    requires UniqueRefreshTokens(s)
    ensures !InUse(Logout(s, tok), tok)
  {
    var s1 := Logout(s, tok);
    if InUse(s, tok) {
      var name :| name in s && Holds(s, name, tok);
      HolderIsFound(s, name, tok);
      forall other | other in s1 ensures !Holds(s1, other, tok) {
        if other != name {
          assert s1[other] == s[other];
        }
      }
    }
  }

  /** A refresh with a logged-out token throws. */
  lemma LogoutEndsSession(cfg: Config, lib: Libraries, s: Store, tok: string)
    requires UniqueRefreshTokens(s)
    ensures RefreshAccessToken(cfg, lib, Logout(s, tok), tok) == Failure(InvalidRefreshToken)
  {
    LogoutClearsToken(s, tok);
  }

  /** `logout` is idempotent: the second call with the same token finds nothing. */
  lemma LogoutIdempotent(s: Store, tok: string)
    requires UniqueRefreshTokens(s)
    ensures Logout(Logout(s, tok), tok) == Logout(s, tok)
  {
    LogoutClearsToken(s, tok);
  }

  /** A successful `login` rotates the refresh token: the one the user held before no
      longer resolves, and the fresh one resolves to that user. */
  lemma LoginRotatesRefreshToken(cfg: Config, lib: Libraries, s: Store, username: string, password: string, newToken: string, previous: string)
    requires UniqueRefreshTokens(s)
    requires !InUse(s, newToken)
    requires Holds(s, username, previous)
    requires Login(cfg, lib, s, username, password, newToken).result.Success?
    ensures var s1 := Login(cfg, lib, s, username, password, newToken).store;
      && RefreshAccessToken(cfg, lib, s1, previous) == Failure(InvalidRefreshToken)
      && RefreshAccessToken(cfg, lib, s1, newToken) == Success(lib.sign(SigningSecret(cfg), username))
  {
    var s1 := Login(cfg, lib, s, username, password, newToken).store;
    forall other | other in s1 ensures !Holds(s1, other, previous) {
      if other != username {
        assert s1[other] == s[other];
      }
    }
    LoginKeepsTokensUnique(cfg, lib, s, username, password, newToken);
    HolderIsFound(s1, username, newToken);
  }

  /** With a sound hasher, a user can log in right after registering. */
  lemma RegisteredUserCanLogIn(cfg: Config, lib: Libraries, s: Store, username: string, password: string, f1: string, f2: string)
    requires username !in s
    requires lib.compare(password, lib.hash(password))
    ensures Login(cfg, lib, Register(cfg, lib, s, username, password, f1).store, username, password, f2).result.Success?
  {
  }

  /** Access tokens signed while `JWT_SECRET` is unset (with the built-in default) are
      never accepted by `verifyToken`, which has no default. */
  lemma DefaultSecretTokensNeverVerify(cfg: Config, lib: Libraries, s: Store, username: string, password: string, newToken: string)
    requires !SecretConfigured(cfg)
    requires SignedTokensNeedSecret(lib)
    requires Login(cfg, lib, s, username, password, newToken).result.Success?
    ensures !VerifyToken(cfg, lib, Login(cfg, lib, s, username, password, newToken).result.value.accessToken)
  {
  }

  /** With the secret configured and a sound signer, the access token `login` returns
      passes `verifyToken`. */
  lemma IssuedTokenVerifies(cfg: Config, lib: Libraries, s: Store, username: string, password: string, newToken: string)
    requires SecretConfigured(cfg)
    requires lib.verify(cfg.jwtSecret, lib.sign(cfg.jwtSecret.value, username))
    requires Login(cfg, lib, s, username, password, newToken).result.Success?
    ensures VerifyToken(cfg, lib, Login(cfg, lib, s, username, password, newToken).result.value.accessToken)
  {
  }
}
