/** The Node.js Basic-auth Lambda: reads `Authorization: Basic <base64>`, looks the user
    up and compares the decrypted stored password. Every failure, thrown or not, is 401. */
module BasicAuthNode {
  import opened Wrappers
  import opened Text
  import opened Http
  import opened StoredCredential
  import opened LegacyRegister

  /** `[username, password] = decodedValue.split(":")`: the password is `undefined` when
      there is no colon, and anything after a second colon is dropped. */
  datatype Claim = Claim(username: string, password: Option<string>)

  function ReadClaim(decoded: string): (c: Claim)
    ensures PieceAt(decoded, 0, c.username, ':')
    ensures c.password.Some? <==> ':' in decoded
    ensures c.password.Some? ==> PieceAt(decoded, |c.username| + 1, c.password.value, ':')
  {
    var pieces := Split(decoded, ':');
    SplitCount(decoded, ':');
    FirstPiece(decoded, ':');
    assert ':' in decoded ==> PieceAt(decoded, |pieces[0]| + 1, pieces[1], ':') by {
      if ':' in decoded {
        SecondPiece(decoded, ':');
      }
    }
    Claim(pieces[0], At(pieces, 1))
  }

  /** `[authType, authValue] = authHeader.split(" ")` with `authType` equal to `Basic`,
      then `Buffer.from(authValue, "base64").toString("utf-8")`. A missing `authValue`
      makes `Buffer.from` throw, as may the decoder; both give `None`. */
  function Claimed(b64: string -> Option<string>, auth: string): (r: Option<Claim>)
    ensures r.Some? ==> Split(auth, ' ')[0] == "Basic"
  {
    var words := Split(auth, ' ');
    if words[0] != "Basic" || |words| < 2 then None
    else
      match b64(words[1])
      case None => None
      case Some(decoded) => Some(ReadClaim(decoded))
  }

  const Authorized := Reply(200, Message("Authorized"))

  /** `exports.handler`. */
  function Handle(c: Cipher, b64: string -> Option<string>, t: Table, headers: HeaderBag): (r: Reply)
    ensures r.status == 200 || r.status == 401
    ensures r.status == 200 ==> r == Authorized
    ensures Authorization(headers).None? || Authorization(headers).value == "" ==>
      r == Reply(401, Message("Unauthorized: Missing Authorization header"))
    ensures r.status == 200 <==>
      && Authorization(headers).Some?
      && Claimed(b64, Authorization(headers).value).Some?
      && var claim := Claimed(b64, Authorization(headers).value).value;
      && claim.username in t
      && Decrypt(c, Unpack(t[claim.username])).Some?
      && Decrypt(c, Unpack(t[claim.username])) == claim.password
  {
    match Authorization(headers)
    case None => Reply(401, Message("Unauthorized: Missing Authorization header"))
    case Some(auth) =>
      if auth == "" then Reply(401, Message("Unauthorized: Missing Authorization header"))
      else if Split(auth, ' ')[0] != "Basic" then Reply(401, Message("Unauthorized: Incorrect Authorization type"))
      else
        match Claimed(b64, auth)
        case None => Reply(401, Message("Unauthorized: Error occurred"))
        case Some(claim) =>
          if claim.username !in t then Reply(401, Message("Unauthorized: User not found"))
          else
            match Decrypt(c, Unpack(t[claim.username]))
            case None => Reply(401, Message("Unauthorized: Error occurred"))
            case Some(plain) =>
              if Some(plain) != claim.password then Reply(401, Message("Unauthorized: Incorrect password"))
              else Authorized
  }

  /** A decoded `user:password` with no colon in either half is read as exactly that pair. */
  lemma {:induction false} ReadClaimOfPair(username: string, password: string)
    requires ':' !in username && ':' !in password
    ensures ReadClaim(username + [':'] + password) == Claim(username, Some(password))
  {
    SplitAtFirst(username, password, ':');
    SplitWithoutSeparator(password, ':');
  }

  /** A `Basic` header whose value has no space presents exactly that value to the decoder. */
  lemma {:induction false} BasicValue(value: string)
    requires ' ' !in value
    ensures Split("Basic " + value, ' ') == ["Basic", value]
  {
    assert "Basic " + value == "Basic" + [' '] + value;
    SplitAtFirst("Basic", value, ' ');
    SplitWithoutSeparator(value, ' ');
  }

  /** Behind a well-formed `Basic ` prefix, the claim is read from the decoded value. */
  lemma {:induction false} ClaimedOfBasic(b64: string -> Option<string>, value: string)
    requires ' ' !in value
    ensures Claimed(b64, "Basic " + value) ==
      match b64(value)
      case None => None
      case Some(decoded) => Some(ReadClaim(decoded))
  {
    BasicValue(value);
  }

  /** With a second colon, the text after it is dropped. */
  lemma {:induction false} ReadClaimOfTriple(username: string, password: string, rest: string)
    requires ':' !in username && ':' !in password
    ensures ReadClaim(username + [':'] + password + [':'] + rest) == Claim(username, Some(password))
  {
    assert username + [':'] + password + [':'] + rest == username + [':'] + (password + [':'] + rest);
    SplitAtFirst(username, password + [':'] + rest, ':');
    SplitAtFirst(password, rest, ':');
  }

  /** Words after the second are never looked at. */
  lemma {:induction false} ThirdWordIgnored(b64: string -> Option<string>, value: string, extra: string)
    requires ' ' !in value
    ensures Claimed(b64, "Basic " + value + " " + extra) == Claimed(b64, "Basic " + value)
  {
    assert "Basic " + value + " " + extra == "Basic" + [' '] + (value + [' '] + extra);
    SplitAtFirst("Basic", value + [' '] + extra, ' ');
    SplitAtFirst(value, extra, ' ');
    BasicValue(value);
  }
}
