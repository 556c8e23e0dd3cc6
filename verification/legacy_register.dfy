/** The registration Lambda of the Basic-auth service: validates the body, refuses a
    taken username after reading the table, and writes the encrypted password. */
module LegacyRegister {
  import opened Wrappers
  import opened Hex
  import opened Http
  import opened StoredCredential

  /** The Basic-auth users table: username to the `password` string attribute. Its rows
      carry no refresh token. */
  type Table = map<string, string>

  /** `!username || !password` is false: both fields are present and not empty. */
  predicate HasCredentials(b: Body) {
    b.username.Some? && b.username.value != "" && b.password.Some? && b.password.value != ""
  }

  /** `handler`, with `iv` the 16 bytes `crypto.randomBytes(16)` produced for this call.
      The table is read before it is written, not written conditionally. */
  function Handle(c: Cipher, t: Table, body: RawBody, iv: seq<byte>): (a: Answer<Table>)
    requires |iv| == IvLength
    ensures body.NoBody? ==> a == Answer(Reply(400, Message("Missing request body")), t)
    ensures a.reply.status in {201, 400, 409, 500}
    ensures a.reply.status != 201 ==> a.after == t
    ensures a.reply.status == 400 <==> body.NoBody? || (body.Json? && !HasCredentials(body.fields))
    ensures a.reply.status == 409 <==> body.Json? && HasCredentials(body.fields) && body.fields.username.value in t
    ensures a.reply.status == 201 <==>
      && body.Json? && HasCredentials(body.fields) && body.fields.username.value !in t
      && c.encrypt(iv, body.fields.password.value).Some?
    ensures a.reply.status == 201 ==>
      && body.Json? && HasCredentials(body.fields)
      && var name := body.fields.username.value;
      && name !in t
      && a.after.Keys == t.Keys + {name}
      && (forall other :: other in t ==> a.after[other] == t[other])
      && |a.after[name]| >= IvHexLength && a.after[name][..IvHexLength] == Encode(iv)
      && exists ciphertext :: c.encrypt(iv, body.fields.password.value) == Some(ciphertext) && a.after[name] == Pack(iv, ciphertext)
  {
    match body
    case NoBody => Answer(Reply(400, Message("Missing request body")), t)
    case Malformed => Answer(InternalError, t)
    case Json(fields) =>
      if !HasCredentials(fields) then
        Answer(Reply(400, Message("Username and password are required")), t)
      else
        var name := fields.username.value;
        if name in t then Answer(Reply(409, Message("Username already exists")), t)
        else
          match c.encrypt(iv, fields.password.value)
          case None => Answer(InternalError, t)
          case Some(ciphertext) =>
            Answer(Reply(201, Message("User registered successfully")), t[name := Pack(iv, ciphertext)])
  }

  /** Validation happens before the table is consulted: a 400 does not depend on what the
      table holds. */
  lemma ValidationIgnoresTable(c: Cipher, t1: Table, t2: Table, body: RawBody, iv: seq<byte>)
    requires |iv| == IvLength
    requires Handle(c, t1, body, iv).reply.status == 400
    ensures Handle(c, t2, body, iv) == Answer(Handle(c, t1, body, iv).reply, t2)
  {
  }
}
