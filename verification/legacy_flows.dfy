/** End-to-end properties of the Basic-auth service: a password stored by the registration
    Lambda is accepted by the Node reader, and the Node and Python readers disagree on
    extra separators. */
module LegacyFlows {
  import opened Wrappers
  import opened Text
  import opened Hex
  import opened Http
  import opened StoredCredential
  import LegacyRegister
  import BasicAuthNode
  import BasicAuthPython

  /** The request body `{"username": name, "password": password}`. */
  function RegisterBody(name: string, password: string): RawBody {
    Json(Body(Some(name), Some(password), None))
  }

  /** `Authorization: Basic <value>`. */
  function BasicHeader(value: string): HeaderBag {
    Headers(map["Authorization" := "Basic " + value])
  }

  /** Registering and then presenting the same credentials to the Node reader succeeds:
      packing at register time and slicing at 32 characters round-trip, and decrypting
      inverts encrypting. */
  lemma {:induction false} RegisteredUserIsAuthorized(
    c: Cipher, b64: string -> Option<string>, t: LegacyRegister.Table,
    name: string, password: string, iv: seq<byte>, value: string)
    requires Inverts(c)
    requires |iv| == IvLength
    requires name !in t && name != "" && password != ""
    requires ':' !in name && ':' !in password
    requires c.encrypt(iv, password).Some?
    requires ' ' !in value && b64(value) == Some(name + [':'] + password)
    ensures var a := LegacyRegister.Handle(c, t, RegisterBody(name, password), iv);
      && a.reply.status == 201
      && BasicAuthNode.Handle(c, b64, a.after, BasicHeader(value)) == BasicAuthNode.Authorized
  {
    var ciphertext := c.encrypt(iv, password).value;
    var a := LegacyRegister.Handle(c, t, RegisterBody(name, password), iv);
    assert a.after[name] == Pack(iv, ciphertext);
    DecryptPacked(c, iv, password, ciphertext);
    BasicAuthNode.BasicValue(value);
    BasicAuthNode.ReadClaimOfPair(name, password);
  }

  /** A password containing a colon can be registered but never used with the Node
      reader: it keeps only the text before the colon as the password. */
  lemma {:induction false} ColonPasswordIsRejected(
    c: Cipher, b64: string -> Option<string>, t: LegacyRegister.Table,
    name: string, head: string, tail: string, iv: seq<byte>, value: string)
    requires Inverts(c)
    requires |iv| == IvLength
    requires name !in t && name != ""
    requires ':' !in name && ':' !in head
    requires c.encrypt(iv, head + [':'] + tail).Some?
    requires ' ' !in value && b64(value) == Some(name + [':'] + (head + [':'] + tail))
    ensures var a := LegacyRegister.Handle(c, t, RegisterBody(name, head + [':'] + tail), iv);
      && a.reply.status == 201
      && BasicAuthNode.Handle(c, b64, a.after, BasicHeader(value)) == Reply(401, Message("Unauthorized: Incorrect password"))
  {
    var password := head + [':'] + tail;
    var ciphertext := c.encrypt(iv, password).value;
    var a := LegacyRegister.Handle(c, t, RegisterBody(name, password), iv);
    assert a.after[name] == Pack(iv, ciphertext);
    DecryptPacked(c, iv, password, ciphertext);
    BasicAuthNode.BasicValue(value);
    SplitAtFirst(name, password, ':');
    SplitAtFirst(head, tail, ':');
    assert Split(name + [':'] + password, ':')[1] == head;
    assert |head| < |password|;
  }

  /** Whatever credentials the Python reader accepts from a header, the Node reader reads
      the same ones from it, provided both decoders read the header value alike. They need
      not: Node's `Buffer.from(_, "base64")` also takes the URL-safe digits `-` and `_`,
      which Python's `b64decode` discards, and the two treat bad padding and bad UTF-8
      differently. */
  lemma {:induction false} PythonAcceptsOnlyWhatNodeReads(
    nodeDecode: string -> Option<string>, pythonDecode: string -> Option<string>, auth: string)
    requires BasicAuthPython.Credentials(pythonDecode, auth).Some?
    requires nodeDecode(auth[6..]) == pythonDecode(auth[6..])
    ensures var (name, password) := BasicAuthPython.Credentials(pythonDecode, auth).value;
      BasicAuthNode.Claimed(nodeDecode, auth) == Some(BasicAuthNode.Claim(name, Some(password)))
  {
    var (name, password) := BasicAuthPython.Credentials(pythonDecode, auth).value;
    var value := auth[6..];
    assert auth == "Basic " + value;
    BasicAuthNode.BasicValue(value);
    BasicAuthNode.ReadClaimOfPair(name, password);
  }

  /** A decoded value with a second colon splits the two readers: Node reads the first two
      pieces and goes on, Python's two-way unpacking raises and it answers 401. */
  lemma {:induction false} SecondColonSplitsTheReaders(
    nodeDecode: string -> Option<string>, pythonDecode: string -> Option<string>,
    value: string, name: string, password: string, rest: string)
    requires ':' !in name && ':' !in password && ' ' !in value
    requires nodeDecode(value) == Some(name + [':'] + password + [':'] + rest)
    requires pythonDecode(value) == nodeDecode(value)
    ensures BasicAuthNode.Claimed(nodeDecode, "Basic " + value) == Some(BasicAuthNode.Claim(name, Some(password)))
    ensures BasicAuthPython.Credentials(pythonDecode, "Basic " + value).None?
  {
    BasicAuthNode.ClaimedOfBasic(nodeDecode, value);
    BasicAuthNode.ReadClaimOfTriple(name, password, rest);
    BasicAuthPython.SplitPairOfTriple(name, password, rest, ':');
    BasicAuthPython.CredentialsOfBasic(pythonDecode, value);
  }

  /** A header with a third word splits the readers too: Node ignores the extra word,
      Python's two-way unpacking of the header raises. */
  lemma {:induction false} ThirdWordSplitsTheReaders(
    nodeDecode: string -> Option<string>, pythonDecode: string -> Option<string>, value: string, extra: string)
    requires ' ' !in value
    ensures BasicAuthNode.Claimed(nodeDecode, "Basic " + value + " " + extra) == BasicAuthNode.Claimed(nodeDecode, "Basic " + value)
    ensures BasicAuthPython.Credentials(pythonDecode, "Basic " + value + " " + extra).None?
  {
    BasicAuthNode.ThirdWordIgnored(nodeDecode, value, extra);
    BasicAuthPython.ThirdWordRejected(pythonDecode, value, extra);
  }

  /** The Python reader answers 200 exactly for a stored plaintext password equal to the
      one presented. */
  lemma {:induction false} PythonMatchIsAuthorized(
    b64: string -> Option<string>, t: BasicAuthPython.PlainTable, name: string, password: string, value: string)
    requires ':' !in name && ':' !in password
    requires ' ' !in value && b64(value) == Some(name + [':'] + password)
    ensures BasicAuthPython.Handle(b64, t, BasicHeader(value)).Returned?
    ensures BasicAuthPython.Handle(b64, t, BasicHeader(value)).reply.status == 200 <==> name in t && t[name] == password
  {
    BasicAuthPython.CredentialsOfBasic(b64, value);
    BasicAuthPython.SplitPairOfPair(name, password, ':');
  }
}
