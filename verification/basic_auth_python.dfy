/** The Python Basic-auth Lambda: the same flow as the Node one, but every split must
    produce exactly two parts and the table holds plaintext passwords. */
module BasicAuthPython {
  import opened Wrappers
  import opened Text
  import opened Http

  /** The `Users` table this variant reads: username to plaintext `password`. */
  type PlainTable = map<string, string>

  /** How the invocation ends: a reply, or an exception the `except` clause does not name
      (a `TypeError`), which fails the invocation. */
  datatype Invocation = Returned(reply: Reply) | Raised

  /** `a, b = s.split(sep)`: unpacking raises `ValueError` unless there are exactly two parts. */
  function SplitPair(s: string, sep: char): (r: Option<(string, string)>)
    ensures r.Some? <==> multiset(s)[sep] == 1
    ensures r.Some? ==> sep !in r.value.0 && sep !in r.value.1 && s == r.value.0 + [sep] + r.value.1
  {
    var parts := Split(s, sep);
    SplitCount(s, sep);
    if |parts| == 2 then
      assert Join(parts[1..], sep) == parts[1];
      Some((parts[0], parts[1]))
    else None
  }

  /** The header parsed as `Basic <value>`, decoded (`base64.b64decode(...).decode("utf-8")`,
      which raise `ValueError` subclasses) and split into username and password. */
  function Credentials(b64: string -> Option<string>, auth: string): (r: Option<(string, string)>)
    ensures r.Some? ==> ':' !in r.value.0 && ':' !in r.value.1
    ensures r.Some? ==>
      && StartsWith(auth, "Basic ") && ' ' !in auth[6..]
      && b64(auth[6..]) == Some(r.value.0 + [':'] + r.value.1)
  {
    match SplitPair(auth, ' ')
    case None => None
    case Some((scheme, value)) =>
      if scheme != "Basic" then None
      else
        assert auth[6..] == value;
        match b64(value)
        case None => None
        case Some(decoded) => SplitPair(decoded, ':')
  }

  /** Two separator-free halves joined by one separator unpack into those halves. */
  lemma {:induction false} SplitPairOfPair(a: string, b: string, sep: char)
    requires sep !in a && sep !in b
    ensures SplitPair(a + [sep] + b, sep) == Some((a, b))
  {
    SplitAtFirst(a, b, sep);
    SplitWithoutSeparator(b, sep);
  }

  /** Three or more parts do not unpack into two. */
  lemma {:induction false} SplitPairOfTriple(a: string, b: string, rest: string, sep: char)
    requires sep !in a && sep !in b
    ensures SplitPair(a + [sep] + b + [sep] + rest, sep).None?
  {
    var s := a + [sep] + b + [sep] + rest;
    assert s == a + [sep] + (b + [sep] + rest);
    SplitAtFirst(a, b + [sep] + rest, sep);
    SplitAtFirst(b, rest, sep);
    assert |Split(s, sep)| >= 3;
  }

  /** Behind a well-formed `Basic ` prefix, the credentials are the decoded value split
      at its one colon. */
  lemma {:induction false} CredentialsOfBasic(b64: string -> Option<string>, value: string)
    requires ' ' !in value
    ensures Credentials(b64, "Basic " + value) ==
      match b64(value)
      case None => None
      case Some(decoded) => SplitPair(decoded, ':')
  {
    assert "Basic " + value == "Basic" + [' '] + value;
    SplitPairOfPair("Basic", value, ' ');
  }

  const Unauthorized := Returned(Reply(401, Message("Unauthorized")))

  /** `lambda_handler`. A missing `headers` or `Authorization` key raises `KeyError`, which
      is caught; a `null` header map raises `TypeError`, which is not. */
  function Handle(b64: string -> Option<string>, t: PlainTable, headers: HeaderBag): (r: Invocation)
    ensures r.Raised? <==> headers.NullHeaders?
    ensures r.Returned? ==> r.reply.status == 200 || r == Unauthorized
    ensures r.Returned? && r.reply.status == 200 ==> r.reply == Reply(200, Message("Authorized"))
    ensures r.Returned? && r.reply.status == 200 <==>
      && Authorization(headers).Some?
      && Credentials(b64, Authorization(headers).value).Some?
      && var (name, password) := Credentials(b64, Authorization(headers).value).value;
      && name in t && t[name] == password
  {
    match headers
    case NullHeaders => Raised
    case NoHeaders => Unauthorized
    case Headers(fields) =>
      if "Authorization" !in fields then Unauthorized
      else
        match Credentials(b64, fields["Authorization"])
        case None => Unauthorized
        case Some((name, password)) =>
          if name !in t || t[name] != password then Unauthorized
          else Returned(Reply(200, Message("Authorized")))
  }

  /** A header of three words does not unpack into scheme and value. */
  lemma {:induction false} ThirdWordRejected(b64: string -> Option<string>, value: string, extra: string)
    requires ' ' !in value
    ensures Credentials(b64, "Basic " + value + " " + extra).None?
  {
    assert "Basic " + value + " " + extra == "Basic" + [' '] + value + [' '] + extra;
    SplitPairOfTriple("Basic", value, extra, ' ');
  }
}
