/** The authentication helpers: decoding the `Authorization` header into a token payload,
    and the guard that every link mutation runs before it touches the store. */
module Auth {
  import opened Wrappers
  import Strings

  /** The shared secret the token verifier is given. */
  const AppSecret: string := "GraphQL-is-aw3some"

  /** The text removed from the header to obtain the token. */
  const BearerPrefix: string := "Bearer "

  /** What a verified token carries. */
  datatype AuthTokenPayload = AuthTokenPayload(userId: int)

  /** The per-request context as the guard sees it: the user id decoded from the credential,
      `None` when no credential was given. Numbers are integers here; JavaScript's `NaN` is not modelled. */
  datatype Context = Context(userId: Option<int>)

  /** Why decoding failed: the header held no token, or the verifier rejected the token. */
  datatype DecodeError = NoTokenFound | VerificationFailed(reason: string)

  /** The message of a decoding failure. */
  function DecodeErrorMessage(e: DecodeError): string
  {
    match e
    case NoTokenFound => "No token found"
    case VerificationFailed(reason) => reason
  }

  /** The token verifier (`jwt.verify`), an oracle: given a token and a secret,
      the payload it decodes or the reason it throws. */
  type Verifier = (string, string) -> Result<AuthTokenPayload, string>

  /** The header with the first occurrence of `"Bearer "` removed, wherever it stands. */
  function StripBearer(header: string): (token: string)
    ensures !Strings.Contains(header, BearerPrefix) ==> token == header
    ensures forall i: nat :: Strings.FirstOccurrence(header, BearerPrefix, i) ==>
              token == header[..i] + header[i + |BearerPrefix|..]
    ensures |token| == if Strings.Contains(header, BearerPrefix) then |header| - 7 else |header|
  {
    Strings.ReplaceFirst(header, BearerPrefix, "")
  }

  /** Decodes an `Authorization` header: an empty token fails without consulting the verifier,
      any other token is handed to the verifier with the application secret. */
  function DecodeAuthHeader(header: string, verify: Verifier): (r: Result<AuthTokenPayload, DecodeError>)
    ensures r == Err(NoTokenFound) <==> StripBearer(header) == ""
    ensures StripBearer(header) != "" ==>
              match verify(StripBearer(header), AppSecret)
              case Ok(payload) => r == Ok(payload)
              case Err(reason) => r == Err(VerificationFailed(reason))
  {
    var token := StripBearer(header);
    if token == "" then
      Err(NoTokenFound)
    else
      match verify(token, AppSecret)
      case Ok(payload) => Ok(payload)
      case Err(reason) => Err(VerificationFailed(reason))
  }

  /** The guard run by every mutation: it throws unless `ctx.userId` is truthy, that is,
      present and not zero. */
  function EnsureAuthMutation(ctx: Context, action: string): (r: Outcome<string>)
    ensures r.Fail? <==> ctx.userId == None || ctx.userId == Some(0)
    ensures r.Fail? ==> r.error == "Cannot " + action + " without loggin in."
  {
    match ctx.userId
    case Some(id) => if id != 0 then Pass else Fail(AuthMessage(action))
    case None => Fail(AuthMessage(action))
  }

  /** The text of the guard's error. */
  function AuthMessage(action: string): string
  {
    "Cannot " + action + " without loggin in."
  }

  /** A header of the usual form `Bearer <token>` yields exactly `<token>`. */
  lemma StripBearerOfWellFormedHeader(token: string)
    ensures StripBearer(BearerPrefix + token) == token
  {
  }

  /** A header that is empty or holds only the prefix has no token. */
  lemma StripBearerOfEmptyHeaders()
    ensures StripBearer("") == ""
    ensures StripBearer("Bearer ") == ""
  {
  }

  /** Only the first occurrence of the prefix is removed. */
  lemma StripBearerRemovesOnce()
    ensures StripBearer("Bearer Bearer abc") == "Bearer abc"
  {
  }

  /** The prefix is removed wherever it first occurs, not only at the start. */
  lemma StripBearerRemovesInside()
    ensures StripBearer("xBearer y") == "xy"
  {
    var h := "xBearer y";
    assert !Strings.OccursAt(h, BearerPrefix, 0) by {
      assert h[0] != BearerPrefix[0];
    }
    assert Strings.FirstOccurrence(h, BearerPrefix, 1) by {
      assert h[1..8] == BearerPrefix;
    }
  }

  /** A header without the prefix is left as it is. */
  lemma StripBearerKeepsPlainHeader(header: string)
    requires !Strings.Contains(header, BearerPrefix)
    ensures StripBearer(header) == header
  {
  }

  /** An empty header, or one that is exactly the prefix, fails with "No token found"
      whatever the verifier would have said: the verifier is never consulted. */
  lemma EmptyTokenNeverVerified(header: string, v1: Verifier, v2: Verifier)
    requires header == "" || header == BearerPrefix
    ensures DecodeAuthHeader(header, v1) == DecodeAuthHeader(header, v2) == Err(NoTokenFound)
    ensures DecodeErrorMessage(DecodeAuthHeader(header, v1).error) == "No token found"
  {
  }

  /** Two headers that strip to the same token decode alike: the verifier sees only the token. */
  lemma DecodeDependsOnlyOnToken(h1: string, h2: string, verify: Verifier)
    requires StripBearer(h1) == StripBearer(h2)
    ensures DecodeAuthHeader(h1, verify) == DecodeAuthHeader(h2, verify)
  {
  }
}
