/**
 * The bearer-token gate `auth`. Token verification (`jwt.verify` with the
 * configured secret) and the user lookup (`User.findById`) are oracles passed
 * in as functions; what is modelled is how the header is parsed and the order
 * in which the gate fails, consults the oracles and attaches the user.
 */
module AuthMiddleware {
  import opened Base
  import opened Text
  import opened Errors
  import UserModel

  const Scheme := "Bearer"
  const Unauthorised := 401
  const NoTokenMessage := "Not authorised, no token provided"
  const InvalidTokenMessage := "Invalid token"
  const UserNotFoundMessage := "Not authorised, user not found"

  /** The decoded token payload; `id` is absent when the token carries none. */
  datatype Payload = Payload(id: Option<string>)

  /** What `User.findById(id).select('-password')` settles to: a user, `null`, or a rejection. */
  datatype Lookup = Found(user: UserModel.User) | NotFound | LookupFailed(error: ErrorValue)

  /** The gate's decision: attach a user and go on, or hand an error to `next`. */
  datatype Decision = Attach(user: UserModel.User) | Fail(error: ErrorValue)

  /** The header is present and starts with `Bearer`, case-sensitively (an empty header is falsy and fails too). */
  predicate HasBearer(header: Option<string>) {
    header.Some? && StartsWith(header.value, Scheme)
  }

  /** `header.split(' ')[1]`: the text between the first and the second space, if there is a space. */
  function ExtractToken(header: string): (t: Option<string>)
    ensures t.None? <==> ' ' !in header
    ensures t.Some? ==> ' ' !in t.value
  {
    var parts := Split(header, ' ');
    if |parts| > 1 then Some(parts[1]) else None
  }

  /**
   * `jwt.verify(token, secret)`, with `None` for a thrown error. The library refuses
   * a missing or empty token before looking at it; any other token goes to the oracle.
   */
  function VerifyToken(token: Option<string>, verify: string -> Option<Payload>): Option<Payload> {
    if token.None? || token.value == "" then None else verify(token.value)
  }

  /** `password` excluded from the selected user. */
  function WithoutPassword(u: UserModel.User): (r: UserModel.User)
    ensures r.password.None?
    ensures r == u.(password := None)
  {
    u.(password := None)
  }

  /** The lookup was reached and rejected (a cast or database error), rather than settling. */
  predicate LookupThrew(header: Option<string>, verify: string -> Option<Payload>, findById: Option<string> -> Lookup) {
    && HasBearer(header)
    && VerifyToken(ExtractToken(header.value), verify).Some?
    && findById(VerifyToken(ExtractToken(header.value), verify).value.id).LookupFailed?
  }

  /** The decision `auth` takes; `trace` is the stack text of the error it throws. */
  function Authenticate(header: Option<string>, verify: string -> Option<Payload>,
                        findById: Option<string> -> Lookup, trace: string): (d: Decision)
    ensures d.Attach? ==> d.user.password.None?
    // every failure of the gate's own is a 401 carrying one of its three messages
    ensures d.Fail? && !LookupThrew(header, verify, findById) ==>
              d.error.statusCode == Some(Unauthorised)
              && d.error.message in {NoTokenMessage, InvalidTokenMessage, UserNotFoundMessage}
    // a rejected lookup is handed on unchanged
    ensures LookupThrew(header, verify, findById) ==>
              d == Fail(findById(VerifyToken(ExtractToken(header.value), verify).value.id).error)
  {
    if !HasBearer(header) then
      Fail(CustomError(NoTokenMessage, Unauthorised, trace))
    else
      var payload := VerifyToken(ExtractToken(header.value), verify);
      if payload.None? then
        Fail(CustomError(InvalidTokenMessage, Unauthorised, trace))
      else
        match findById(payload.value.id)
        case NotFound => Fail(CustomError(UserNotFoundMessage, Unauthorised, trace))
        case LookupFailed(e) => Fail(e)
        case Found(u) => Attach(WithoutPassword(u))
  }

  /** A header `a`, a space, the token `t`, then nothing or more after a space, yields `t`. */
  lemma TokenAfterFirstSpace(a: string, t: string, rest: string)
    requires ' ' !in a && ' ' !in t
    requires rest == [] || rest[0] == ' '
    ensures ExtractToken(a + " " + t + rest) == Some(t)
  {
    assert a + " " + t + rest == a + [' '] + (t + rest);
    SplitAfterFirst(a, t + rest, ' ');
    if rest == [] {
      assert t + rest == t;
      JoinSplit(t, ' ');
    } else {
      assert t + rest == t + [' '] + rest[1..];
      SplitAfterFirst(t, rest[1..], ' ');
    }
  }

  /** In `Bearer <token>` the token handed to the verifier is exactly `<token>`. */
  lemma BearerTokenIsVerified(token: string, verify: string -> Option<Payload>)
    requires ' ' !in token && token != ""
    ensures HasBearer(Some("Bearer " + token))
    ensures VerifyToken(ExtractToken("Bearer " + token), verify) == verify(token)
  {
    TokenAfterFirstSpace(Scheme, token, []);
    assert Scheme + " " + token + [] == "Bearer " + token;
    assert ("Bearer " + token)[..|Scheme|] == Scheme;
  }

  /**
   * Without a `Bearer` header the gate fails with 401 "no token provided", and it
   * does so whatever the oracles would answer: neither is consulted.
   */
  lemma NoBearerRejected(header: Option<string>, verify: string -> Option<Payload>, findById: Option<string> -> Lookup,
                         verify': string -> Option<Payload>, findById': Option<string> -> Lookup, trace: string)
    requires !HasBearer(header)
    ensures Authenticate(header, verify, findById, trace) == Fail(CustomError(NoTokenMessage, Unauthorised, trace))
    ensures Authenticate(header, verify, findById, trace) == Authenticate(header, verify', findById', trace)
  {
  }

  /** A header of exactly `Bearer` carries no token and fails as an invalid token. */
  lemma BareBearerRejected(verify: string -> Option<Payload>, findById: Option<string> -> Lookup, trace: string)
    ensures Authenticate(Some("Bearer"), verify, findById, trace) == Fail(CustomError(InvalidTokenMessage, Unauthorised, trace))
  {
    assert StartsWith("Bearer", Scheme);
    assert ' ' !in "Bearer";
  }

  /** A header of `Bearer` and one space carries the empty token and fails as an invalid token. */
  lemma EmptyBearerRejected(verify: string -> Option<Payload>, findById: Option<string> -> Lookup, trace: string)
    ensures Authenticate(Some("Bearer "), verify, findById, trace) == Fail(CustomError(InvalidTokenMessage, Unauthorised, trace))
  {
    TokenAfterFirstSpace(Scheme, "", []);
    assert Scheme + " " + "" + [] == "Bearer ";
    assert StartsWith("Bearer ", Scheme);
  }

  /** When verification fails the gate fails with 401 "Invalid token" and the lookup is never performed. */
  lemma InvalidTokenRejected(header: Option<string>, verify: string -> Option<Payload>,
                             findById: Option<string> -> Lookup, findById': Option<string> -> Lookup, trace: string)
    requires HasBearer(header)
    requires VerifyToken(ExtractToken(header.value), verify).None?
    ensures Authenticate(header, verify, findById, trace) == Fail(CustomError(InvalidTokenMessage, Unauthorised, trace))
    ensures Authenticate(header, verify, findById, trace) == Authenticate(header, verify, findById', trace)
  {
  }

  /** When the token verifies but no user has its id the gate fails with 401 "user not found". */
  lemma UnknownUserRejected(header: Option<string>, verify: string -> Option<Payload>,
                            findById: Option<string> -> Lookup, trace: string)
    requires HasBearer(header)
    requires VerifyToken(ExtractToken(header.value), verify).Some?
    requires findById(VerifyToken(ExtractToken(header.value), verify).value.id) == NotFound
    ensures Authenticate(header, verify, findById, trace) == Fail(CustomError(UserNotFoundMessage, Unauthorised, trace))
  {
  }

  /**
   * The gate lets a request through exactly when the header is a `Bearer` header,
   * its token verifies and the lookup of the payload's id finds a user; the user
   * attached is that one, without its password.
   */
  lemma AttachIff(header: Option<string>, verify: string -> Option<Payload>,
                  findById: Option<string> -> Lookup, trace: string)
    ensures Authenticate(header, verify, findById, trace).Attach? <==>
              HasBearer(header) && VerifyToken(ExtractToken(header.value), verify).Some?
              && findById(VerifyToken(ExtractToken(header.value), verify).value.id).Found?
    ensures Authenticate(header, verify, findById, trace).Attach? ==>
              Authenticate(header, verify, findById, trace).user
              == WithoutPassword(findById(VerifyToken(ExtractToken(header.value), verify).value.id).user)
  {
  }

  /** Every refusal of the gate itself is answered by the error handler with 401 and the gate's message. */
  lemma RefusalAnswers401(header: Option<string>, verify: string -> Option<Payload>,
                          findById: Option<string> -> Lookup, trace: string, responseStatus: int, nodeEnv: Option<string>)
    requires Authenticate(header, verify, findById, trace).Fail?
    requires !LookupThrew(header, verify, findById)
    ensures var r := HandleError(Authenticate(header, verify, findById, trace).error, responseStatus, nodeEnv);
            r.status == 401
            && r.body.message in {NoTokenMessage, InvalidTokenMessage, UserNotFoundMessage}
  {
  }

  /** The request object; the gate writes only its `user`. */
  class Request {
    const authorization: Option<string>
    var user: Option<UserModel.User>

    constructor (authorization: Option<string>)
      ensures this.authorization == authorization && user.None?
    {
      this.authorization := authorization;
      user := None;
    }
  }

  /**
   * `auth(req, res, next)`: calls `next` exactly once (the returned value), after
   * setting `req.user` on success; on every failure `req.user` is left as it was.
   */
  method Auth(req: Request, verify: string -> Option<Payload>, findById: Option<string> -> Lookup, trace: string)
    returns (next: Next)
    modifies req`user
    ensures match Authenticate(req.authorization, verify, findById, trace)
            case Attach(u) => req.user == Some(u) && next == Continue
            case Fail(e) => req.user == old(req.user) && next == Forward(e)
    ensures next.Continue? ==> req.user.Some? && req.user.value.password.None?
  {
    var decision := Authenticate(req.authorization, verify, findById, trace);
    match decision
    case Attach(u) =>
      req.user := Some(u);
      next := Continue;
    case Fail(e) =>
      next := Forward(e);
  }
}
