/**
 * The registration and login rule chains and `handleValidationErrors`, which
 * turns the collected messages into one 400 error. Each chain trims or keeps
 * its field, runs every validator of the chain (none of them bails out) and
 * records the message of each one that fails; the chains run in the order
 * username, email, password. Whether a string is an email address
 * (`isEmail`) is an oracle.
 */
module ValidationMiddleware {
  import opened Base
  import opened Text
  import opened Errors

  const UsernameLengthMessage := "Username must be 3-20 characters"
  const UsernameCharsMessage := "Usernames can only contain letters, numbers"
  const EmailMessage := "Must be a valid email"
  const PasswordLengthMessage := "Password must be at least 8 characters"
  const PasswordUpperMessage := "Password must contain at least one uppercase letter"
  const PasswordDigitMessage := "Password must contain at least one number"
  const PasswordRequiredMessage := "Password is required"
  const FailurePrefix := "Validation failed: "
  const Separator := ", "
  const BadRequest := 400

  const UsernameMin := 3
  const UsernameMax := 20
  const PasswordMin := 8

  /** The request body fields the chains read; a missing field reads as the empty string. */
  datatype RegisterBody = RegisterBody(username: string, email: string, password: string)
  datatype LoginBody = LoginBody(email: string, password: string)

  /** The variation selectors U+FE0E and U+FE0F, which `isLength` does not count. */
  predicate IsVariationSelector(c: char) {
    c == '\U{FE0E}' || c == '\U{FE0F}'
  }

  /** The length `isLength` measures: the characters of `s` other than variation selectors. */
  function CountedLength(s: string): (n: nat)
    ensures n <= |s|
    ensures (forall i :: 0 <= i < |s| ==> !IsVariationSelector(s[i])) ==> n == |s|
  {
    if s == [] then 0
    else (if IsVariationSelector(s[0]) then 0 else 1) + CountedLength(s[1..])
  }

  /** `isLength({ min, max })`. */
  predicate IsLength(s: string, min: nat, max: Option<nat>) {
    CountedLength(s) >= min && (max.Some? ==> CountedLength(s) <= max.value)
  }

  predicate IsAsciiAlnum(c: char) {
    ('a' <= c <= 'z') || ('A' <= c <= 'Z') || ('0' <= c <= '9')
  }

  /** `matches(/^[a-zA-Z0-9]+$/)`. */
  predicate IsAlnumWord(s: string) {
    |s| > 0 && forall i :: 0 <= i < |s| ==> IsAsciiAlnum(s[i])
  }

  /** `matches(/[A-Z]/)`. */
  predicate HasUpper(s: string) {
    exists i :: 0 <= i < |s| && 'A' <= s[i] <= 'Z'
  }

  /** `matches(/[0-9]/)`. */
  predicate HasDigit(s: string) {
    exists i :: 0 <= i < |s| && '0' <= s[i] <= '9'
  }

  /** One validator followed by `withMessage`: its message when it fails. */
  function Check(ok: bool, message: string): seq<string> {
    if ok then [] else [message]
  }

  function UsernameErrors(username: string): seq<string> {
    var t := Trim(username);
    Check(IsLength(t, UsernameMin, Some(UsernameMax)), UsernameLengthMessage)
    + Check(IsAlnumWord(t), UsernameCharsMessage)
  }

  function EmailErrors(email: string, isEmail: string -> bool): seq<string> {
    Check(isEmail(Trim(email)), EmailMessage)
  }

  function RegisterPasswordErrors(password: string): seq<string> {
    Check(IsLength(password, PasswordMin, None), PasswordLengthMessage)
    + Check(HasUpper(password), PasswordUpperMessage)
    + Check(HasDigit(password), PasswordDigitMessage)
  }

  function LoginPasswordErrors(password: string): seq<string> {
    Check(password != "", PasswordRequiredMessage)
  }

  /** The messages collected by the chains of `validateRegister`, in order. */
  function RegisterErrors(body: RegisterBody, isEmail: string -> bool): seq<string> {
    UsernameErrors(body.username) + EmailErrors(body.email, isEmail) + RegisterPasswordErrors(body.password)
  }

  /** The messages collected by the chains of `validateLogin`, in order. */
  function LoginErrors(body: LoginBody, isEmail: string -> bool): seq<string> {
    EmailErrors(body.email, isEmail) + LoginPasswordErrors(body.password)
  }

  /**
   * `handleValidationErrors`: with no messages, `next()`; otherwise a 400 error whose
   * message is the prefix followed by the messages joined with ", ".
   */
  function HandleValidationErrors(messages: seq<string>, trace: string): (n: Next)
    ensures n.Continue? <==> messages == []
    ensures n.Forward? ==> n.error.statusCode == Some(BadRequest)
    ensures n.Forward? ==> StartsWith(n.error.message, FailurePrefix)
  {
    if messages == [] then Continue
    else Forward(CustomError(FailurePrefix + Join(messages, Separator), BadRequest, trace))
  }

  /** `validateRegister`: the rule chains, then `handleValidationErrors`. */
  function ValidateRegister(body: RegisterBody, isEmail: string -> bool, trace: string): Next {
    HandleValidationErrors(RegisterErrors(body, isEmail), trace)
  }

  /** `validateLogin`: the rule chains, then `handleValidationErrors`. */
  function ValidateLogin(body: LoginBody, isEmail: string -> bool, trace: string): Next {
    HandleValidationErrors(LoginErrors(body, isEmail), trace)
  }

  lemma {:induction false} CountedLengthOfAlnum(s: string)
    requires forall i :: 0 <= i < |s| ==> IsAsciiAlnum(s[i])
    ensures CountedLength(s) == |s|
  {
    assert forall i :: 0 <= i < |s| ==> !IsVariationSelector(s[i]);
  }

  /** The two username validators, on the trimmed text `t`. */
  lemma UsernameRulesIff(t: string)
    ensures (IsLength(t, UsernameMin, Some(UsernameMax)) && IsAlnumWord(t)) <==>
              UsernameMin <= |t| <= UsernameMax && forall i :: 0 <= i < |t| ==> IsAsciiAlnum(t[i])
  {
    if forall i :: 0 <= i < |t| ==> IsAsciiAlnum(t[i]) {
      CountedLengthOfAlnum(t);
    }
  }

  /**
   * A username is accepted exactly when, once trimmed, it is 3 to 20 characters
   * long and made of ASCII letters and digits only.
   */
  lemma UsernameAcceptedIff(username: string)
    ensures UsernameErrors(username) == [] <==>
              UsernameMin <= |Trim(username)| <= UsernameMax
              && forall i :: 0 <= i < |Trim(username)| ==> IsAsciiAlnum(Trim(username)[i])
  {
    var t := Trim(username);
    UsernameRulesIff(t);
    assert UsernameErrors(username)
        == Check(IsLength(t, UsernameMin, Some(UsernameMax)), UsernameLengthMessage)
           + Check(IsAlnumWord(t), UsernameCharsMessage);
  }

  /**
   * A registration password is accepted exactly when it counts at least 8
   * characters, untrimmed, and holds an upper-case letter and a digit; so an
   * accepted one is at least 8 characters long.
   */
  lemma RegisterPasswordAcceptedIff(password: string)
    ensures RegisterPasswordErrors(password) == [] <==>
              CountedLength(password) >= PasswordMin && HasUpper(password) && HasDigit(password)
    ensures RegisterPasswordErrors(password) == [] ==> |password| >= PasswordMin
  {
  }

  /** A password with a variation selector among its 8 characters counts only 7: it is refused. */
  lemma VariationSelectorNotCounted()
    ensures |"Passw0r\U{FE0F}"| == 8
    ensures RegisterPasswordErrors("Passw0r\U{FE0F}") == [PasswordLengthMessage]
  {
    var p := "Passw0r\U{FE0F}";
    assert p[0] == 'P' && p[5] == '0';
    assert CountedLength(p) == 7 by {
      assert p[1..][1..][1..][1..][1..][1..][1..] == "\U{FE0F}";
    }
  }

  /** At login, a password is accepted exactly when it is not empty. */
  lemma LoginPasswordAcceptedIff(password: string)
    ensures LoginPasswordErrors(password) == [] <==> password != ""
  {
  }

  /** Registration goes on exactly when each of the three fields passes its own rules. */
  lemma ValidateRegisterIff(body: RegisterBody, isEmail: string -> bool, trace: string)
    ensures ValidateRegister(body, isEmail, trace).Continue? <==>
              && UsernameMin <= |Trim(body.username)| <= UsernameMax
              && (forall i :: 0 <= i < |Trim(body.username)| ==> IsAsciiAlnum(Trim(body.username)[i]))
              && isEmail(Trim(body.email))
              && CountedLength(body.password) >= PasswordMin && HasUpper(body.password) && HasDigit(body.password)
  {
    UsernameAcceptedIff(body.username);
    RegisterPasswordAcceptedIff(body.password);
  }

  /** Login goes on exactly when the trimmed email is an email address and the password is not empty. */
  lemma ValidateLoginIff(body: LoginBody, isEmail: string -> bool, trace: string)
    ensures ValidateLogin(body, isEmail, trace).Continue? <==> isEmail(Trim(body.email)) && body.password != ""
  {
  }

  /**
   * The 400 error lists every message, in order: message `i` stands right after the
   * prefix, the earlier messages and a ", " after each of them.
   */
  lemma FailureListsEveryMessage(messages: seq<string>, trace: string, i: nat)
    requires i < |messages|
    ensures var n := HandleValidationErrors(messages, trace);
            var at := |FailurePrefix| + Offset(messages, Separator, i);
            && n.Forward?
            && at + |messages[i]| <= |n.error.message|
            && n.error.message[at..at + |messages[i]|] == messages[i]
  {
    var j := Join(messages, Separator);
    var k := Offset(messages, Separator, i);
    assert HandleValidationErrors(messages, trace).error.message == FailurePrefix + j;
    JoinAt(messages, Separator, i);
    SliceAfter(FailurePrefix, j, k, k + |messages[i]|);
  }

  /**
   * Between the messages of the 400 error there is exactly ", " and nothing else,
   * and the error's text ends with the last message.
   */
  lemma FailureSeparatorsAndEnd(messages: seq<string>, trace: string, i: nat)
    requires i < |messages|
    ensures var n := HandleValidationErrors(messages, trace);
            var after := |FailurePrefix| + Offset(messages, Separator, i) + |messages[i]|;
            && n.Forward?
            && (i + 1 < |messages| ==>
                  after + |Separator| <= |n.error.message|
                  && n.error.message[after..after + |Separator|] == Separator
                  && after + |Separator| == |FailurePrefix| + Offset(messages, Separator, i + 1))
            && (i + 1 == |messages| ==> |n.error.message| == after)
  {
    var j := Join(messages, Separator);
    var k := Offset(messages, Separator, i) + |messages[i]|;
    assert HandleValidationErrors(messages, trace).error.message == FailurePrefix + j;
    if i + 1 < |messages| {
      JoinSeparatorAt(messages, Separator, i);
      SliceAfter(FailurePrefix, j, k, k + |Separator|);
    } else {
      JoinLength(messages, Separator);
    }
  }

  /** A single failing rule yields the prefix followed by exactly its message. */
  lemma SingleFailure(message: string, trace: string)
    ensures HandleValidationErrors([message], trace) == Forward(CustomError(FailurePrefix + message, BadRequest, trace))
  {
  }

  /** A validation failure is answered by the error handler with 400. */
  lemma FailureAnswers400(messages: seq<string>, trace: string, responseStatus: int, nodeEnv: Option<string>)
    requires messages != []
    ensures HandleError(HandleValidationErrors(messages, trace).error, responseStatus, nodeEnv).status == 400
  {
  }
}
