/**
 * The auth service: guard checks on the credentials, made before anything is
 * sent to the backend, and the mapping of the backend's error to a message.
 * `isValidEmail` lives outside this model and is a parameter here.
 */
module AuthService {
  import opened Domain

  datatype Credentials = Credentials(email: string, password: string)

  datatype User = User(id: string, email: string)
  datatype Session = Session(accessToken: string, user: User)

  /** The backend's error object; its `message` may be missing. */
  datatype AuthError = AuthError(message: Option<string>)

  /** What the auth backend answers to a sign-in or sign-up. */
  datatype AuthReply = AuthReply(user: Option<User>, session: Option<Session>, error: Option<AuthError>)

  /** What a service function returns to the screens. */
  datatype AuthResponse = AuthResponse(user: Option<User>, session: Option<Session>, error: Option<string>)

  /** A request that reaches the auth backend. */
  datatype Request = SignIn(credentials: Credentials) | SignUp(credentials: Credentials) | ResetFor(email: string) | SignOut

  /** A service call: what it returns, and the request it sent, if it got past its guards. */
  datatype Call<+R> = Call(response: R, sent: Option<Request>)

  const InvalidEmail := "Invalid email format"
  const PasswordRequired := "Password is required"
  const PasswordTooShort := "Password must be at least 6 characters"
  const MinPasswordLength := 6

  /** `error?.message || null`: no error, a missing message and an empty message all give null. */
  function ErrorText(e: Option<AuthError>): (r: Option<string>)
    ensures r.Some? <==> e.Some? && e.value.message.Some? && e.value.message.value != ""
    ensures r.Some? ==> r == e.value.message
  {
    match e
    case None => None
    case Some(AuthError(m)) => if m.Some? && m.value != "" then m else None
  }

  function Rejected(message: string): AuthResponse {
    AuthResponse(None, None, Some(message))
  }

  function FromReply(reply: AuthReply): AuthResponse {
    AuthResponse(reply.user, reply.session, ErrorText(reply.error))
  }

  /** The guard of `login`: the message it rejects with, checked email first. */
  function LoginGuard(isValidEmail: string -> bool, c: Credentials): Option<string> {
    if !isValidEmail(c.email) then Some(InvalidEmail)
    else if c.password == "" then Some(PasswordRequired)
    else None
  }

  /** The guard of `signup`; JavaScript measures the password in UTF-16 code units. */
  function SignupGuard(isValidEmail: string -> bool, c: Credentials): Option<string> {
    if !isValidEmail(c.email) then Some(InvalidEmail)
    else if |Utf16(c.password)| < MinPasswordLength then Some(PasswordTooShort)
    else None
  }

  function Login(isValidEmail: string -> bool, c: Credentials, reply: AuthReply): (r: Call<AuthResponse>)
    ensures !isValidEmail(c.email) ==> r == Call(Rejected(InvalidEmail), None)
    ensures isValidEmail(c.email) && c.password == "" ==> r == Call(Rejected(PasswordRequired), None)
    ensures r.sent.Some? <==> isValidEmail(c.email) && c.password != ""
    ensures r.sent.Some? ==> r.sent == Some(SignIn(c)) && r.response == FromReply(reply)
  {
    match LoginGuard(isValidEmail, c)
    case Some(message) => Call(Rejected(message), None)
    case None => Call(FromReply(reply), Some(SignIn(c)))
  }

  function Signup(isValidEmail: string -> bool, c: Credentials, reply: AuthReply): (r: Call<AuthResponse>)
    ensures !isValidEmail(c.email) ==> r == Call(Rejected(InvalidEmail), None)
    ensures isValidEmail(c.email) && |Utf16(c.password)| < MinPasswordLength ==> r == Call(Rejected(PasswordTooShort), None)
    ensures r.sent.Some? <==> isValidEmail(c.email) && |Utf16(c.password)| >= MinPasswordLength
    ensures r.sent.Some? ==> r.sent == Some(SignUp(c)) && r.response == FromReply(reply)
  {
    match SignupGuard(isValidEmail, c)
    case Some(message) => Call(Rejected(message), None)
    case None => Call(FromReply(reply), Some(SignUp(c)))
  }

  /** `resetPassword` checks the email only; `reply` is the backend's error, if any. */
  function ResetPassword(isValidEmail: string -> bool, email: string, reply: Option<AuthError>): (r: Call<Option<string>>)
    ensures r.sent.Some? <==> isValidEmail(email)
    ensures !isValidEmail(email) ==> r.response == Some(InvalidEmail)
    ensures r.sent.Some? ==> r.sent == Some(ResetFor(email)) && r.response == ErrorText(reply)
  {
    if !isValidEmail(email) then Call(Some(InvalidEmail), None)
    else Call(ErrorText(reply), Some(ResetFor(email)))
  }

  function Logout(reply: Option<AuthError>): (r: Call<Option<string>>)
    ensures r.sent == Some(SignOut)
    ensures r.response.None? <==> reply.None? || reply.value.message.None? || reply.value.message == Some("")
    ensures r.response.Some? ==> reply.Some? && reply.value.message == r.response
  {
    Call(ErrorText(reply), Some(SignOut))
  }

  /** A rejected call makes no request, and what it returns does not depend on the backend at all. */
  lemma RejectionIgnoresBackend(isValidEmail: string -> bool, c: Credentials, reply1: AuthReply, reply2: AuthReply)
    ensures Login(isValidEmail, c, reply1).sent.None? ==> Login(isValidEmail, c, reply1) == Login(isValidEmail, c, reply2)
    ensures Signup(isValidEmail, c, reply1).sent.None? ==> Signup(isValidEmail, c, reply1) == Signup(isValidEmail, c, reply2)
  {
  }

  /** Only the backend can clear the error: a call that returns no error sent its request. */
  lemma NoErrorOnlyFromBackend(isValidEmail: string -> bool, c: Credentials, reply: AuthReply)
    ensures Login(isValidEmail, c, reply).response.error.None? ==> Login(isValidEmail, c, reply).sent.Some?
    ensures Signup(isValidEmail, c, reply).response.error.None? ==> Signup(isValidEmail, c, reply).sent.Some?
  {
  }

  /**
   * The guards are ordered and nested: a sign-up that passes would pass login,
   * a login that passes would pass reset, and an invalid email is reported even
   * when the password is also bad.
   */
  lemma GuardsAreNested(isValidEmail: string -> bool, c: Credentials, reply: AuthReply, reset: Option<AuthError>)
    ensures Signup(isValidEmail, c, reply).sent.Some? ==> Login(isValidEmail, c, reply).sent.Some?
    ensures Login(isValidEmail, c, reply).sent.Some? ==> ResetPassword(isValidEmail, c.email, reset).sent.Some?
    ensures !isValidEmail(c.email) ==>
      Login(isValidEmail, c, reply).response.error == Some(InvalidEmail) &&
      Signup(isValidEmail, c, reply).response.error == Some(InvalidEmail)
  {
    if Signup(isValidEmail, c, reply).sent.Some? {
      assert |Utf16(c.password)| >= 6;
      assert c.password != "";
    }
  }
}
