/** The authentication endpoints: sending and checking login codes,
    registration, password login and the forgot/reset password pair. Each is
    a transition of one world that holds the OTP table, the token store, the
    users (keyed by their unique phone) and the `verified_phone:` cache marks. */
module AuthFlows {
  import opened Common
  import opened OtpCodes
  import opened Users
  import OtpService
  import Sessions
  import RegisterRequest

  /** `expiresIn` of the send-otp response. */
  const SEND_EXPIRES_IN: int := 300
  /** The attempt limit the verify response counts down from. */
  const VERIFY_ATTEMPTS: int := 5
  /** Lifetime of a `verified_phone:<phone>` mark. */
  const VERIFIED_PHONE_TTL: int := 5 * MINUTE
  /** Lifetime of the access token minted by verify-otp. */
  const ACCESS_LIFETIME: int := 7 * DAY
  /** `expiresIn` of the verify-otp response. */
  const VERIFY_EXPIRES_IN: int := 604800
  /** How far back register looks for a verified code. */
  const REGISTER_WINDOW: int := 10 * MINUTE
  /** `expiresIn` of the forgot-password response. */
  const RESET_EXPIRES_IN: int := 300
  const WRONG_CODE: string := "Código incorreto"
  const CODE_GONE: string := "Código inválido ou expirado. Solicite um novo."

  datatype World = World(
    otp: OtpService.OtpTable,
    sessions: Sessions.SessionState,
    users: map<string, User>,
    verifiedPhones: map<string, int>)

  /** No OTP rows, no tokens, no users, no marks. */
  const EMPTY_WORLD: World :=
    World(OtpService.OtpTable([], 1, map[]), Sessions.SessionState(map[], 1, map[], map[]), map[], map[])

  /** `users.phone` is unique, so the users are keyed by it. */
  predicate UsersByPhone(users: map<string, User>)
  {
    forall p :: p in users ==> users[p].phone == p
  }

  predicate WellFormed(w: World)
  {
    OtpService.WellFormed(w.otp) && Sessions.WellFormed(w.sessions) && UsersByPhone(w.users)
  }

  function Text(v: Json): string
  {
    if v.JStr? then v.s else ""
  }

  function OptionalText(v: Json): Option<string>
  {
    if v.JStr? then Some(v.s) else None
  }

  function AddressOf(v: Json): Option<map<string, Json>>
  {
    if v.JObj? then Some(v.fields) else None
  }

  /** The emails already taken, for `unique:users,email`. */
  function Emails(users: map<string, User>): set<string>
  {
    set p | p in users && users[p].email.Some? :: users[p].email.value
  }

  // ---------------------------------------------------------------------
  // Responses
  // ---------------------------------------------------------------------

  datatype SendResponse =
    | SendInvalidPhone                                           // 422
    | SendRateLimited(retryAfter: int)                           // 429 RATE_LIMITED
    | CodeSent(userExists: bool, expiresIn: int, remaining: int) // 200

  datatype VerifyResponse =
    | InvalidOtp(attemptsRemaining: int, message: string)       // 401 INVALID_OTP
    | NeedsRegistration(phone: string, verifiedUntil: int)       // 200
    | SignedIn(token: Sessions.Plaintext, refreshToken: Sessions.Plaintext, user: User, expiresIn: int)

  datatype AuthResponse =
    | TokensIssued(status: int, token: Sessions.Plaintext, refreshToken: Sessions.Plaintext, user: User, expiresIn: int)
    | Unprocessable(failures: set<RegisterRequest.Attribute>)  // 422
    | AddressRaised                                             // 500: the address rewrite threw
    | OtpNotVerified                                            // 400 OTP_NOT_VERIFIED
    | InvalidCredentials                                        // 401 INVALID_CREDENTIALS

  datatype ForgotResponse =
    | ForgotInvalidPhone                 // 422
    | UserNotFound                       // 404 USER_NOT_FOUND
    | ForgotRateLimited(retryAfter: int) // 429 RATE_LIMITED
    | ResetCodeSent(expiresIn: int)      // 200

  datatype ResetResponse =
    | ResetInvalidInput   // 422
    | ResetInvalidOtp     // 401 INVALID_OTP
    | ResetUserNotFound   // 404 from firstOrFail
    | PasswordChanged     // 200

  // ---------------------------------------------------------------------
  // send-otp and resend-otp
  // ---------------------------------------------------------------------

  /** `SendOtpRequest`: `phone` is a required string matching `^[0-9]{11}$`. */
  predicate SendPhoneOk(v: Json)
  {
    RegisterRequest.RequiredString(v) && RegisterRequest.DigitRun(v.s, 11, 11)
  }

  /** `OtpController::send`: refuse while rate limited, otherwise issue a login
      code and report whether the phone has an account and what is left of
      the send budget. */
  function OtpSent(w: World, phone: Json, now: int, draw: int): (World, SendResponse)
    requires 0 <= draw <= 999999
  {
    if !SendPhoneOk(phone) then (w, SendInvalidPhone)
    else if OtpService.IsRateLimited(w.otp.cache, phone.s, now) then
      (w, SendRateLimited(OtpService.RetryAfter(w.otp.cache, phone.s, now)))
    else
      var otp := OtpService.Generated(w.otp, phone.s, Login, now, OtpService.GenerateCode(draw)).0;
      (w.(otp := otp), CodeSent(phone.s in w.users, SEND_EXPIRES_IN, OtpService.RateLimitRemaining(otp.cache, phone.s, now)))
  }

  // ---------------------------------------------------------------------
  // verify-otp
  // ---------------------------------------------------------------------

  /** `OtpController::verify`: the latest login code is read first, for the
      attempt count; then the code is checked. A failure reports the attempts
      left; a verified phone without an account gets a five-minute mark; a
      verified account is marked verified and gets a seven-day access token
      and a refresh token. */
  function OtpVerified(w: World, phone: string, code: string, now: int,
                       accessSecret: string, refreshSecret: string): (World, VerifyResponse)
  {
    var current := OtpService.GetLatestOtp(w.otp.records, phone, Login, now);
    var (otp, found) := OtpService.Verified(w.otp, phone, code, Login, now);
    if found.None? then
      var remaining := if current.Some? then Max(0, VERIFY_ATTEMPTS - (current.value.attempts + 1)) else 0;
      (w.(otp := otp), InvalidOtp(remaining, if remaining > 0 then WRONG_CODE else CODE_GONE))
    else if phone !in w.users then
      (w.(otp := otp, verifiedPhones := w.verifiedPhones[phone := now + VERIFIED_PHONE_TTL]),
       NeedsRegistration(phone, now + VERIFIED_PHONE_TTL))
    else
      var u := w.users[phone].(phoneVerified := true, phoneVerifiedAt := Some(now));
      var (sessions, access, refresh) :=
        Sessions.MintPair(w.sessions, u.id, Some(now + ACCESS_LIFETIME), now, accessSecret, refreshSecret);
      (World(otp, sessions, w.users[phone := u], w.verifiedPhones), SignedIn(access, refresh, u, VERIFY_EXPIRES_IN))
  }

  // ---------------------------------------------------------------------
  // register
  // ---------------------------------------------------------------------

  datatype Admission = Admitted(validated: Request) | Refused(response: AuthResponse)

  /** `RegisterRequest`: prepare, validate against the current users, and
      keep the validated data. */
  function RegisterAdmission(w: World, body: Request, isEmail: string -> bool, isUuid: string -> bool): Admission
  {
    match RegisterRequest.Prepared(body)
    case None => Refused(AddressRaised)
    case Some(d) =>
      var f := RegisterRequest.Failures(d, w.users.Keys, Emails(w.users), isEmail, isUuid);
      if f != {} then Refused(Unprocessable(f)) else Admitted(RegisterRequest.ValidatedData(d))
  }

  /** The registration gate as the controller writes it: some code of the
      phone, of any purpose, with `verified_at` in the last ten minutes. */
  predicate RecentOtpAsWritten(records: seq<OtpRecord>, phone: string, now: int)
  {
    exists i :: 0 <= i < |records| && records[i].phone == phone
      && records[i].verifiedAt.Some? && records[i].verifiedAt.value > now - REGISTER_WINDOW
  }

  /** The registration gate as intended: the live `verified_phone:<phone>`
      mark that only a successful verify-otp writes. */
  predicate PhoneVerificationLive(w: World, phone: string, now: int)
  {
    phone in w.verifiedPhones && now < w.verifiedPhones[phone]
  }

  /** The new row, with the neighbourhood read from the validated `bairroId`. */
  function NewUser(v: Request, id: UserId, now: int): User
  {
    User(id, Text(Get(v, "phone")), Text(Get(v, "password")), OptionalText(Get(v, "nome")),
         OptionalText(Get(v, "email")), OptionalText(Get(v, "bairroId")), AddressOf(Get(v, "address")),
         true, Some(now), {Member}, DEFAULT_NOTIFICATION_SETTINGS)
  }

  /** The new row as the controller builds it: `bairro_id` is read from the
      validated data, where no rule keeps it. */
  function NewUserAsWritten(v: Request, id: UserId, now: int): User
  {
    User(id, Text(Get(v, "phone")), Text(Get(v, "password")), OptionalText(Get(v, "nome")),
         OptionalText(Get(v, "email")), OptionalText(Get(v, "bairro_id")), AddressOf(Get(v, "address")),
         true, Some(now), {Member}, DEFAULT_NOTIFICATION_SETTINGS)
  }

  /** Store the user with the 'user' role and mint the access/refresh pair. */
  function AccountCreated(w: World, u: User, now: int, accessSecret: string, refreshSecret: string,
                          expiresIn: int): (World, AuthResponse)
  {
    var (sessions, access, refresh) := Sessions.MintPair(w.sessions, u.id, None, now, accessSecret, refreshSecret);
    (w.(sessions := sessions, users := w.users[u.phone := u]), TokensIssued(201, access, refresh, u, expiresIn))
  }

  /** `AuthController::register` with the intended gate and field mapping. */
  function Registered(w: World, body: Request, now: int, id: UserId, accessSecret: string, refreshSecret: string,
                      expiresIn: int, isEmail: string -> bool, isUuid: string -> bool): (World, AuthResponse)
  {
    match RegisterAdmission(w, body, isEmail, isUuid)
    case Refused(r) => (w, r)
    case Admitted(v) =>
      if !PhoneVerificationLive(w, Text(Get(v, "phone")), now) then (w, OtpNotVerified)
      else AccountCreated(w, NewUser(v, id, now), now, accessSecret, refreshSecret, expiresIn)
  }

  /** `AuthController::register` as written. */
  function RegisteredAsWritten(w: World, body: Request, now: int, id: UserId, accessSecret: string, refreshSecret: string,
                               expiresIn: int, isEmail: string -> bool, isUuid: string -> bool): (World, AuthResponse)
  {
    match RegisterAdmission(w, body, isEmail, isUuid)
    case Refused(r) => (w, r)
    case Admitted(v) =>
      if !RecentOtpAsWritten(w.otp.records, Text(Get(v, "phone")), now) then (w, OtpNotVerified)
      else AccountCreated(w, NewUserAsWritten(v, id, now), now, accessSecret, refreshSecret, expiresIn)
  }

  // ---------------------------------------------------------------------
  // login
  // ---------------------------------------------------------------------

  /** The `required|string` rules of login. */
  function LoginFailures(phone: Json, password: Json): (f: set<RegisterRequest.Attribute>)
    ensures RegisterRequest.Phone in f <==> !RegisterRequest.RequiredString(phone)
    ensures RegisterRequest.Password in f <==> !RegisterRequest.RequiredString(password)
    ensures f <= {RegisterRequest.Phone, RegisterRequest.Password}
  {
    (if RegisterRequest.RequiredString(phone) then {} else {RegisterRequest.Phone})
    + (if RegisterRequest.RequiredString(password) then {} else {RegisterRequest.Password})
  }

  /** `AuthController::login`: the same refusal for an unknown phone and a
      wrong password; otherwise a token pair. */
  function LoggedIn(w: World, phone: Json, password: Json, now: int, accessSecret: string, refreshSecret: string,
                    expiresIn: int): (World, AuthResponse)
  {
    var f := LoginFailures(phone, password);
    if f != {} then (w, Unprocessable(f))
    else if phone.s !in w.users || w.users[phone.s].password != password.s then (w, InvalidCredentials)
    else
      var u := w.users[phone.s];
      var (sessions, access, refresh) := Sessions.MintPair(w.sessions, u.id, None, now, accessSecret, refreshSecret);
      (w.(sessions := sessions), TokensIssued(200, access, refresh, u, expiresIn))
  }

  // ---------------------------------------------------------------------
  // forgot-password and reset-password
  // ---------------------------------------------------------------------

  /** `ForgotPasswordController::sendResetLink`: the account check comes
      before the rate limit, then a password-reset code is issued. */
  function ResetCodeRequested(w: World, phone: Json, now: int, draw: int): (World, ForgotResponse)
    requires 0 <= draw <= 999999
  {
    if !SendPhoneOk(phone) then (w, ForgotInvalidPhone)
    else if phone.s !in w.users then (w, UserNotFound)
    else if OtpService.IsRateLimited(w.otp.cache, phone.s, now) then
      (w, ForgotRateLimited(OtpService.RetryAfter(w.otp.cache, phone.s, now)))
    else
      (w.(otp := OtpService.Generated(w.otp, phone.s, PasswordReset, now, OtpService.GenerateCode(draw)).0),
       ResetCodeSent(RESET_EXPIRES_IN))
  }

  /** The reset rules: an 11-character phone, a 6-character code, and a
      confirmed password of at least 8 characters. */
  predicate ResetInputOk(phone: Json, code: Json, password: Json, confirmation: Json)
  {
    RegisterRequest.RequiredString(phone) && |phone.s| == 11
    && RegisterRequest.RequiredString(code) && |code.s| == 6
    && RegisterRequest.PasswordOk(password, confirmation)
  }

  /** `ResetPasswordController::reset`: the password-reset code is checked
      (and consumed) before the account is looked up; tokens are not revoked. */
  function PasswordResetDone(w: World, phone: Json, code: Json, password: Json, confirmation: Json,
                             now: int): (World, ResetResponse)
  {
    if !ResetInputOk(phone, code, password, confirmation) then (w, ResetInvalidInput)
    else PasswordResetChecked(w, phone.s, code.s, password.s, now)
  }

  /** The reset once its input has passed validation. */
  function PasswordResetChecked(w: World, phone: string, code: string, password: string, now: int): (World, ResetResponse)
  {
    var (otp, found) := OtpService.Verified(w.otp, phone, code, PasswordReset, now);
    if found.None? then (w.(otp := otp), ResetInvalidOtp)
    else if phone !in w.users then (w.(otp := otp), ResetUserNotFound)
    else (w.(otp := otp, users := w.users[phone := w.users[phone].(password := password)]), PasswordChanged)
  }

  // ---------------------------------------------------------------------
  // Properties
  // ---------------------------------------------------------------------

  /** An accepted send-otp phone is exactly 11 ASCII digits, or 11 digits and
      one final newline. */
  lemma SendPhoneRule(v: Json)
    ensures SendPhoneOk(v) <==> exists s :: v == JStr(s) && RegisterRequest.DigitRun(s, 11, 11)
  {
    if v.JStr? && RegisterRequest.DigitRun(v.s, 11, 11) {
      assert Trim(v.s) != "" by {
        assert !IsTrimmed(v.s[0]);
        assert TrimLeft(v.s) == v.s;
        RegisterRequest.TrimRightKeeps(v.s, 0);
      }
    }
  }

  /** A refused send changes nothing. An accepted one changes only the OTP
      table: the new login code is then the only one of the phone that
      verifies, the response says whether the phone has an account, and the
      remaining budget is three minus the sends in the window, this one
      included. */
  lemma {:induction false} SendEffect(w: World, phone: Json, now: int, draw: int, later: int)
    requires 0 <= draw <= 999999 && 0 <= now <= later
    ensures var (w', r) := OtpSent(w, phone, now, draw);
      && (!SendPhoneOk(phone) ==> w' == w && r == SendInvalidPhone)
      && (SendPhoneOk(phone) && OtpService.IsRateLimited(w.otp.cache, phone.s, now) ==>
            w' == w && r == SendRateLimited(OtpService.RetryAfter(w.otp.cache, phone.s, now)) && r.retryAfter >= 0)
      && (SendPhoneOk(phone) && !OtpService.IsRateLimited(w.otp.cache, phone.s, now) ==>
            && w'.users == w.users && w'.sessions == w.sessions && w'.verifiedPhones == w.verifiedPhones
            && r.CodeSent? && r.expiresIn == OtpService.OTP_TTL && (r.userExists <==> phone.s in w.users)
            && r.remaining == Max(0, OtpService.RATE_LIMIT_MAX - (OtpService.Counter(w.otp.cache, phone.s, now) + 1))
            && |w'.otp.records| == |w.otp.records| + 1
            && w'.otp.records[|w.otp.records|].code == OtpService.GenerateCode(draw)
            && (later < now + OtpService.OTP_TTL <==>
                  Selects(w'.otp.records[|w.otp.records|], phone.s, Some(Login), later))
            && forall i :: 0 <= i < |w.otp.records| ==> !Selects(w'.otp.records[i], phone.s, Some(Login), later))
  {
    if SendPhoneOk(phone) && !OtpService.IsRateLimited(w.otp.cache, phone.s, now) {
      var code := OtpService.GenerateCode(draw);
      OtpService.GenerateSupersedes(w.otp, phone.s, Login, now, code, later);
      OtpService.TrackedCounter(w.otp.cache, phone.s, now, now, phone.s);
    }
  }

  /** Which branch verify-otp takes: a failure exactly when the code does not
      verify as a login code; otherwise the account decides. */
  lemma VerifyBranches(w: World, phone: string, code: string, now: int, a: string, b: string)
    ensures var (w', r) := OtpVerified(w, phone, code, now, a, b);
      var found := OtpService.Verified(w.otp, phone, code, Login, now).1;
      && (r.InvalidOtp? <==> found.None?)
      && (r.NeedsRegistration? <==> found.Some? && phone !in w.users)
      && (r.SignedIn? <==> found.Some? && phone in w.users)
      && w'.otp == OtpService.Verified(w.otp, phone, code, Login, now).0
      && (!r.NeedsRegistration? ==> w'.verifiedPhones == w.verifiedPhones)
  {
  }

  /** A failed verify reports the attempts left on the latest login code
      (zero when there is none), says 'Código incorreto' exactly when some
      are left, and touches neither users, tokens nor marks. */
  lemma VerifyFailure(w: World, phone: string, code: string, now: int, a: string, b: string)
    requires OtpService.Verified(w.otp, phone, code, Login, now).1.None?
    ensures var (w', r) := OtpVerified(w, phone, code, now, a, b);
      var current := OtpService.GetLatestOtp(w.otp.records, phone, Login, now);
      && r.InvalidOtp? && r.attemptsRemaining >= 0
      && (r.message == WRONG_CODE <==> r.attemptsRemaining > 0)
      && (current.None? ==> r.attemptsRemaining == 0)
      && (r.attemptsRemaining > 0 ==> current.Some? && current.value.attempts + 1 < VERIFY_ATTEMPTS)
      && w'.users == w.users && w'.sessions == w.sessions && w'.verifiedPhones == w.verifiedPhones
  {
    assert |WRONG_CODE| != |CODE_GONE|;
  }

  /** A verified phone without an account gets a mark that lets it register
      for exactly five minutes; no token is minted and no user row changes. */
  lemma VerifyNewPhone(w: World, phone: string, code: string, now: int, a: string, b: string)
    requires OtpService.Verified(w.otp, phone, code, Login, now).1.Some? && phone !in w.users
    ensures var (w', r) := OtpVerified(w, phone, code, now, a, b);
      && r == NeedsRegistration(phone, now + VERIFIED_PHONE_TTL)
      && w'.users == w.users && w'.sessions == w.sessions
      && (forall t :: PhoneVerificationLive(w', phone, t) <==> t < now + VERIFIED_PHONE_TTL)
      && (forall p :: p != phone ==> (p in w'.verifiedPhones <==> p in w.verifiedPhones))
  {
  }

  /** A verified account is marked verified now and gets an access token
      with every ability for seven days (the `expiresIn` reported) and a
      refresh-only token for thirty; nothing else about it changes. */
  lemma {:induction false} VerifyKnownUser(w: World, phone: string, code: string, now: int, a: string, b: string)
    requires Sessions.WellFormed(w.sessions)
    requires OtpService.Verified(w.otp, phone, code, Login, now).1.Some? && phone in w.users
    ensures var (w', r) := OtpVerified(w, phone, code, now, a, b);
      && r.SignedIn? && r.expiresIn == ACCESS_LIFETIME
      && r.user == w.users[phone].(phoneVerified := true, phoneVerifiedAt := Some(now))
      && w'.users == w.users[phone := r.user] && w'.verifiedPhones == w.verifiedPhones
      && r.token.id !in w.sessions.tokens && r.refreshToken.id !in w.sessions.tokens
      && w'.sessions.tokens == w.sessions.tokens
           [r.token.id := Sessions.Token(r.user.id, Sessions.ACCESS_NAME, {Sessions.WILDCARD}, a, Some(now + ACCESS_LIFETIME))]
           [r.refreshToken.id := Sessions.Token(r.user.id, Sessions.REFRESH_NAME, {Sessions.REFRESH_ABILITY}, b,
                                                Some(now + Sessions.REFRESH_LIFETIME))]
  {
  }

  /** Sending a login or a password-reset code never writes a
      `verified_phone:` mark; only verify-otp does (`VerifyBranches`). */
  lemma SendsWriteNoMark(w: World, phone: Json, now: int, draw: int)
    requires 0 <= draw <= 999999
    ensures OtpSent(w, phone, now, draw).0.verifiedPhones == w.verifiedPhones
    ensures ResetCodeRequested(w, phone, now, draw).0.verifiedPhones == w.verifiedPhones
  {
  }

  /** A password reset never writes a `verified_phone:` mark. */
  lemma ResetWritesNoMark(w: World, phone: Json, code: Json, password: Json, confirmation: Json, now: int)
    ensures PasswordResetDone(w, phone, code, password, confirmation, now).0.verifiedPhones == w.verifiedPhones
  {
    if ResetInputOk(phone, code, password, confirmation) {
      var v := OtpService.Verified(w.otp, phone.s, code.s, PasswordReset, now);
      var w' := PasswordResetDone(w, phone, code, password, confirmation, now).0;
      assert w' == w.(otp := v.0) || w' == w.(otp := v.0, users := w.users[phone.s := w.users[phone.s].(password := password.s)]);
    }
  }

  /** Changing a password keeps the users keyed by their phone. */
  lemma PasswordKeepsPhones(users: map<string, User>, phone: string, password: string)
    requires UsersByPhone(users) && phone in users
    ensures UsersByPhone(users[phone := users[phone].(password := password)])
  {
  }

  /** A login never writes a `verified_phone:` mark. */
  lemma LoginWritesNoMark(w: World, phone: Json, password: Json, now: int, a: string, b: string, expiresIn: int)
    ensures LoggedIn(w, phone, password, now, a, b, expiresIn).0.verifiedPhones == w.verifiedPhones
  {
  }

  /** A registration never writes a `verified_phone:` mark, and leaves the
      codes it reads alone. */
  lemma RegisterWritesNoMark(w: World, body: Request, now: int, id: UserId, a: string, b: string,
                             expiresIn: int, isEmail: string -> bool, isUuid: string -> bool)
    ensures RegisteredAsWritten(w, body, now, id, a, b, expiresIn, isEmail, isUuid).0.verifiedPhones == w.verifiedPhones
    ensures RegisteredAsWritten(w, body, now, id, a, b, expiresIn, isEmail, isUuid).0.otp == w.otp
  {
  }

  /** The admission of a registration depends on the users alone. */
  lemma SameUsersSameAdmission(w: World, w': World, body: Request, isEmail: string -> bool, isUuid: string -> bool)
    requires w'.users == w.users
    ensures RegisterAdmission(w', body, isEmail, isUuid) == RegisterAdmission(w, body, isEmail, isUuid)
  {
  }

  /** A phone verified for registration can register within the five minutes
      with any request that passes validation. */
  lemma VerifiedPhoneRegisters(w: World, phone: string, code: string, now: int, a: string, b: string,
                               body: Request, later: int, id: UserId, a2: string, b2: string, expiresIn: int,
                               isEmail: string -> bool, isUuid: string -> bool)
    requires OtpService.Verified(w.otp, phone, code, Login, now).1.Some? && phone !in w.users
    requires RegisterAdmission(w, body, isEmail, isUuid).Admitted?
    requires Text(Get(RegisterAdmission(w, body, isEmail, isUuid).validated, "phone")) == phone
    requires now <= later < now + VERIFIED_PHONE_TTL
    ensures var w' := OtpVerified(w, phone, code, now, a, b).0;
      Registered(w', body, later, id, a2, b2, expiresIn, isEmail, isUuid).1.TokensIssued?
  {
    var w' := OtpVerified(w, phone, code, now, a, b).0;
    VerifyNewPhone(w, phone, code, now, a, b);
    SameUsersSameAdmission(w, w', body, isEmail, isUuid);
  }

  /** Superseding a code stamps its `verified_at`, so the gate as written
      opens after two sends and no verification at all: from an empty world,
      send-otp twice and a valid registration request for that phone creates
      the account. The intended gate refuses the same request. */
  lemma {:induction false} SupersededCodeOpensRegistration(phone: string, t: int, d1: int, d2: int, body: Request,
                                                           id: UserId, a: string, b: string, expiresIn: int,
                                                           isEmail: string -> bool, isUuid: string -> bool)
    requires 0 <= t && 0 <= d1 <= 999999 && 0 <= d2 <= 999999
    requires RegisterRequest.DigitRun(phone, 11, 11)
    requires RegisterAdmission(EMPTY_WORLD, body, isEmail, isUuid).Admitted?
    requires Text(Get(RegisterAdmission(EMPTY_WORLD, body, isEmail, isUuid).validated, "phone")) == phone
    ensures var (w1, r1) := OtpSent(EMPTY_WORLD, JStr(phone), t, d1);
            var (w2, r2) := OtpSent(w1, JStr(phone), t + 1, d2);
      && r1.CodeSent? && r2.CodeSent?
      && RecentOtpAsWritten(w2.otp.records, phone, t + 2)
      && RegisteredAsWritten(w2, body, t + 2, id, a, b, expiresIn, isEmail, isUuid).1.TokensIssued?
      && !PhoneVerificationLive(w2, phone, t + 2)
      && Registered(w2, body, t + 2, id, a, b, expiresIn, isEmail, isUuid).1 == OtpNotVerified
  {
    SendPhoneRule(JStr(phone));
    var w0 := EMPTY_WORLD;
    var (w1, r1) := OtpSent(w0, JStr(phone), t, d1);
    assert w1.otp == OtpService.Generated(w0.otp, phone, Login, t, OtpService.GenerateCode(d1)).0;
    var first := OtpService.Generated(w0.otp, phone, Login, t, OtpService.GenerateCode(d1)).1;
    assert w1.otp.records == [first];
    OtpService.TrackedCounter(w0.otp.cache, phone, t, t + 1, phone);
    assert !OtpService.IsRateLimited(w1.otp.cache, phone, t + 1);
    var (w2, r2) := OtpSent(w1, JStr(phone), t + 1, d2);
    assert w2.otp == OtpService.Generated(w1.otp, phone, Login, t + 1, OtpService.GenerateCode(d2)).0;
    assert Selects(first, phone, Some(Login), t + 1);
    assert w2.otp.records[0] == MarkAsVerified(first, t + 1);
    assert RecentOtpAsWritten(w2.otp.records, phone, t + 2);
    SameUsersSameAdmission(w0, w2, body, isEmail, isUuid);
  }

  /** The neighbourhood a client sends never reaches the new account as
      written, because validation drops the `bairro_id` copy; reading the
      validated `bairroId` keeps it. */
  lemma BairroIdLost(w: World, body: Request, id: UserId, now: int, isEmail: string -> bool, isUuid: string -> bool)
    requires RegisterAdmission(w, body, isEmail, isUuid).Admitted?
    requires "bairroId" in body && body["bairroId"].JStr?
    ensures var v := RegisterAdmission(w, body, isEmail, isUuid).validated;
      && NewUserAsWritten(v, id, now).bairroId == None
      && NewUser(v, id, now).bairroId == Some(body["bairroId"].s)
  {
    var d := RegisterRequest.Prepared(body).value;
    RegisterRequest.BairroIdDropped(body);
    RegisterRequest.PreparedChangesOnlyAddress(body);
    assert "bairroId"[0] != "address"[0];
    assert d["bairroId"] == body["bairroId"];
    RegisterRequest.ValidatedShape(d);
  }

  /** A registration that passes creates exactly one user, under a phone not
      yet taken and with a code of that phone verified in the last ten
      minutes, with the 'user' role, the phone verified now, no
      neighbourhood, an address of ruled keys only and the default
      notification settings, and mints an
      access token with every ability and no expiry plus a 30-day refresh
      token; any other outcome changes nothing. */
  lemma {:induction false} RegistrationEffect(w: World, body: Request, now: int, id: UserId, a: string, b: string,
                                              expiresIn: int, isEmail: string -> bool, isUuid: string -> bool)
    requires WellFormed(w)
    ensures var (w', r) := RegisteredAsWritten(w, body, now, id, a, b, expiresIn, isEmail, isUuid);
      && (!r.TokensIssued? ==> w' == w)
      && (r.TokensIssued? ==>
            && r.status == 201 && r.expiresIn == expiresIn && r.user.id == id
            && r.user.phone !in w.users && w'.users == w.users[r.user.phone := r.user] && UsersByPhone(w'.users)
            && r.user.roles == {Member} && r.user.phoneVerified && r.user.phoneVerifiedAt == Some(now)
            && r.user.notificationSettings == DEFAULT_NOTIFICATION_SETTINGS && r.user.bairroId == None
            && (r.user.address.Some? ==> r.user.address.value.Keys <= RegisterRequest.ADDRESS_KEYS)
            && RecentOtpAsWritten(w.otp.records, r.user.phone, now)
            && w'.sessions.tokens == w.sessions.tokens
                 [r.token.id := Sessions.Token(id, Sessions.ACCESS_NAME, {Sessions.WILDCARD}, a, None)]
                 [r.refreshToken.id := Sessions.Token(id, Sessions.REFRESH_NAME, {Sessions.REFRESH_ABILITY}, b,
                                                      Some(now + Sessions.REFRESH_LIFETIME))]
            && r.token.id !in w.sessions.tokens && r.refreshToken.id !in w.sessions.tokens)
  {
    if RegisterAdmission(w, body, isEmail, isUuid).Admitted? {
      AdmittedFields(w, body, isEmail, isUuid);
    }
  }

  /** What the validated data of an admitted registration holds: a phone not
      yet registered, no `bairro_id`, and an address of ruled keys only. */
  lemma AdmittedFields(w: World, body: Request, isEmail: string -> bool, isUuid: string -> bool)
    requires RegisterAdmission(w, body, isEmail, isUuid).Admitted?
    ensures var v := RegisterAdmission(w, body, isEmail, isUuid).validated;
      && Text(Get(v, "phone")) !in w.users
      && OptionalText(Get(v, "bairro_id")) == None
      && (AddressOf(Get(v, "address")).Some? ==> AddressOf(Get(v, "address")).value.Keys <= RegisterRequest.ADDRESS_KEYS)
  {
    var d := RegisterRequest.Prepared(body).value;
    assert RegisterRequest.Passes(d, RegisterRequest.Phone, w.users.Keys, Emails(w.users), isEmail, isUuid);
    RegisterRequest.ValidatedFields(d);
  }

  /** Login refuses an unknown phone and a wrong password alike, changing
      nothing; otherwise it mints a pair for that account and nothing else
      changes. */
  lemma {:induction false} LoginOutcome(w: World, phone: Json, password: Json, now: int, a: string, b: string, expiresIn: int)
    requires Sessions.WellFormed(w.sessions)
    requires RegisterRequest.RequiredString(phone) && RegisterRequest.RequiredString(password)
    ensures var (w', r) := LoggedIn(w, phone, password, now, a, b, expiresIn);
      && (r == InvalidCredentials <==> phone.s !in w.users || w.users[phone.s].password != password.s)
      && (r == InvalidCredentials ==> w' == w)
      && (r != InvalidCredentials ==>
            && r.TokensIssued? && r.status == 200 && r.user == w.users[phone.s] && r.expiresIn == expiresIn
            && w'.users == w.users && w'.otp == w.otp && w'.verifiedPhones == w.verifiedPhones
            && r.token.id !in w.sessions.tokens && r.refreshToken.id !in w.sessions.tokens
            && w'.sessions.tokens == w.sessions.tokens
                 [r.token.id := Sessions.Token(r.user.id, Sessions.ACCESS_NAME, {Sessions.WILDCARD}, a, None)]
                 [r.refreshToken.id := Sessions.Token(r.user.id, Sessions.REFRESH_NAME, {Sessions.REFRESH_ABILITY}, b,
                                                      Some(now + Sessions.REFRESH_LIFETIME))])
  {
  }

  /** Forgot-password: an unknown phone is refused before the rate limit is
      even read, and nothing changes; a known phone draws on the same send
      budget as login codes; the new reset code leaves the login codes of
      the phone exactly as they were. */
  lemma {:induction false} ForgotOrder(w: World, phone: Json, now: int, draw: int, later: int)
    requires 0 <= draw <= 999999 && 0 <= now <= later < now + OtpService.WINDOW_SECONDS
    requires SendPhoneOk(phone)
    ensures var (w', r) := ResetCodeRequested(w, phone, now, draw);
      && (phone.s !in w.users ==> w' == w && r == UserNotFound)
      && (phone.s in w.users && OtpService.IsRateLimited(w.otp.cache, phone.s, now) ==> w' == w && r.ForgotRateLimited?)
      && (phone.s in w.users && !OtpService.IsRateLimited(w.otp.cache, phone.s, now) ==>
            && r == ResetCodeSent(RESET_EXPIRES_IN) && w'.users == w.users && w'.sessions == w.sessions
            && OtpService.Counter(w'.otp.cache, phone.s, later) == OtpService.Counter(w.otp.cache, phone.s, now) + 1
            && |w'.otp.records| == |w.otp.records| + 1
            && w'.otp.records[|w.otp.records|].otpType == PasswordReset
            && forall i :: 0 <= i < |w.otp.records| && w.otp.records[i].otpType == Login ==>
                 w'.otp.records[i] == w.otp.records[i])
  {
    if phone.s in w.users && !OtpService.IsRateLimited(w.otp.cache, phone.s, now) {
      var code := OtpService.GenerateCode(draw);
      OtpService.GenerateSupersedes(w.otp, phone.s, PasswordReset, now, code, now);
      OtpService.TrackedCounter(w.otp.cache, phone.s, now, later, phone.s);
    }
  }

  /** Reset-password: on valid input it fails exactly when the code does not
      verify as a password-reset code; only success changes a password, and
      no outcome revokes a token. A verified code is spent even when the
      account is gone. */
  lemma {:induction false} ResetOutcome(w: World, phone: Json, code: Json, password: Json, confirmation: Json, now: int)
    requires ResetInputOk(phone, code, password, confirmation)
    ensures var (w', r) := PasswordResetDone(w, phone, code, password, confirmation, now);
      var (otp, found) := OtpService.Verified(w.otp, phone.s, code.s, PasswordReset, now);
      && w'.otp == otp && w'.sessions == w.sessions && w'.verifiedPhones == w.verifiedPhones
      && (r == ResetInvalidOtp <==> found.None?)
      && (r == ResetUserNotFound <==> found.Some? && phone.s !in w.users)
      && (r != PasswordChanged ==> w'.users == w.users)
      && (r == PasswordChanged ==>
            phone.s in w.users && w'.users == w.users[phone.s := w.users[phone.s].(password := password.s)])
  {
    var v := OtpService.Verified(w.otp, phone.s, code.s, PasswordReset, now);
    var done := PasswordResetChecked(w, phone.s, code.s, password.s, now);
    assert PasswordResetDone(w, phone, code, password, confirmation, now) == done;
    if v.1.None? {
      assert done == (w.(otp := v.0), ResetInvalidOtp);
    } else if phone.s !in w.users {
      assert done == (w.(otp := v.0), ResetUserNotFound);
    } else {
      assert done == (w.(otp := v.0, users := w.users[phone.s := w.users[phone.s].(password := password.s)]), PasswordChanged);
    }
  }

  /** Codes are bound to their purpose: a login code never resets a password,
      and a password-reset code never signs in or marks a phone. */
  lemma {:induction false} CodesKeepTheirPurpose(w: World, phone: Json, code: Json, password: Json, confirmation: Json,
                                                 now: int, a: string, b: string)
    requires forall i :: 0 <= i < |w.otp.records| ==>
               (w.otp.records[i].phone == Text(phone) && w.otp.records[i].code == Text(code)
                ==> w.otp.records[i].otpType != PasswordReset)
    ensures PasswordResetDone(w, phone, code, password, confirmation, now).1 != PasswordChanged
    ensures PasswordResetDone(w, phone, code, password, confirmation, now).0.users == w.users
  {
    if ResetInputOk(phone, code, password, confirmation) {
      assert OtpService.FirstMatch(w.otp.records, phone.s, PasswordReset, code.s, now).None?;
    }
  }

  /** The reverse direction. */
  lemma {:induction false} ResetCodesNeverSignIn(w: World, phone: string, code: string, now: int, a: string, b: string)
    requires forall i :: 0 <= i < |w.otp.records| ==>
               (w.otp.records[i].phone == phone && w.otp.records[i].code == code ==> w.otp.records[i].otpType != Login)
    ensures var (w', r) := OtpVerified(w, phone, code, now, a, b);
      r.InvalidOtp? && w'.users == w.users && w'.sessions == w.sessions && w'.verifiedPhones == w.verifiedPhones
  {
    assert OtpService.FirstMatch(w.otp.records, phone, Login, code, now).None?;
  }

  /** A failed login verification is charged to the latest valid code of the
      phone whatever its purpose, so while a newer password-reset code is
      valid, wrong login codes count against it and leave the login code's
      attempts where they were. */
  lemma {:induction false} WrongLoginCodeChargesNewerResetCode(w: World, phone: string, code: string, now: int,
                                                               i: nat, a: string, b: string)
    requires i < |w.otp.records| - 1
    requires Selects(w.otp.records[i], phone, Some(Login), now)
    requires Selects(w.otp.records[|w.otp.records| - 1], phone, Some(PasswordReset), now)
    requires OtpService.FirstMatch(w.otp.records, phone, Login, code, now).None?
    ensures var (w', r) := OtpVerified(w, phone, code, now, a, b);
      var j := |w.otp.records| - 1;
      && r.InvalidOtp?
      && w'.otp.records[i] == w.otp.records[i]
      && w'.otp.records[j].attempts == w.otp.records[j].attempts + 1
  {
    var j := |w.otp.records| - 1;
    OtpService.WrongCodeCharges(w.otp, phone, code, Login, now);
    assert OtpService.LatestMatch(w.otp.records, phone, None, now) == Some(j);
  }

  // ---------------------------------------------------------------------
  // The application object
  // ---------------------------------------------------------------------

  /** The controllers over one OTP store, one token store, the users table
      and the `verified_phone:` cache marks. */
  class AuthApp {
    const otp: OtpService.OtpStore
    const sessions: Sessions.SessionStore
    var users: map<string, User>
    var verifiedPhones: map<string, int>

    function State(): World
      reads this, otp, sessions
    {
      World(otp.Table(), sessions.State(), users, verifiedPhones)
    }

    ghost predicate Valid()
      reads this, otp, sessions
    {
      otp.Valid() && sessions.Valid() && UsersByPhone(users)
    }

    constructor (expiresIn: int)
      ensures Valid() && State() == EMPTY_WORLD && sessions.expiresIn == expiresIn
      ensures fresh(otp) && fresh(sessions)
    {
      otp := new OtpService.OtpStore();
      sessions := new Sessions.SessionStore(expiresIn);
      users := map[];
      verifiedPhones := map[];
    }

    /** The two `createToken` calls every successful login path makes. */
    method IssueTokens(user: UserId, accessExpiry: Option<int>, now: int, accessSecret: string, refreshSecret: string)
      returns (access: Sessions.Plaintext, refresh: Sessions.Plaintext)
      requires sessions.Valid()
      modifies sessions`tokens, sessions`nextId
      ensures sessions.Valid()
      ensures (sessions.State(), access, refresh)
              == Sessions.MintPair(old(sessions.State()), user, accessExpiry, now, accessSecret, refreshSecret)
    {
      access := sessions.CreateToken(user, Sessions.ACCESS_NAME, {Sessions.WILDCARD}, accessExpiry, accessSecret);
      refresh := sessions.CreateToken(user, Sessions.REFRESH_NAME, {Sessions.REFRESH_ABILITY},
                                      Some(now + Sessions.REFRESH_LIFETIME), refreshSecret);
    }

    method Send(phone: Json, now: int, draw: int) returns (r: SendResponse)
      requires Valid() && OtpService.CreatedBy(otp.records, now) && 0 <= draw <= 999999
      modifies otp
      ensures Valid()
      ensures (State(), r) == OtpSent(old(State()), phone, now, draw)
    {
      if !SendPhoneOk(phone) {
        return SendInvalidPhone;
      }
      if OtpService.IsRateLimited(otp.cache, phone.s, now) {
        return SendRateLimited(OtpService.RetryAfter(otp.cache, phone.s, now));
      }
      var userExists := phone.s in users;
      var code := otp.Generate(phone.s, OtpType.Login, now, draw);
      r := CodeSent(userExists, SEND_EXPIRES_IN, OtpService.RateLimitRemaining(otp.cache, phone.s, now));
    }

    /** `resend` delegates to `send`. */
    method Resend(phone: Json, now: int, draw: int) returns (r: SendResponse)
      requires Valid() && OtpService.CreatedBy(otp.records, now) && 0 <= draw <= 999999
      modifies otp
      ensures Valid()
      ensures (State(), r) == OtpSent(old(State()), phone, now, draw)
    {
      r := Send(phone, now, draw);
    }

    method Verify(phone: string, code: string, now: int, accessSecret: string, refreshSecret: string)
      returns (r: VerifyResponse)
      requires Valid()
      modifies this, otp, sessions
      ensures Valid()
      ensures (State(), r) == OtpVerified(old(State()), phone, code, now, accessSecret, refreshSecret)
    {
      var current := OtpService.GetLatestOtp(otp.records, phone, OtpType.Login, now);
      var found := otp.Verify(phone, code, OtpType.Login, now);
      if found.None? {
        var remaining := if current.Some? then Max(0, VERIFY_ATTEMPTS - (current.value.attempts + 1)) else 0;
        return InvalidOtp(remaining, if remaining > 0 then WRONG_CODE else CODE_GONE);
      }
      if phone !in users {
        verifiedPhones := verifiedPhones[phone := now + VERIFIED_PHONE_TTL];
        return NeedsRegistration(phone, now + VERIFIED_PHONE_TTL);
      }
      var u := users[phone].(phoneVerified := true, phoneVerifiedAt := Some(now));
      users := users[phone := u];
      var access, refresh := IssueTokens(u.id, Some(now + ACCESS_LIFETIME), now, accessSecret, refreshSecret);
      r := SignedIn(access, refresh, u, VERIFY_EXPIRES_IN);
    }

    method Register(body: Request, now: int, id: UserId, accessSecret: string, refreshSecret: string,
                    isEmail: string -> bool, isUuid: string -> bool) returns (r: AuthResponse)
      requires Valid()
      modifies this, sessions
      ensures Valid()
      ensures (State(), r) == RegisteredAsWritten(old(State()), body, now, id, accessSecret, refreshSecret,
                                                  sessions.expiresIn, isEmail, isUuid)
    {
      var form := new RegisterRequest.RegisterForm(body);
      var prepared := form.PrepareForValidation();
      if !prepared {
        return AddressRaised;
      }
      var failures := RegisterRequest.Failures(form.input, users.Keys, Emails(users), isEmail, isUuid);
      if failures != {} {
        return Unprocessable(failures);
      }
      var v := form.Validated();
      var phone := Text(Get(v, "phone"));
      if !RecentOtpAsWritten(otp.records, phone, now) {
        return OtpNotVerified;
      }
      var u := NewUserAsWritten(v, id, now);
      RegistrationEffect(old(State()), body, now, id, accessSecret, refreshSecret, sessions.expiresIn, isEmail, isUuid);
      users := users[u.phone := u];
      var access, refresh := IssueTokens(u.id, None, now, accessSecret, refreshSecret);
      r := TokensIssued(201, access, refresh, u, sessions.expiresIn);
    }

    method Login(phone: Json, password: Json, now: int, accessSecret: string, refreshSecret: string)
      returns (r: AuthResponse)
      requires Valid()
      modifies sessions
      ensures Valid()
      ensures (State(), r) == LoggedIn(old(State()), phone, password, now, accessSecret, refreshSecret, sessions.expiresIn)
    {
      var failures := LoginFailures(phone, password);
      if failures != {} {
        return Unprocessable(failures);
      }
      if phone.s !in users || users[phone.s].password != password.s {
        return InvalidCredentials;
      }
      var u := users[phone.s];
      var access, refresh := IssueTokens(u.id, None, now, accessSecret, refreshSecret);
      r := TokensIssued(200, access, refresh, u, sessions.expiresIn);
    }

    method SendResetLink(phone: Json, now: int, draw: int) returns (r: ForgotResponse)
      requires Valid() && OtpService.CreatedBy(otp.records, now) && 0 <= draw <= 999999
      modifies otp
      ensures Valid()
      ensures (State(), r) == ResetCodeRequested(old(State()), phone, now, draw)
    {
      if !SendPhoneOk(phone) {
        return ForgotInvalidPhone;
      }
      if phone.s !in users {
        return UserNotFound;
      }
      if OtpService.IsRateLimited(otp.cache, phone.s, now) {
        return ForgotRateLimited(OtpService.RetryAfter(otp.cache, phone.s, now));
      }
      var code := otp.Generate(phone.s, PasswordReset, now, draw);
      r := ResetCodeSent(RESET_EXPIRES_IN);
    }

    method Reset(phone: Json, code: Json, password: Json, confirmation: Json, now: int) returns (r: ResetResponse)
      requires Valid()
      modifies this, otp
      ensures Valid()
      ensures (State(), r) == PasswordResetDone(old(State()), phone, code, password, confirmation, now)
    {
      if !ResetInputOk(phone, code, password, confirmation) {
        return ResetInvalidInput;
      }
      r := ResetChecked(phone.s, code.s, password.s, now);
    }

    /** The body of `reset` after `validate`: verify the code, find the
        account, write the new password. */
    method ResetChecked(phone: string, code: string, password: string, now: int) returns (r: ResetResponse)
      requires Valid()
      modifies this, otp
      ensures Valid()
      ensures (State(), r) == PasswordResetChecked(old(State()), phone, code, password, now)
    {
      var found := otp.Verify(phone, code, PasswordReset, now);
      if found.None? {
        return ResetInvalidOtp;
      }
      if phone !in users {
        return ResetUserNotFound;
      }
      PasswordKeepsPhones(users, phone, password);
      users := users[phone := users[phone].(password := password)];
      r := PasswordChanged;
    }
  }
}
