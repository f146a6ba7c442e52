# eTijucas API: a verified model of the authentication core and the forum and event rules

This project models the parts of the eTijucas Laravel API that hold state and should be stated exactly, and proves their properties in Dafny. Time is an integer count of seconds. Random draws, hashes, the messaging API and the framework's helpers are inputs.

- **One-time codes** (`otp_codes`, `otp_service`). The `otp_codes` table is a sequence of rows. Each phone has a rate-limit window in the cache. This covers issuing a code (older codes for the same purpose are retired), checking a code (with the attempt charge and the lockout), the rate-limit readers and the daily cleanup. `OtpService.OtpStore` is a class that makes these changes in place.
- **Sessions** (`sessions`). Personal access tokens, the 20-second grace cache and the rotation lock. Refresh is split into its phases, so that a duplicate request arriving while the first still holds the lock can be stated. Logout is modelled too. `Sessions.SessionStore` is the class.
- **Authentication endpoints** (`auth_flows`, `register_request`, `password_resets`). Send, verify and resend a login code; register; log in with a password; ask for a password reset and use one. Each is a transition of one world that holds the OTP table, the tokens, the users and the verified-phone marks. `AuthFlows.AuthApp` is the class.
- **Users and moderation** (`users`, `restrictions`, `content_flags`, `admin_forum`, `policies`). Roles and permissions, the admin-panel gate, when a restriction is active, the moderator actions on a content flag, the forum suspension and every policy ability.
- **Forum** (`topics`, `comments`, `topic_requests`, `forum`, `resources`). The hot score, the period filter, the edit window and the counters. Comment depth. The edit form request. Topic show, store, update and destroy; likes and saves; comments and their likes; reports. The author block that anonymity masks. `Forum.ForumBoard` holds the tables and keeps the counters equal to the pivot rows.
- **Events** (`events`, `event_actions`, `event_resource`, `tickets`, `places`). Time predicates, date-range and time-of-day filters, guest sums and the popularity score. Creating, changing and cancelling an RSVP, with one RSVP per user and event. The public attendee list and the favourite toggle. Link grouping in the event resource. Ticket lots, the tag usage counter, venue addresses and organiser links.
- **Services and middleware** (`neighborhoods`, `user_profile`, `whatsapp`, `exception_handler`, `cache_headers`). Finding or creating a neighbourhood, the profile update and the settings merge, the WhatsApp payload, the JSON error mapping and the cache-header policies.

Where the code has a defect (see Findings), the members that model an operation follow the code as written. The corrected definition and its property are stated beside them.

Behaviours of the code that the model keeps:

- `latest()` orders by `created_at`, newest first. Rows are inserted with the current time, and the model takes it that the clock does not run backwards. The table order is then `created_at` order (`OtpService.WellFormed`, `EventActions.CreatedOrdered`), and `latest()->first()` is a row with the newest `created_at`. A bare `first()` picks the earliest row.
- Each send restarts the rate-limit window: its end moves to five minutes after that send. All purposes share one budget.
- A wrong code charges the newest valid code of the phone, of any purpose. A wrong login code can therefore use up an attempt of a newer password-reset code.
- The attempts left after a failure are `max(0, 5 - (a + 1))`. Here `a` is the count read before the charge.
- Issuing a code stamps `verified_at` on the older valid codes of the same phone and purpose. Registration reads that stamp.
- An access token carries the `*` ability, so it passes the `can('refresh')` check.
- Refresh releases its lock in `finally` on every exit, including the path where the lock was never acquired. The release checks the lock's owner, so on that path it changes nothing.
- Verify-code mints a 7-day access token and reports `expiresIn` 604800. Refresh reports the configured `sanctum.expiration`, 3600 by default.
- The edit-window error of the topic edit request cannot be reached, because the policy has already refused the request.
- `show` refuses the author of a topic that is not Active, although the view policy admits them.
- Like, save and report do not consult the policies.
- The topic listing tests its filters with Laravel's `filled`, for which "0" is a value, while `findOrCreate` and the other services test PHP truthiness, for which it is not.
- Hiding a topic validates the input before it checks authorisation.
- A reply whose parent was soft-deleted gets depth 0 or 1.
- A negative `perPage` lists everything, and a `perPage` of 0 falls back to the paginator's 15.
- `ensureExists` passes `cidade`, `uf` and `ativo` to `create`, but `Bairro` makes only `nome`, `slug` and `active` fillable, so those three keys are dropped. A new row gets `active` from the column default, and the instance returned does not hold it. A name that misses the lookup but has a slug that is already taken fails on the unique index.
- `getRsvpData` takes ten going RSVPs before it drops those without a user.
- The `going_count` and `maybe_count` accessors always run a query, so the `?? 0` in `getRsvpData` never applies.
- A favourite that is removed and added again gets the new time.
- A `Retry-After` header written as an HTTP date reads as 0.

## Model

| member | source | states |
|---|---|---|
| OtpCodes.IncrementAttempts | app/Models/OtpCode.php:98-101 | attempts rises by exactly one; every other field, the verified flag and validity at every moment are unchanged |
| OtpCodes.MarkAsVerified | app/Models/OtpCode.php:106-109 | verified_at becomes now, the row counts as verified and is never valid again, no other field changes |
| OtpCodes.ValidIsNotExpired | app/Models/OtpCode.php:45-49 | a valid row is not expired; at expires_at == now a row is neither valid nor expired |
| OtpCodes.ValidityShrinks | app/Models/OtpCode.php:45-49 | a row valid at a later time was valid at every earlier time |
| OtpService.DecimalString | app/Services/OtpService.php:153 | `(string) $n` of a natural number is a non-empty string of digits |
| OtpService.PadLeft | app/Services/OtpService.php:153 | `str_pad(..., STR_PAD_LEFT)` has length max( | s | , width) |
| OtpService.PadLeftShape | app/Services/OtpService.php:153 | the padded string is fill characters followed by the original |
| OtpService.DecimalStringValue | app/Services/OtpService.php:153 | reading the decimal string back gives the number |
| OtpService.DecimalStringLength | app/Services/OtpService.php:153 | a number below 10^k has at most max(k, 1) digits |
| OtpService.LeadingZerosValue | app/Services/OtpService.php:153 | leading zeros do not change the value of a digit string |
| OtpService.AllZerosValue | app/Services/OtpService.php:153 | a string of zeros is a digit string of value 0 |
| OtpService.GenerateCode | app/Services/OtpService.php:151-154 | the code of a draw in [0, 999999] is six decimal digits |
| OtpService.GenerateCodeValue | app/Services/OtpService.php:151-154 | the six digits spell the draw: their value is the draw |
| OtpService.GenerateCodeInjective | app/Services/OtpService.php:151-154 | two draws give the same code exactly when they are equal |
| OtpService.RateLimitKey | app/Services/OtpService.php:198-201 | the key is the prefix "otp_rate_limit:" followed by the phone, so it depends on the phone only |
| OtpService.RateLimitKeyInjective | app/Services/OtpService.php:198-201 | two phones share a key exactly when they are equal |
| OtpService.RetryAfter | app/Services/OtpService.php:116-126 | never negative; positive only while the phone's window marker is alive, and then the seconds left |
| OtpService.RateLimitRemaining | app/Services/OtpService.php:131-137 | max(0, 3 - counter); zero exactly when the phone is rate limited (counter >= 3) |
| OtpService.TrackedCounter | app/Services/OtpService.php:159-167 | a send raises the phone's counter by one and restarts its 300 s window; after the window the counter reads 0; other phones are untouched |
| OtpService.ClearedCounter | app/Services/OtpService.php:188-193 | after a clear the phone has counter 0, retry-after 0 and is not rate limited; other phones are untouched |
| OtpService.FourthSendLimited | app/Services/OtpService.php:105-167 | three sends each within the window of the previous one are allowed, a fourth is refused with a positive retry-after; the window is measured from the latest send |
| OtpService.FirstMatch | app/Services/OtpService.php:64-68 | the lowest-index valid row of the phone and type carrying the code, or none when no row matches |
| OtpService.LatestMatch | app/Services/OtpService.php:93-178 | the highest-index valid row of the phone (and type when one is given), or none when no row qualifies; with rows in created_at order no selected row has a later created_at, so it is the row latest() picks |
| OtpService.GetLatestOtp | app/Services/OtpService.php:93-100 | the row returned is in the table and valid for the phone and type, and no such row has a newer created_at when the table is in creation order; none means no such row exists |
| OtpService.Supersede | app/Services/OtpService.php:37-40 | the bulk update keeps the number of rows |
| OtpService.ChargeFailure | app/Services/OtpService.php:172-183 | the charge keeps the number of rows |
| OtpService.KeepRecent | app/Services/OtpService.php:144-145 | a row survives exactly when it is in the table and its expires_at is not before the cutoff |
| OtpService.KeepRecentOrdered | app/Services/OtpService.php:144-145 | deleting rows keeps the survivors in id order and in created_at order |
| OtpService.GeneratedWellFormed | app/Services/OtpService.php:34-57 | when no row was created after now, generate keeps the ids increasing, below the next id and the rows in created_at order |
| OtpService.SupersedeKeepsIds | app/Services/OtpService.php:37-40 | the bulk update keeps every row's id |
| OtpService.AppendKeepsWellFormed | app/Services/OtpService.php:46-51 | appending the new row with the next id and a created_at no earlier than any row keeps the ids increasing and the created_at order |
| OtpService.VerifiedWellFormed | app/Services/OtpService.php:62-88 | verify keeps the table well formed |
| OtpService.TailOrdered | app/Services/OtpService.php:144-145 | dropping the first row keeps the ids increasing and the created_at order |
| OtpService.PrependOrdered | app/Services/OtpService.php:144-145 | putting the first row back before survivors of the rest keeps both orders |
| OtpService.CleanedWellFormed | app/Services/OtpService.php:142-146 | cleanup keeps the table well formed |
| OtpService.GenerateSupersedes | app/Services/OtpService.php:34-57 | after generate there is one more row, the new row; no earlier row is valid for the phone and type now or later; the new row is valid exactly for 300 s; rows of other phones or types are untouched |
| OtpService.GeneratedRow | app/Services/OtpService.php:43-154 | the new row has the phone and type, a six-digit zero-padded code whose value is the draw, attempts 0, expires_at = now + 300 and no verified_at |
| OtpService.WrongCodeCharges | app/Services/OtpService.php:64-183 | with no matching row, verify returns none and adds one to the attempts of the latest valid row of the phone of any type, changing nothing else |
| OtpService.LockedOutChangesNothing | app/Services/OtpService.php:77-79 | a matching row with attempts >= 5 is refused and the state is unchanged |
| OtpService.VerifySuccess | app/Services/OtpService.php:82-87 | success returns the matched row stamped verified, never valid again, and the phone's counter reads 0 |
| OtpService.ConsumedNeverVerifies | app/Services/OtpService.php:64-82 | a consumed row stays consumed and is never returned again: each code verifies at most once |
| OtpService.LockoutHolds | app/Services/OtpService.php:77-79 | a row at the attempt limit stays there and is never returned, whatever code is presented |
| OtpService.SecondCodeRetiresFirst | app/Services/OtpService.php:37-68 | after a second generate for the same phone and type, the first code verifies only the second row, and only when both codes are equal |
| OtpService.CleanupExact | app/Services/OtpService.php:142-146 | cleanup keeps exactly the rows with expires_at not before now - 24 h, returns how many it deleted and leaves the cache alone |
| OtpService.OtpStore.Generate | app/Services/OtpService.php:34-57 | with no row created after now, the new row's code is generateCode of the draw and the table becomes Generated of the old table |
| OtpService.OtpStore.Verify | app/Services/OtpService.php:62-88 | the table and result are Verified of the old table |
| OtpService.OtpStore.Cleanup | app/Services/OtpService.php:142-146 | the table and count are Cleaned of the old table |
| OtpService.OtpStore.TrackRateLimit | app/Services/OtpService.php:159-167 | the cache becomes Tracked of the old cache |
| OtpService.OtpStore.IncrementFailedAttempt | app/Services/OtpService.php:172-183 | the rows become ChargeFailure of the old rows |
| OtpService.OtpStore.ClearRateLimit | app/Services/OtpService.php:188-193 | the cache becomes Cleared of the old cache |
| OtpService.OtpStore.constructor | app/Services/OtpService.php:9 | the store starts with no OTP rows and no rate-limit entries |
| Sessions.FindToken | app/Http/Controllers/Auth/AuthController.php:126 | a plaintext finds a token exactly when its id is a stored row whose secret matches, and then that id |
| Sessions.CreateTokenWellFormed | app/Http/Controllers/Auth/AuthController.php:54-55 | createToken stores the new row under the next unused id and its plaintext finds it again |
| Sessions.RefreshWellFormed | app/Http/Controllers/Auth/AuthController.php:110-177 | every path of refresh keeps token ids unique and below the counter |
| Sessions.GraceReplays | app/Http/Controllers/Auth/AuthController.php:119-123 | a live grace entry is answered verbatim and nothing changes |
| Sessions.InvalidTokenRejected | app/Http/Controllers/Auth/AuthController.php:126-135 | with no grace entry, the answer is 401 with no change exactly when the token is unknown, lacks the refresh ability or is past its expiry |
| Sessions.ContendedNeverRotates | app/Http/Controllers/Auth/AuthController.php:139-152 | a request that finds another owner's live lock changes nothing and answers with the grace entry present one second later, or 429 |
| Sessions.RotateEffect | app/Http/Controllers/Auth/AuthController.php:155-173 | the rotation deletes exactly the presented token, adds an access token (abilities `*`, no expiry) and a refresh token (ability `refresh`, 30 days) for the same user under fresh ids, caches the pair for 20 s and releases its lock |
| Sessions.RotationEffect | app/Http/Controllers/Auth/AuthController.php:110-177 | a refresh that takes the lock returns the new pair, removes the presented token, keeps every other token, raises the count by one and leaves no lock on it |
| Sessions.NewRefreshTokenUsable | app/Http/Controllers/Auth/AuthController.php:159 | the new refresh token is found, carries the refresh ability and is not past its expiry for thirty days |
| Sessions.RepeatAfterRotation | app/Http/Controllers/Auth/AuthController.php:119-168 | the same plaintext presented again within 20 s gets the identical pair with no change; after 20 s it gets 401 |
| Sessions.RacingRefreshes | app/Http/Controllers/Auth/AuthController.php:139-173 | of two overlapping requests with one token, the second finds the lock taken and, after its wait, returns the pair the first minted; only one pair is minted and no lock remains |
| Sessions.LockReleasedOnEveryExit | app/Http/Controllers/Auth/AuthController.php:172-174 | on every path the request leaves no lock of its own and never changes a lock held by another owner |
| Sessions.DeletedStaysDeleted | app/Http/Controllers/Auth/AuthController.php:155-159 | a deleted token id is never reissued, so its plaintext never finds a token again |
| Sessions.LogoutEffect | app/Http/Controllers/Auth/AuthController.php:182-200 | with allDevices only and all of the user's tokens go; otherwise only the current token goes; nothing else changes |
| Sessions.LogoutAllStopsRefresh | app/Http/Controllers/Auth/AuthController.php:110-189 | after logging out of all devices, a refresh with one of the user's tokens changes nothing and answers 401 or a still-live grace entry |
| Sessions.AccessTokenPassesRefreshCheck | app/Http/Controllers/Auth/AuthController.php:54-128 | an access token (abilities `*`) passes the can('refresh') check, so refresh takes its lock and rotates it |
| Sessions.SessionStore.constructor | app/Http/Controllers/Auth/AuthController.php:110 | an empty store with the configured access-token lifetime |
| Sessions.SessionStore.CreateToken | app/Http/Controllers/Auth/AuthController.php:54-55 | the state and plaintext are TokenCreated of the old state |
| Sessions.SessionStore.BeginRefresh | app/Http/Controllers/Auth/AuthController.php:110-142 | the state and phase are Begin of the old state |
| Sessions.SessionStore.FinishRotation | app/Http/Controllers/Auth/AuthController.php:155-173 | the state and answer are Rotate of the old state |
| Sessions.SessionStore.FinishWaiting | app/Http/Controllers/Auth/AuthController.php:143-173 | the state and answer are AfterWait of the old state |
| Sessions.SessionStore.ReleaseLock | app/Http/Controllers/Auth/AuthController.php:172-174 | the state is Release of the old state |
| Sessions.SessionStore.Refresh | app/Http/Controllers/Auth/AuthController.php:110-177 | the state and answer are Refreshed of the old state, and the store stays well formed |
| Sessions.SessionStore.Logout | app/Http/Controllers/Auth/AuthController.php:182-200 | the state is LoggedOut of the old state and the call always succeeds |
| AuthFlows.LoginFailures | app/Http/Controllers/Auth/AuthController.php:72-75 | phone and password are each refused exactly when not a required string, and nothing else is reported |
| AuthFlows.SendPhoneRule | app/Http/Requests/Auth/SendOtpRequest.php:22-31 | a send-otp phone is accepted exactly when it is a string of 11 ASCII digits (the `$` anchor also admits one final newline) |
| AuthFlows.SendEffect | app/Http/Controllers/Auth/OtpController.php:34-68 | a bad phone or a rate-limited one changes nothing (with retry-after >= 0); otherwise only the OTP table changes, the new login code is the only one of the phone that verifies, for 300 s, `userExists` says whether the phone has an account and `remaining` is 3 minus the sends in the window |
| AuthFlows.VerifyBranches | app/Http/Controllers/Auth/OtpController.php:87-148 | verify-otp fails exactly when the code does not verify as a login code; otherwise it asks for registration exactly when the phone has no account and signs in exactly when it has one; only the registration branch writes a mark |
| AuthFlows.VerifyFailure | app/Http/Controllers/Auth/OtpController.php:93-112 | a failure reports attempts left >= 0 on the latest login code (0 when none), the "Código incorreto" message exactly when some are left, and changes no user, token or mark |
| AuthFlows.VerifyNewPhone | app/Http/Controllers/Auth/OtpController.php:115-130 | a verified phone without an account gets a `verified_phone:` mark that is live for exactly five minutes; no token or user changes and other phones' marks are untouched |
| AuthFlows.VerifyKnownUser | app/Http/Controllers/Auth/OtpController.php:133-168 | a verified account is marked phone_verified now and gets a 7-day access token with every ability and a 30-day refresh token under fresh ids; expiresIn is 604800 |
| AuthFlows.SendsWriteNoMark | app/Http/Controllers/Auth/OtpController.php:34-68 | sending a login or password-reset code never writes a `verified_phone:` mark |
| AuthFlows.ResetWritesNoMark | app/Http/Controllers/Auth/ResetPasswordController.php:25-62 | a password reset never writes a `verified_phone:` mark |
| AuthFlows.LoginWritesNoMark | app/Http/Controllers/Auth/AuthController.php:70-98 | a login never writes a `verified_phone:` mark |
| AuthFlows.RegisterWritesNoMark | app/Http/Controllers/Auth/AuthController.php:20-63 | registration as written never writes a `verified_phone:` mark and leaves the OTP table alone |
| AuthFlows.SameUsersSameAdmission | app/Http/Requests/Auth/RegisterRequest.php:23-100 | the validation of a registration depends on the users table alone (the unique rules) |
| AuthFlows.VerifiedPhoneRegisters | app/Http/Controllers/Auth/OtpController.php:117-123 | within five minutes of verifying a new phone, any registration request for it that passes validation creates the account (intended gate) |
| AuthFlows.SupersededCodeOpensRegistration | app/Http/Controllers/Auth/AuthController.php:24-36 | two send-otp calls and no verification let a valid registration through the gate as written, because superseding stamps verified_at; the intended gate refuses the same request |
| AuthFlows.BairroIdLost | app/Http/Controllers/Auth/AuthController.php:44 | as written the new account never gets the bairro the client sent, because no rule keeps `bairro_id`; reading the validated `bairroId` keeps it |
| AuthFlows.RegistrationEffect | app/Http/Controllers/Auth/AuthController.php:20-63 | registration as written: a passing request adds exactly one user under an unused phone that has a code with verified_at in the last ten minutes, with the user role, phone verified now, default settings, no neighbourhood and an address of ruled keys only, and mints an access token (all abilities, no expiry) and a 30-day refresh token; any refusal changes nothing |
| AuthFlows.AdmittedFields | app/Http/Controllers/Auth/AuthController.php:20-44 | the validated data of an admitted registration has an unused phone, no bairro_id and an address of ruled keys only |
| AuthFlows.LoginOutcome | app/Http/Controllers/Auth/AuthController.php:70-98 | INVALID_CREDENTIALS exactly for an unknown phone or a wrong password, with no change; otherwise a 200 with that user and a new pair, and nothing else changes |
| AuthFlows.ForgotOrder | app/Http/Controllers/Auth/ForgotPasswordController.php:25-63 | an unknown phone is refused before the rate limit and nothing changes; a rate-limited one is refused unchanged; otherwise a reset code is added, the shared send counter rises by one and the phone's login codes are untouched |
| AuthFlows.ResetOutcome | app/Http/Controllers/Auth/ResetPasswordController.php:25-62 | on valid input the reset fails exactly when the code does not verify as a password-reset code, reports a missing account after consuming the code, changes the password only on success and revokes no token |
| AuthFlows.CodesKeepTheirPurpose | app/Http/Controllers/Auth/ResetPasswordController.php:33-37 | with no password-reset code matching, a reset never changes a password |
| AuthFlows.ResetCodesNeverSignIn | app/Http/Controllers/Auth/OtpController.php:93-97 | with no login code matching, verify-otp fails and changes no user, token or mark |
| AuthFlows.WrongLoginCodeChargesNewerResetCode | app/Services/OtpService.php:172-183 | a wrong login code is charged to the latest valid code of the phone of any type, here a newer password-reset code, leaving the login codes' attempts as they were |
| AuthFlows.AuthApp.constructor | app/Http/Controllers/Auth/OtpController.php:16-20 | an empty world over fresh OTP and token stores |
| AuthFlows.AuthApp.IssueTokens | app/Http/Controllers/Auth/AuthController.php:54-55 | the two createToken calls: the token state and plaintexts are MintPair of the old token state |
| AuthFlows.AuthApp.Send | app/Http/Controllers/Auth/OtpController.php:34-68 | with no code created after now, the world and response are OtpSent of the old world |
| AuthFlows.AuthApp.Resend | app/Http/Controllers/Auth/OtpController.php:155-158 | resend is send: OtpSent of the old world, under the same clock condition |
| AuthFlows.AuthApp.Verify | app/Http/Controllers/Auth/OtpController.php:87-148 | the world and response are OtpVerified of the old world |
| AuthFlows.AuthApp.Register | app/Http/Controllers/Auth/AuthController.php:20-63 | the world and response are those of registration as written (RegisteredAsWritten) of the old world |
| AuthFlows.AuthApp.Login | app/Http/Controllers/Auth/AuthController.php:70-98 | the world and response are LoggedIn of the old world |
| AuthFlows.AuthApp.SendResetLink | app/Http/Controllers/Auth/ForgotPasswordController.php:25-63 | with no code created after now, the world and response are ResetCodeRequested of the old world |
| AuthFlows.AuthApp.Reset | app/Http/Controllers/Auth/ResetPasswordController.php:25-62 | the world and response are PasswordResetDone of the old world |
| AuthFlows.AuthApp.ResetChecked | app/Http/Controllers/Auth/ResetPasswordController.php:33-61 | after validation, the world and response are PasswordResetChecked of the old world: the code is consumed before the account is looked up, and only the password changes |
| RegisterRequest.Failures | app/Http/Requests/Auth/RegisterRequest.php:23-102 | an attribute is reported exactly when its rules fail on the input |
| RegisterRequest.ForceCity | app/Http/Requests/Auth/RegisterRequest.php:132-139 | a rewritten address is an array whose `cidade` is 'Tijucas' (and `estado` 'SC'); a scalar address raises |
| RegisterRequest.PhoneAccepted | app/Http/Requests/Auth/RegisterRequest.php:26-31 | the phone passes exactly when it is a string of 10 or 11 ASCII digits (the `$` anchor also lets one final newline through) not yet registered |
| RegisterRequest.TrimRightKeeps | app/Http/Requests/Auth/RegisterRequest.php:33 | trimming on the right keeps every character up to a non-blank one, so a string with a non-blank character is not blank |
| RegisterRequest.NameAndPasswordRules | app/Http/Requests/Auth/RegisterRequest.php:32-49 | the name passes exactly when a non-blank string of 2 to 100 characters; the password exactly when a non-blank string of at least 8 characters equal to its confirmation |
| RegisterRequest.TrimNoop | app/Http/Requests/Auth/RegisterRequest.php:91 | trim leaves a string alone whose ends are not blank |
| RegisterRequest.CityClosureCases | app/Http/Requests/Auth/RegisterRequest.php:89-94 | 'Tijucas' and 'TIJUCAS/SC' pass the city closure, 'Itajai' fails it |
| RegisterRequest.PreparedCityPasses | app/Http/Requests/Auth/RegisterRequest.php:129-140 | after prepareForValidation a submitted array address always passes the city, state and address rules |
| RegisterRequest.PreparedAddress | app/Http/Requests/Auth/RegisterRequest.php:131-139 | prepareForValidation leaves the forced address in the input |
| RegisterRequest.ForcedAddressPasses | app/Http/Requests/Auth/RegisterRequest.php:56-100 | an array address with city 'Tijucas' and state 'SC' passes the city, state and address rules |
| RegisterRequest.PreparedChangesOnlyAddress | app/Http/Requests/Auth/RegisterRequest.php:128-147 | prepareForValidation changes no key but `address` and `bairro_id`, and adds `bairro_id` only as a copy of `bairroId` |
| RegisterRequest.ValidatedShape | app/Http/Requests/Auth/RegisterRequest.php:153-163 | validated() keeps the ruled keys other than address present in the input, unchanged; a null address stays null, a non-array address is dropped, and an array address keeps only its ruled sub-keys (cep, logradouro, numero, complemento, bairro, cidade, estado), is dropped when it has none, and gets city Tijucas and state SC |
| RegisterRequest.PreparedAddressValidated | app/Http/Requests/Auth/RegisterRequest.php:153-163 | after prepareForValidation an array address stays in the validated data with exactly its ruled sub-keys plus cidade and estado, forced to Tijucas and SC |
| RegisterRequest.ValidatedFields | app/Http/Requests/Auth/RegisterRequest.php:153-163 | validated data keeps the phone, never holds bairro_id, and an address object has ruled sub-keys only |
| RegisterRequest.BairroIdDropped | app/Http/Requests/Auth/RegisterRequest.php:143-155 | the `bairro_id` copy is in the prepared input but never in the validated data |
| RegisterRequest.RegisterForm.constructor | app/Http/Requests/Auth/RegisterRequest.php:8 | the form holds the submitted input |
| RegisterRequest.RegisterForm.PrepareForValidation | app/Http/Requests/Auth/RegisterRequest.php:128-147 | succeeds exactly when the address rewrite does, and then the input becomes Prepared of the old input; otherwise the input is kept |
| RegisterRequest.RegisterForm.Validated | app/Http/Requests/Auth/RegisterRequest.php:153-163 | the result is ValidatedData of the input: ruled keys of the input only, and a non-null address an object of ruled sub-keys with the forced city and state |
| PasswordResets.MarkedAsUsed | app/Models/PasswordReset.php:78-81 | used_at becomes now and no other field changes |
| PasswordResets.ValidIsNotExpired | app/Models/PasswordReset.php:41-73 | a valid token is neither expired nor used; at expires_at == now it is neither valid nor expired |
| PasswordResets.UsedNeverValid | app/Models/PasswordReset.php:41-81 | a token marked used is used and never valid at any time |
| PasswordResets.PasswordResetRecord.constructor | app/Models/PasswordReset.php:7 | the record holds the row |
| PasswordResets.PasswordResetRecord.MarkAsUsed | app/Models/PasswordReset.php:78-81 | the row becomes MarkedAsUsed of the old row and is never valid again |
| Restrictions.TypeFrom | app/Domain/Moderation/Enums/RestrictionType.php:9-13 | the type whose stored value is the string; none exactly when no type has that value |
| Restrictions.ActiveRows | app/Models/UserRestriction.php:73-85 | the active scope keeps exactly the rows in the scope and never more rows |
| Restrictions.ActiveRowsInOrder | app/Models/UserRestriction.php:73-85 | the scope keeps table order: the rows of two runs one after the other are the filtered runs one after the other |
| Restrictions.ActiveRowsAllActive | app/Models/UserRestriction.php:73-85 | rows that are all in the scope come back unchanged, in their order |
| Restrictions.Revoked | app/Models/UserRestriction.php:117-123 | revoked_at becomes now, revoked_by the actor, nothing else changes |
| Restrictions.ActiveScopeIsActive | app/Models/UserRestriction.php:73-115 | the active scope's where-clauses select exactly the rows isActive holds for |
| Restrictions.ActiveCases | app/Models/UserRestriction.php:100-115 | revoked is never active, not yet started is never active, started without an end always is, otherwise until the end |
| Restrictions.ScopesDisjoint | app/Models/UserRestriction.php:73-98 | the expired, active and revoked scopes never overlap |
| Restrictions.RevokedNeverActive | app/Models/UserRestriction.php:100-123 | a revoked restriction is inactive at every time and keeps its type and end |
| Restrictions.RestrictionRecord.constructor | app/Models/UserRestriction.php:15 | the record holds the row |
| Restrictions.RestrictionRecord.Revoke | app/Models/UserRestriction.php:117-123 | the row becomes Revoked of the old row and is inactive at every time |
| Users.FilamentName | app/Models/User.php:252-255 | the name when set, else the email when set, else the phone |
| Users.ManageUsersIsAdminOnly | database/seeders/RolesAndPermissionsSeeder.php:41-123 | among the seeded roles only admin grants `users.manage` |
| Users.PanelAccess | app/Models/User.php:234-250 | non-staff never reach the panel; staff reach it exactly when no active global login suspension of theirs exists |
| Users.MemberCannotAccessPanel | app/Models/User.php:236-238 | a plain member is refused the panel whatever restrictions exist |
| Users.RevokingSuspensionReopensPanel | app/Models/User.php:234-242 | an active global login suspension closes the panel to staff; revoking it reopens the panel at any later time |
| Topics.CategoryFrom | app/Domain/Forum/Enums/TopicCategory.php:7-12 | the category whose stored value is the string; none exactly when no category has that value |
| Topics.CategoryRoundTrip | app/Domain/Forum/Enums/TopicCategory.php:7-12 | every category reads back from its stored value |
| Topics.EditWindow | app/Models/Topic.php:176-179 | a topic is editable exactly during the first 86400 seconds after creation, boundary included, and always when created in the future |
| Topics.TruncDiv | app/Models/Topic.php:152 | integer division truncating toward zero, as TIMESTAMPDIFF counts whole hours, for either sign |
| Topics.RecencyBonusBounds | app/Models/Topic.php:145-155 | for a topic not created in the future the bonus lies in [0, 100], is 100 exactly during the first hour and 0 exactly from the hundredth hour on |
| Topics.FutureTopicExceedsBonus | app/Models/Topic.php:152 | a creation time more than an hour in the future gives a bonus above 100 |
| Topics.RecencyBonusDecays | app/Models/Topic.php:152 | of two topics the older one never has the larger bonus |
| Topics.HotScoreCounters | app/Models/Topic.php:145-155 | the hot score rises by exactly two per like and three per comment, so it is monotone in both counters |
| Topics.PeriodsNest | app/Models/Topic.php:157-165 | today's topics are within the last 7 days, and those within the last 30 |
| Topics.DivFloor | app/Models/Topic.php:160 | the day of a timestamp is the floor of its quotient by 86400 |
| Topics.UnknownPeriodKeepsAll | app/Models/Topic.php:163 | a period other than the three named filters nothing |
| Topics.Bumped | app/Models/Topic.php:181-199 | one counter moves by delta, the other and every other field stay |
| Topics.BumpUndone | app/Models/Topic.php:181-199 | an increment followed by a decrement of the same counter, or the reverse, restores the topic |
| Topics.TopicRecord.constructor | app/Models/Topic.php:17 | the record holds the row |
| Topics.TopicRecord.IncrementLikes | app/Models/Topic.php:181-184 | the row becomes Bumped(old row, likes, +1) |
| Topics.TopicRecord.DecrementLikes | app/Models/Topic.php:186-189 | the row becomes Bumped(old row, likes, -1) |
| Topics.TopicRecord.IncrementComments | app/Models/Topic.php:191-194 | the row becomes Bumped(old row, comments, +1) |
| Topics.TopicRecord.DecrementComments | app/Models/Topic.php:196-199 | the row becomes Bumped(old row, comments, -1) |
| Comments.Find | app/Models/Comment.php:56-59 | a comment is found exactly when its id is stored and not soft-deleted, and is that row |
| Comments.DepthCases | app/Models/Comment.php:114-122 | no parent gives depth 0, an unresolvable parent depth 1, otherwise min(parent depth + 1, 2); with stored depths in range the result is in [0, 2] |
| Comments.DeepRepliesStayAtMax | app/Models/Comment.php:114-122 | a reply to a comment at depth 2 stays at depth 2 |
| Comments.LikesBumped | app/Models/Comment.php:124-132 | likes_count moves by delta and nothing else changes |
| Comments.CommentRecord.constructor | app/Models/Comment.php:13 | the record holds the row |
| Comments.CommentRecord.IncrementLikes | app/Models/Comment.php:124-127 | the row becomes LikesBumped(old row, +1) |
| Comments.CommentRecord.DecrementLikes | app/Models/Comment.php:129-132 | the row becomes LikesBumped(old row, -1) |
| ContentFlags.NewFlag | database/migrations/2026_01_28_120002_create_content_flags_table.php:14-27 | a new flag is Open, unhandled, with no action, and keeps what was reported, by whom and why |
| ContentFlags.MarkedReviewing | app/Models/ContentFlag.php:65-72 | status Reviewing, handler and time stamped, action and report unchanged |
| ContentFlags.MarkedDismissed | app/Models/ContentFlag.php:74-82 | status Dismissed, handler and time stamped, action none, report unchanged |
| ContentFlags.MarkedActionTaken | app/Models/ContentFlag.php:84-92 | status ActionTaken, handler and time stamped, the given action or none, report unchanged |
| ContentFlags.StepShape | app/Filament/Admin/Pages/ModerationQueue.php:93-177 | an offered action never returns a flag to Open and keeps the report; a terminal flag offers nothing; a flag under review is not offered review again |
| ContentFlags.TerminalStaysPut | app/Filament/Admin/Pages/ModerationQueue.php:100-177 | once ActionTaken or Dismissed, whatever is clicked the flag stays exactly as it is |
| ContentFlags.WorkKeepsReport | app/Filament/Admin/Pages/ModerationQueue.php:93-177 | any sequence of queue clicks keeps the flagged content, reporter, reason and message, and a flag that left Open never returns to it |
| ContentFlags.ContentFlagRecord.constructor | app/Models/ContentFlag.php:17 | the record holds the row |
| ContentFlags.ContentFlagRecord.MarkReviewing | app/Models/ContentFlag.php:65-72 | the row becomes MarkedReviewing of the old row |
| ContentFlags.ContentFlagRecord.MarkDismissed | app/Models/ContentFlag.php:74-82 | the row becomes MarkedDismissed of the old row |
| ContentFlags.ContentFlagRecord.MarkActionTaken | app/Models/ContentFlag.php:84-92 | the row becomes MarkedActionTaken of the old row |
| TopicRequests.CharMatchesBytewise | app/Http/Requests/Forum/UpdateTopicRequest.php:26 | some UTF-8 byte of a character falls in the byte class the pattern denotes without the `u` modifier exactly when the character is an ASCII letter or not ASCII at all |
| TopicRequests.TitleRuleAsWrittenReading | app/Http/Requests/Forum/UpdateTopicRequest.php:26 | the title rule as written accepts exactly the titles holding an ASCII letter or any non-ASCII character |
| TopicRequests.IntendedIsStricter | app/Http/Requests/Forum/UpdateTopicRequest.php:26 | every title the intended letter rule accepts, the written rule accepts too |
| TopicRequests.EmojiTitlePasses | app/Http/Requests/Forum/UpdateTopicRequest.php:26 | a title of five emoji passes the rule as written and fails the rule as intended |
| TopicRequests.RuleFailures | app/Http/Requests/Forum/UpdateTopicRequest.php:18-46 | each of titulo, texto, categoria and fotoUrl is reported exactly when its rules fail, the title pattern read byte-wise as written, and nothing else is |
| TopicRequests.Validated | app/Http/Requests/Forum/UpdateTopicRequest.php:18-46 | validated() keeps exactly the input keys the rules name, unchanged |
| TopicRequests.AuthorizeIsUpdatePolicy | app/Http/Requests/Forum/UpdateTopicRequest.php:12-16 | the request is refused with 403 exactly when the topic policy's update refuses |
| TopicRequests.StaffHaveNoEditWindow | app/Http/Requests/Forum/UpdateTopicRequest.php:70-79 | admins and moderators never get the edit-window error |
| TopicRequests.EditWindowErrorUnreachable | app/Http/Requests/Forum/UpdateTopicRequest.php:70-79 | a non-staff edit after 24 hours is already refused with 403 by authorisation, so the 'topic' error is never reported |
| TopicRequests.AcceptedFields | app/Http/Requests/Forum/UpdateTopicRequest.php:18-46 | accepted data holds only rule keys of the input: a title of 5 to 150 characters holding an ASCII letter or a non-ASCII character (the byte-wise pattern), a text of 10 to 5000, a known category, a null or string photo URL |
| TopicRequests.EmojiTitleAccepted | app/Http/Requests/Forum/UpdateTopicRequest.php:26 | an update whose only field is a title of five emoji is accepted unchanged by an author inside the edit window |
| AdminForum.DurationOf | app/Http/Controllers/Admin/AdminForumController.php:55-69 | exactly the four values `in` accepts have a duration; only 'permanente' has none; every other is at least a day |
| AdminForum.SuspendFailures | app/Http/Controllers/Admin/AdminForumController.php:54-62 | duracao and motivo are each reported exactly when their rules fail, and nothing else is |
| AdminForum.ExpiresAt | app/Http/Controllers/Admin/AdminForumController.php:64-69 | no end exactly for 'permanente'; otherwise at least a day after now |
| AdminForum.FirstMatch | app/Http/Controllers/Admin/AdminForumController.php:72-76 | the lowest index with this user and type, or -1 when no row has them |
| AdminForum.SuspensionNeverRecorded | app/Http/Controllers/Admin/AdminForumController.php:72-82 | as written every valid request is a server error that records nothing (the type value is not a RestrictionType), invalid ones are 422; a user not muted stays unmuted |
| AdminForum.UpsertedAt | app/Http/Controllers/Admin/AdminForumController.php:72-82 | the intended upsert rewrites the whole first row of the user and type in place, keeping its id and resetting its start and revocation, or appends one row; all other rows stay |
| AdminForum.SuspensionTakesEffect | app/Http/Controllers/Admin/AdminForumController.php:64-99 | a valid intended suspension answers success and the user is muted in the forum from now until its end, for ever when permanent, whatever rows existed, because the intended row resets revoked_at and starts_at |
| AdminForum.SuspensionKeepsKeysUnique | app/Http/Controllers/Admin/AdminForumController.php:72-82 | the intended upsert keeps one row per user and type and leaves rows of other users and types untouched |
| AdminForum.WrittenAgainstIntended | app/Http/Controllers/Admin/AdminForumController.php:52-99 | the written and intended versions agree on invalid input; on valid input the written one is a server error and the intended one succeeds |
| AdminForum.RestrictionTable.constructor | app/Http/Controllers/Admin/AdminForumController.php:52 | the table holds the rows given |
| AdminForum.RestrictionTable.SuspendUser | app/Http/Controllers/Admin/AdminForumController.php:52-99 | rows and response become SuspendedAsWritten of the old rows, and the rows never change |
| AdminForum.SuspensionTypeUnknown | app/Http/Controllers/Admin/AdminForumController.php:75 | the type string the suspension writes is not a restriction type |
| Policies.TopicVisibility | app/Policies/TopicPolicy.php:16-24 | guests see exactly the active topics; staff and the author see every topic; no one else sees a topic that is not active |
| Policies.TopicUpdateRule | app/Policies/TopicPolicy.php:36-49 | staff may always update; anyone else exactly as the author within 86400 s of creation |
| Policies.TopicModerationRules | app/Policies/TopicPolicy.php:51-88 | hide needs admin or moderator; delete needs that or authorship; exactly the author may neither like nor report |
| Policies.OpenAbilities | app/Policies/TopicPolicy.php:26-34 | creating a topic, saving one and creating a comment are open to every signed-in user |
| Policies.CommentRules | app/Policies/CommentPolicy.php:25-46 | a plain member may delete exactly their own comments and like or report exactly the others' |
| Policies.UserPolicyByRole | app/Policies/UserPolicy.php:15-78 | with the seeded permissions, listing, creating, restoring and managing roles are admin-only; viewing and updating are for oneself or admins; deleting and force-deleting are for admins and never oneself |
| Policies.ModeratorManagesNoUsers | app/Policies/UserPolicy.php:15-78 | a moderator who is not an admin can neither manage roles, list users nor delete anyone |
| Policies.Before | app/Policies/ContentFlagPolicy.php:15-22 | `before` answers true exactly for admins and has no opinion for anyone else |
| Policies.BeforeDecides | app/Policies/ActivityPolicy.php:15-46 | admins get every ability of every panel policy, even those the methods refuse them (activity create and update); for others the method decides |
| Policies.NonAdminTable | app/Policies/ContentFlagPolicy.php:24-47 | for non-admins: viewing needs a moderator under every policy; create and update need a moderator for restrictions and flags and are refused for activity and bairros; delete is refused |
| Policies.DeleteIsAdminOnly | app/Policies/ContentFlagPolicy.php:44-47 | delete is allowed exactly for admins under all four panel policies |
| Policies.NoRoleNoAccess | app/Policies/ContentFlagPolicy.php:15-47 | a user with neither staff role is refused every panel ability |
| Forum.EmptyBoardWellFormed | app/Http/Controllers/Api/Forum/TopicController.php:114-136 | the empty board satisfies the counter and pivot invariant |
| Forum.MembersFlipped | app/Http/Controllers/Api/Forum/TopicLikeController.php:17-40 | a flip removes the user from the target's members when present and adds them when absent; other targets keep their members |
| Forum.MembersFlippedCount | app/Http/Controllers/Api/Forum/TopicLikeController.php:17-40 | a flip moves the number of a target's members by exactly one |
| Forum.NoRowsNoMembers | app/Http/Controllers/Api/Forum/TopicController.php:114-136 | a target with no pivot rows has no members |
| Forum.ShowStricterThanPolicy | app/Http/Controllers/Api/Forum/TopicController.php:85-107 | show answers only viewers the view policy admits, and refuses exactly one of them: the non-staff author of a topic that is not Active; a guest never sees liked or saved |
| Forum.PerPage | app/Http/Controllers/Api/Forum/TopicController.php:74-75 | the page size is 15 when none is given or 0 is asked for (the paginator's fallback), the request capped at 50 when it is positive, never 0, and negative exactly when a negative size is asked for |
| Forum.FirstPage | app/Http/Controllers/Api/Forum/TopicController.php:74-75 | the first page is where the listing starts; a negative size lists everything, and a positive one gives that many entries or the whole listing if shorter |
| Forum.CategoryFilter | app/Http/Controllers/Api/Forum/TopicController.php:39-44 | a category filter applies only for a value that is filled in Laravel's sense (not blank after trim) and names a category, and then always |
| Forum.ListingFilters | app/Http/Controllers/Api/Forum/TopicController.php:25-60 | a listed topic is Active and not deleted, has the filled bairro ("0" included), contains a filled search text in its title or text with ASCII case folded, lies in a filled period and has a photo when comFoto reads true; with no filter in force exactly the live Active topics are listed |
| Forum.ZeroBairroFilters | app/Http/Controllers/Api/Forum/TopicController.php:35-37 | a bairroId of "0" is filled, so only topics of that bairro are listed, although "0" is falsy in PHP |
| Forum.UnknownCategoryIgnored | app/Http/Controllers/Api/Forum/TopicController.php:39-44 | an unrecognised category lists exactly what no category lists |
| Forum.StoreDefaults | app/Http/Controllers/Api/Forum/TopicController.php:114-136 | store creates an Active topic by the caller with no likes or comments, anonymous only when asked, no photo unless supplied, and changes no other topic |
| Forum.UpdateFieldRules | app/Http/Controllers/Api/Forum/TopicController.php:143-170 | update replaces only titulo, texto, categoria and fotoUrl, each only when supplied; a null fotoUrl clears the photo |
| Forum.UpdateGuards | app/Http/Controllers/Api/Forum/TopicController.php:143-170 | a non-staff edit after 24 hours is refused, and every refusal or validation failure leaves the board unchanged |
| Forum.DestroyEffect | app/Http/Controllers/Api/Forum/TopicController.php:177-188 | destroy succeeds exactly when the delete policy allows it; the topic is then Deleted and soft-deleted, no longer bound or shown |
| Forum.SavedIds | app/Http/Controllers/Api/Forum/SavedTopicController.php:45-62 | the saved listing holds exactly the bound Active topics the user saved |
| Forum.TopicLikeEffect | app/Http/Controllers/Api/Forum/TopicLikeController.php:17-40 | a like toggle flips the caller's like, answers with it and with a count equal to the likers and to the stored counter, and changes no other user's like, topic set, comment or save |
| Forum.TopicLikeTwice | app/Http/Controllers/Api/Forum/TopicLikeController.php:17-40 | two like toggles by the same user restore the board |
| Forum.SaveTwice | app/Http/Controllers/Api/Forum/SavedTopicController.php:18-38 | two save toggles restore the board; one toggle changes only the caller's save row and answers with it |
| Forum.CommentLikeEffect | app/Http/Controllers/Api/Forum/CommentLikeController.php:17-40 | two comment-like toggles restore the board; one flips the caller's like and keeps the counter equal to the likers, touching no topic |
| Forum.TopicLikeWellFormed | app/Http/Controllers/Api/Forum/TopicLikeController.php:17-40 | a like toggle keeps the invariant, and an unlike always finds a counter of at least one |
| Forum.SaveWellFormed | app/Http/Controllers/Api/Forum/SavedTopicController.php:18-38 | a save toggle keeps the invariant |
| Forum.CommentLikeWellFormed | app/Http/Controllers/Api/Forum/CommentLikeController.php:17-40 | a comment-like toggle keeps the invariant, and an unlike always finds a counter of at least one |
| Forum.StoreDepthCases | app/Http/Controllers/Api/Forum/CommentController.php:71-107 | a stored comment has depth in [0, 2]: 0 without parent, min(parent depth + 1, 2) for a live parent, and 0 for a soft-deleted parent (where calculateDepth says 1) |
| Forum.CommentStoreEffect | app/Http/Controllers/Api/Forum/CommentController.php:71-107 | a parent outside the topic is a 422 that changes nothing; otherwise the new comment is the caller's in this topic and the topic's count rises by exactly one, no other topic changing |
| Forum.CommentDestroyEffect | app/Http/Controllers/Api/Forum/CommentController.php:114-135 | a comment of another topic is a 404 with no change; a refusal happens exactly for a non-staff non-author; success soft-deletes the row and lowers the count by exactly one |
| Forum.LiveCommentsAdded | app/Http/Controllers/Api/Forum/CommentController.php:86-98 | a new live comment joins exactly its topic's live comments |
| Forum.LiveCommentsRemoved | app/Http/Controllers/Api/Forum/CommentController.php:120-129 | a soft-deleted comment leaves exactly its topic's live comments |
| Forum.CommentStoreWellFormed | app/Http/Controllers/Api/Forum/CommentController.php:71-107 | storing a comment keeps the invariant: the count equals the live comments and the depth is in range |
| Forum.CommentDestroyWellFormed | app/Http/Controllers/Api/Forum/CommentController.php:114-135 | destroying a comment keeps the invariant, and the count it lowers is at least one |
| Forum.ReportOnce | app/Http/Controllers/Api/Forum/ReportController.php:21-49 | a repeated report by the same user is a 409 adding nothing; a first one appends one pending report; reports stay unique per user and target; an unbound target is a 404 |
| Forum.ReportTwice | app/Http/Controllers/Api/Forum/ReportController.php:21-49 | reporting the same topic twice answers 409 the second time and leaves the board as after the first |
| Forum.StoreWellFormed | app/Http/Controllers/Api/Forum/TopicController.php:114-136 | storing a topic keeps the invariant |
| Forum.UpdateWellFormed | app/Http/Controllers/Api/Forum/TopicController.php:143-170 | an update keeps the invariant |
| Forum.DestroyWellFormed | app/Http/Controllers/Api/Forum/TopicController.php:177-188 | a destroy keeps the invariant |
| Forum.ReportsWellFormed | app/Http/Controllers/Api/Forum/ReportController.php:21-84 | topic and comment reports keep the invariant |
| Forum.HideEffect | app/Http/Controllers/Admin/AdminForumController.php:20-45 | hiding succeeds exactly for staff with a reason; a missing reason is a 422 before the 403 for non-staff; only the status changes, and the topic is then shown to staff alone |
| Forum.HideWellFormed | app/Http/Controllers/Admin/AdminForumController.php:20-45 | hiding keeps the invariant |
| Forum.ForumBoard.constructor | app/Http/Controllers/Api/Forum/TopicController.php:114 | an empty, well-formed board |
| Forum.ForumBoard.Store | app/Http/Controllers/Api/Forum/TopicController.php:114-136 | the board and response become Stored of the old board, and the invariant holds |
| Forum.ForumBoard.Update | app/Http/Controllers/Api/Forum/TopicController.php:143-170 | the board and response become Updated of the old board, whose title check is the byte-wise pattern as written, and the invariant holds |
| Forum.ForumBoard.Destroy | app/Http/Controllers/Api/Forum/TopicController.php:177-188 | the board and response become Destroyed of the old board, and the invariant holds |
| Forum.ForumBoard.ToggleTopicLike | app/Http/Controllers/Api/Forum/TopicLikeController.php:17-40 | the board and response become TopicLikeToggled of the old board, and the invariant holds |
| Forum.ForumBoard.ToggleSave | app/Http/Controllers/Api/Forum/SavedTopicController.php:18-38 | the board and response become SaveToggled of the old board, and the invariant holds |
| Forum.ForumBoard.ToggleCommentLike | app/Http/Controllers/Api/Forum/CommentLikeController.php:17-40 | the board and response become CommentLikeToggled of the old board, and the invariant holds |
| Forum.ForumBoard.StoreComment | app/Http/Controllers/Api/Forum/CommentController.php:71-107 | the board and response become CommentStored of the old board, and the invariant holds |
| Forum.ForumBoard.DestroyComment | app/Http/Controllers/Api/Forum/CommentController.php:114-135 | the board and response become CommentDestroyed of the old board, and the invariant holds |
| Forum.ForumBoard.ReportTopic | app/Http/Controllers/Api/Forum/ReportController.php:21-49 | the board and response become TopicReported of the old board, and the invariant holds |
| Forum.ForumBoard.ReportComment | app/Http/Controllers/Api/Forum/ReportController.php:56-84 | the board and response become CommentReported of the old board, and the invariant holds |
| Forum.ForumBoard.HideTopic | app/Http/Controllers/Admin/AdminForumController.php:20-45 | the board and response become TopicHidden of the old board, and the invariant holds |
| Resources.AutorOf | app/Http/Resources/TopicResource.php:61-81 | an anonymous item viewed by someone who is neither its author nor staff yields the fixed anonymous block; otherwise the author's id, name (falling back to 'Usuário') and avatar |
| Resources.AutorMasking | app/Http/Resources/TopicResource.php:61-81 | a masked block does not depend on who the author is; an unmasked one is the author's id, name and avatar, or the 'Usuário' fallback with no id when the author row is gone |
| Resources.WhoSeesTheAuthor | app/Http/Resources/CommentResource.php:49-69 | guests and other non-staff members never receive the id of an anonymous author; the author, staff and everyone for non-anonymous content receive it |
| Resources.TopicView | app/Http/Resources/TopicResource.php:16-59 | liked and isSaved are false for a guest and the viewer's pivot rows otherwise; the author block is the one getAutor gives |
| Resources.CommentView | app/Http/Resources/CommentResource.php:15-47 | a removed comment shows 'Comentário removido' and no image, a live one its text and image; liked is false for guests; the author block is the one getAutor gives |
| Resources.RemovedCommentHidesContent | app/Http/Resources/CommentResource.php:15-47 | the JSON of a removed comment does not depend on its text or image, and a non-anonymous removed comment still names its author |
| Resources.AnonymousTopicHidesAuthor | app/Http/Resources/TopicResource.php:16-81 | a guest gets the same JSON for an anonymous topic whoever wrote it |
| Events.TimePredicates | app/Models/Event.php:419-432 | an event is never both happening and upcoming; a happening event counts as finished only when marked Finished; an event starting right now is neither |
| Events.DateRangeIsOverlap | app/Models/Event.php:197-206 | with both bounds, the date-range filter keeps exactly the events whose span meets some instant of the range |
| Events.SecondOfDay | app/Models/Event.php:225-240 | the time of day of an instant lies in one day |
| Events.TimeOfDayPartition | app/Models/Event.php:225-240 | morning, afternoon and night cover every start time and never overlap; any other key keeps every event |
| Events.StatusScopes | app/Models/EventRsvp.php:54-91 | the going, maybe and not-going scopes partition RSVPs, and confirmed is exactly going or maybe |
| Events.AttendeesAreGoingPlusMaybe | app/Models/Event.php:385-398 | the attendees count equals the going count plus the maybe count |
| Events.GuestSumBounds | app/Models/Event.php:385-398 | when each RSVP brings at least one guest, a guest sum is at least the number of matching RSVPs |
| Events.GuestSumAppend | app/Models/Event.php:385-398 | a new RSVP adds its guests to exactly the sums that count its status |
| Events.UserRsvp | app/Models/Event.php:438-445 | the RSVP found belongs to the user and is in the list; none is found only without a user id or when the user has no RSVP |
| Events.ProximityBonusBounds | app/Models/Event.php:471-472 | the bonus, a float after Carbon 3's fractional diffInDays, lies in 0..50; it is 50 once the event has started, 0 from 50 days away, and 50 minus the fractional days in between |
| Events.ProximityBonusDecays | app/Models/Event.php:471-472 | a later start never earns a larger bonus |
| Events.ColumnValue | database/migrations/2026_01_31_000001_create_events_tables.php:94 | the unsigned integer column keeps a non-negative integer within a half of the float score |
| Events.RecentCount | app/Models/Event.php:467-468 | at most every creation time counts as recent |
| Events.PopularityBounds | app/Models/Event.php:465-478 | the score is non-negative, at most 3 per RSVP plus 2 per favourite plus 50, and a new RSVP raises it by three |
| Events.FractionalDayCounts | app/Models/Event.php:465-478 | eighteen hours before the start the bonus is 49.25 and the stored score is 49 |
| Events.EventRecord.constructor | app/Models/Event.php:465-478 | the record holds the given event row |
| Events.EventRecord.UpdatePopularityScore | app/Models/Event.php:465-478 | only the popularity score changes, to the column value of the float score of the recent RSVPs, favourites and proximity |
| Events.RsvpRecord.constructor | app/Models/EventRsvp.php:93-96 | the record holds the given RSVP row |
| Events.RsvpRecord.MarkAsNotified | app/Models/EventRsvp.php:93-96 | the notified flag is set and nothing else changes |
| EventActions.RsvpStatusFrom | app/Domain/Events/Enums/RsvpStatus.php:7-9 | a string reads as the status whose backing value it is, and as none when no status has that value |
| EventActions.RsvpStatusRoundTrip | app/Domain/Events/Enums/RsvpStatus.php:7-31 | every status reads back from its own backing value |
| EventActions.Prepared | app/Http/Requests/Events/StoreRsvpRequest.php:48-56 | a missing guest count becomes 1; a given one and every other field are kept as they are |
| EventActions.StoreFailures | app/Http/Requests/Events/StoreRsvpRequest.php:16-35 | the status is rejected exactly when it is missing or not a status value, the guest count exactly when the prepared value is not an integer in 1..10, the notes exactly when they are not a string of at most 500 characters or null |
| EventActions.UpdateFailures | app/Http/Requests/Events/UpdateRsvpRequest.php:16-37 | as for store, except that a missing status or guest count is never an error |
| EventActions.NotesOf | app/Http/Controllers/Api/Events/EventRsvpController.php:78 | the notes are the request's string when there is one, and none otherwise |
| EventActions.Lookup | app/Http/Controllers/Api/Events/EventRsvpController.php:53-55 | the index found is an RSVP of this user for this event with none earlier; -1 only when there is none at all |
| EventActions.ForEvent | app/Models/Event.php:109-112 | the event's RSVPs are exactly the rows of that event |
| EventActions.ForEventAppend | app/Models/Event.php:109-112 | an added row joins the end of its own event's list and no other |
| EventActions.RsvpMessagesDistinct | app/Http/Controllers/Api/Events/EventRsvpController.php:200-207 | two statuses share a message only when they are the same status |
| EventActions.Shown | app/Http/Controllers/Api/Events/EventRsvpController.php:22-40 | show returns an RSVP exactly when the user has one for the event, and the one returned is theirs |
| EventActions.StoreEffect | app/Http/Controllers/Api/Events/EventRsvpController.php:47-86 | invalid input, an existing RSVP (409 with that RSVP) and an ended event (422) leave the table unchanged; otherwise exactly one row is appended, holding the requested status, the guest count or 1, the notes, not notified, created now, with the status's message |
| EventActions.StoreTwice | app/Http/Controllers/Api/Events/EventRsvpController.php:47-86 | after a successful store, a second valid store by the same user for the same event is a conflict |
| EventActions.StoreCreates | app/Http/Controllers/Api/Events/EventRsvpController.php:47-86 | store creates exactly when the input is valid, the user has no RSVP for the event and the event has not ended, and then appends exactly the new row |
| EventActions.StoreKeepsTable | app/Http/Controllers/Api/Events/EventRsvpController.php:47-86 | store keeps one RSVP per user and event and guest counts in 1..10 |
| EventActions.StoreAddsGuests | app/Models/Event.php:385-398 | a created RSVP adds its guests to its event's attendee count when going or maybe and changes no other event's RSVPs |
| EventActions.AppendKeepsTable | app/Http/Controllers/Api/Events/EventRsvpController.php:73-79 | a row for a new user and event pair with an admitted guest count keeps the table's invariant |
| EventActions.UpdateEffect | app/Http/Controllers/Api/Events/EventRsvpController.php:93-128 | invalid input and a missing RSVP (404) change nothing; otherwise only the user's RSVP changes, taking the status, guest count and notes the request carries and keeping the rest; an empty request passes and rewrites nothing |
| EventActions.UpdateKeepsTable | app/Http/Controllers/Api/Events/EventRsvpController.php:93-128 | update keeps one RSVP per user and event and guest counts in 1..10 |
| EventActions.DestroyEffect | app/Http/Controllers/Api/Events/EventRsvpController.php:135-156 | a missing RSVP changes nothing; otherwise exactly one row goes, the user then has no RSVP for the event, and every other row stays |
| EventActions.DestroyKeepsTable | app/Http/Controllers/Api/Events/EventRsvpController.php:135-156 | destroy keeps one RSVP per user and event and guest counts in 1..10 |
| EventActions.AccentedInitialBreaksUtf8 | app/Http/Controllers/Api/Events/EventRsvpController.php:212-226 | for 'Ana Érica' the display name built byte-wise ends in a lead byte with no continuation, so it is not well-formed UTF-8 |
| EventActions.DisplayName | app/Http/Controllers/Api/Events/EventRsvpController.php:212-226 | without a name the display name is 'Usuário' |
| EventActions.DisplayNamePrivacy | app/Http/Controllers/Api/Events/EventRsvpController.php:212-226 | the display name starts with the first word of the name and adds at most a space, one character and a full stop; a one-word name is shown whole |
| EventActions.DisplayNameAgainstWritten | app/Http/Controllers/Api/Events/EventRsvpController.php:212-226 | the intended display name always encodes to well-formed UTF-8 and equals the byte-wise one whenever the last word starts with an ASCII character |
| EventActions.IntendedName | app/Http/Controllers/Api/Events/EventRsvpController.php:212-226 | the bytes of the intended display name are well-formed UTF-8 |
| EventActions.NameShownIff | app/Http/Controllers/Api/Events/EventRsvpController.php:212-226 | the byte-wise display name is valid UTF-8 exactly when there is no name, a single word, or a last word that is empty or starts with an ASCII character; it then equals the intended one |
| EventActions.CutInitialBreaks | app/Http/Controllers/Api/Events/EventRsvpController.php:222 | for a name of several words whose last word starts with a non-ASCII character, the byte-wise display name is not valid UTF-8 |
| EventActions.PerPage | app/Http/Controllers/Api/Events/EventRsvpController.php:172 | the page size is 20 when none is asked for, the request capped at 50 otherwise, and never 0 |
| EventActions.FirstPage | app/Http/Controllers/Api/Events/EventRsvpController.php:166-172 | a page is the first min(size, total) RSVPs, and a negative size returns them all |
| EventActions.GoingOf | app/Http/Controllers/Api/Events/EventRsvpController.php:169 | the going RSVPs of a sequence: an RSVP is in it exactly when it is in the sequence and going |
| EventActions.Reversed | app/Http/Controllers/Api/Events/EventRsvpController.php:171 | the reversed sequence has the same length and holds at position i the element at position n-1-i |
| EventActions.GoingLatestFirst | app/Http/Controllers/Api/Events/EventRsvpController.php:168-171 | the list is the going RSVPs in reverse table order, the last inserted first |
| EventActions.GoingOfOrdered | app/Http/Controllers/Api/Events/EventRsvpController.php:168-171 | keeping only the going RSVPs preserves created_at order |
| EventActions.LatestFirstByCreation | app/Http/Controllers/Api/Events/EventRsvpController.php:168-171 | when the table is in created_at order the list runs from the newest created_at to the oldest, as latest() orders it |
| EventActions.EntryOf | app/Http/Controllers/Api/Events/EventRsvpController.php:174-178 | an entry carries the user's id, the short form of the name, the avatar and the RSVP's guest count |
| EventActions.Entries | app/Http/Controllers/Api/Events/EventRsvpController.php:174-179 | every entry comes from an RSVP on the page whose user row exists, and every such RSVP gives an entry |
| EventActions.EntriesAgree | app/Http/Controllers/Api/Events/EventRsvpController.php:174-179 | when every initial on the page is ASCII, the byte-wise entries equal the intended ones |
| EventActions.EntriesEncodableIff | app/Http/Controllers/Api/Events/EventRsvpController.php:174-181 | every byte-wise name on the page is valid UTF-8 exactly when every user on the page has an ASCII last initial |
| EventActions.AttendeesAsWrittenFacts | app/Http/Controllers/Api/Events/EventRsvpController.php:163-195 | the response as written fails to encode exactly when a going RSVP on the page has a user whose last word starts with a non-ASCII character; otherwise it is the intended list |
| EventActions.AttendeesFacts | app/Http/Controllers/Api/Events/EventRsvpController.php:163-195 | the intended list: total, going and maybe counts are the event's guest sums; a page has at most 50 entries unless a negative size is asked for; every entry is a going RSVP of the event under its encoded display name and guest count, and every going RSVP on the page with a user is listed |
| EventActions.FavoriteToggleEffect | app/Http/Controllers/Api/Events/EventFavoriteController.php:17-42 | the flag returned is the opposite of the prior state and matches the pivot afterwards; a new favourite is dated now; no other pair changes |
| EventActions.FavoriteTwice | app/Http/Controllers/Api/Events/EventFavoriteController.php:17-42 | two toggles restore membership; a favourite removed and added again carries the second toggle's time |
| EventActions.EventTables.constructor | app/Http/Controllers/Api/Events/EventRsvpController.php:15 | the tables start empty and satisfy the invariant |
| EventActions.EventTables.Store | app/Http/Controllers/Api/Events/EventRsvpController.php:47-86 | store changes the RSVP table as the store function says, keeps the invariant and leaves favourites alone |
| EventActions.EventTables.Update | app/Http/Controllers/Api/Events/EventRsvpController.php:93-128 | update changes the RSVP table as the update function says, keeps the invariant and leaves favourites alone |
| EventActions.EventTables.Destroy | app/Http/Controllers/Api/Events/EventRsvpController.php:135-156 | destroy changes the RSVP table as the destroy function says, keeps the invariant and leaves favourites alone |
| EventActions.EventTables.ToggleFavorite | app/Http/Controllers/Api/Events/EventFavoriteController.php:17-42 | the toggle changes the favourites as the toggle function says and leaves RSVPs alone |
| EventResource.FirstUrl | app/Http/Resources/Events/EventResource.php:117-129 | a url is found for a type exactly when some link has that type |
| EventResource.FirstUrlAppend | app/Http/Resources/Events/EventResource.php:117-129 | a link added at the end changes the first url of its type only when there was none |
| EventResource.GroupedMeans | app/Http/Resources/Events/EventResource.php:107-131 | after the loop, a slot is set exactly for a slot type some link has, holding the first such link's url; every other link is in the other list, in order; no link is lost or counted twice |
| EventResource.GetLinksData | app/Http/Resources/Events/EventResource.php:101-132 | an unloaded relation gives an empty array, a loaded one the slots and the other list the loop builds |
| EventResource.LinksDataFacts | app/Http/Resources/Events/EventResource.php:101-132 | a slot is filled exactly when its type has a slot and some link has it, with the first such url; the slots and the other list together hold one entry per link |
| EventResource.OverflowMembers | app/Http/Resources/Events/EventResource.php:120-128 | a link of a type with no slot, or a later link of a slot type, is listed under other |
| EventResource.OverflowHolds | app/Http/Resources/Events/EventResource.php:120-128 | a link that takes no slot is listed under other |
| EventResource.TakeGoing | app/Http/Resources/Events/EventResource.php:167-169 | at most the given number of RSVPs are kept, all of them going RSVPs from the list |
| EventResource.Summarised | app/Http/Resources/Events/EventResource.php:170-177 | every summary entry comes from an RSVP whose user row exists, and there are no more entries than RSVPs |
| EventResource.UserRsvpStatus | app/Models/Event.php:438-450 | a status is returned only for a user id with an RSVP in the list, and it is that RSVP's value; none without a user id |
| EventResource.RsvpData | app/Http/Resources/Events/EventResource.php:160-187 | goingCount and maybeCount are the going and maybe guest sums of the event's RSVPs and count is their attendees count; at most 10 attendees, none when the relation is not loaded, each a going RSVP with a user row; no user status for a guest |
| EventResource.TakeBeforeFilter | app/Http/Resources/Events/EventResource.php:167-177 | the ten are taken before the filter: when the first going RSVP has no user row, only nine attendees are shown although more are available |
| EventResource.AllGoingTaken | app/Http/Resources/Events/EventResource.php:167-169 | from a list of at least n going RSVPs, exactly n are kept |
| EventResource.AllSummarised | app/Http/Resources/Events/EventResource.php:170-177 | when every user row exists, nothing is filtered out |
| EventResource.ViewerFieldsOf | app/Http/Resources/Events/EventResource.php:52-61 | a guest gets null for both fields; a member gets the preloaded favourite flag when there is one, else the pivot lookup, and their own RSVP status |
| Tickets.QuantityAvailable | app/Models/TicketLot.php:81-88 | there is no remaining quantity exactly when the lot has no limit, and it is never negative |
| Tickets.QuantityMeaning | app/Models/TicketLot.php:81-97 | with sales within the limit, the remaining quantity is the limit minus the sales; with a limit, none is left exactly when the lot is sold out; a lot with no limit is never sold out |
| Tickets.ScopeIsPredicate | app/Models/TicketLot.php:59-114 | the available query scope selects exactly the lots isCurrentlyAvailable accepts |
| Tickets.BoundariesIncluded | app/Models/TicketLot.php:99-114 | a lot that opens or closes at this very second is on sale |
| Tickets.AvailableHasStock | app/Models/TicketLot.php:90-114 | a lot on sale has no limit or at least one ticket left |
| Tickets.Incremented | app/Models/Tag.php:70-73 | an increment raises the usage count |
| Tickets.Decremented | app/Models/Tag.php:75-80 | a decrement lowers a positive count by one and leaves zero as it is |
| Tickets.UsageCounterLaws | app/Models/Tag.php:70-80 | the usage count never goes below zero, and a decrement undoes an increment |
| Tickets.TagRecord.constructor | database/migrations/2026_01_31_000001_create_events_tables.php:171 | a new tag's usage count is 0 |
| Tickets.TagRecord.IncrementUsage | app/Models/Tag.php:70-73 | the count becomes the incremented value and stays non-negative |
| Tickets.TagRecord.DecrementUsage | app/Models/Tag.php:75-80 | the count becomes the guarded decrement and stays non-negative |
| Places.AddressParts | app/Models/Venue.php:82-90 | the parts start with the street and hold one to three entries |
| Places.FullAddress | app/Models/Venue.php:76-93 | there is no full address exactly when the street is empty; otherwise it is the parts joined with ', ' |
| Places.FullAddressShape | app/Models/Venue.php:76-93 | the address reads street, number, complement with ', ' only between entries that are present; a street alone is returned as it is |
| Places.WhatsappLink | app/Models/Organizer.php:65-73 | there is no link exactly when the number is empty; a link is the wa.me prefix followed by digits only |
| Places.InstagramLink | app/Models/Organizer.php:75-83 | there is no link exactly when the handle is empty; a link starts with the instagram.com prefix |
| Places.WhatsappLinkDigits | app/Models/Organizer.php:65-73 | the link keeps every digit of the number in order, and a number of digits only is linked as it is |
| Places.InstagramHandle | app/Models/Organizer.php:75-83 | the link shows the handle with every leading '@' removed, and what it shows never starts with '@' |
| Neighborhoods.MatchLen | app/Services/NeighborhoodService.php:72-75 | a match starts with the abbreviation at a word boundary and covers the abbreviation, or the abbreviation and its dot, and never runs past the text |
| Neighborhoods.NormalizeName | app/Services/NeighborhoodService.php:66-79 | the result is the name trimmed, with the four abbreviations spelled out in source order by the patterns as written (a dotted abbreviation before a space keeps its dot), then title-cased |
| Neighborhoods.NoMatchKeeps | app/Services/NeighborhoodService.php:72-75 | where the pattern matches nowhere, the replacement leaves the text unchanged |
| Neighborhoods.AbsentLetterNoMatch | app/Services/NeighborhoodService.php:72-75 | a text with no character that folds to one of the abbreviation's letters has no match |
| Neighborhoods.PatternsDiffer | app/Services/NeighborhoodService.php:72-75 | the written and intended patterns differ only on an abbreviation followed by a dot and then a non-word character: the written one leaves the dot, the intended one takes it |
| Neighborhoods.DotKeptAsWritten | app/Services/NeighborhoodService.php:72-75 | on 'Abbr. Word' the written pattern replaces the abbreviation but keeps its dot |
| Neighborhoods.DotDroppedAsIntended | app/Services/NeighborhoodService.php:72-75 | on 'Abbr. Word' the intended pattern replaces the abbreviation together with its dot |
| Neighborhoods.AbbreviatedNameExpansions | app/Services/NeighborhoodService.php:72-75 | 'Jd. Europa' expands to 'Jardim. Europa' as written and to 'Jardim Europa' as intended |
| Neighborhoods.FirstWhere | app/Services/NeighborhoodService.php:22 | the row found is the first that matches, and -1 means no row matches |
| Neighborhoods.EnsureExistsEffect | app/Services/NeighborhoodService.php:17-36 | a bairro whose lower-cased name equals the normalised name is returned and nothing is created; otherwise, when a row already has that name's slug, the insert fails on the unique index and nothing changes (exactly then); otherwise exactly one row is appended with that name, its slug and active from the column default (cidade, uf and ativo are not fillable and are dropped), and the instance returned has that key, name and slug and no active attribute; the name is normalised by the patterns as written |
| Neighborhoods.EnsureExistsKeepsTable | database/migrations/2026_01_28_000003_create_bairros_table.php:13-18 | from a table whose rows all have active and distinct slugs, ensureExists leaves such a table |
| Neighborhoods.SlugCollisionFails | app/Services/NeighborhoodService.php:29-35 | a name that misses every row by lower-cased name but whose slug a row already has ends in the insert failing, with the table unchanged |
| Neighborhoods.EnsureExistsTwice | app/Services/NeighborhoodService.php:17-36 | a second call with the same name creates nothing: it finds the row the first call found or stored, and fails again when the first failed |
| Neighborhoods.FindOrCreateOrder | app/Services/NeighborhoodService.php:45-61 | an id that resolves wins, returns that stored row and creates nothing; else a given name goes through ensureExists, with its outcomes including the failed insert; with neither the answer is null and nothing is created |
| Neighborhoods.BairroTable.constructor | app/Services/NeighborhoodService.php:9 | the table holds the given rows |
| Neighborhoods.BairroTable.EnsureExists | app/Services/NeighborhoodService.php:17-36 | the table and the outcome (found, inserted or failed on the slug index) are those of ensureExists on the old rows |
| Neighborhoods.BairroTable.FindOrCreate | app/Services/NeighborhoodService.php:45-61 | the table and the outcome are those of findOrCreate on the old rows: the id path, then ensureExists with its failed insert, then null |
| UserProfile.BairroIdOf | app/Http/Controllers/Api/UserController.php:56 | the bairro is taken from bairro_id when it is set, else from bairroId, else null |
| UserProfile.ProfileData | app/Http/Controllers/Api/UserController.php:47-60 | the data holds nome only when it is set and not null, email and address whenever their key is present, bairro_id whenever either spelling is present, and nothing else |
| UserProfile.ProfileApplied | app/Http/Controllers/Api/UserController.php:62 | each key given writes its column and every other column keeps its value |
| UserProfile.ProfileUpdateEffect | app/Http/Controllers/Api/UserController.php:42-68 | a null name is ignored, a null email or address clears the column, the bairro is read from either spelling, and an empty request changes nothing |
| UserProfile.SettingsMerged | app/Http/Controllers/Api/UserController.php:141-142 | the merged settings hold every stored key and every requested key; the request wins on conflict |
| UserProfile.SettingsMergeLaws | app/Http/Controllers/Api/UserController.php:135-151 | merging keeps every stored setting, an empty request changes nothing, merging the same request twice equals merging it once, and no stored settings gives the request |
| UserProfile.DefaultSettingsAllOn | app/Models/User.php:46-48 | a new account has exactly the four notification flags, all on |
| UserProfile.Account.constructor | app/Http/Controllers/Api/UserController.php:44 | the account holds the given user row |
| UserProfile.Account.Update | app/Http/Controllers/Api/UserController.php:42-68 | the data built is the profile data of the request, and the user row becomes that data applied to the old row |
| UserProfile.Account.UpdateNotifications | app/Http/Controllers/Api/UserController.php:135-151 | the settings returned are the merge of the stored ones with the request, and only that column changes |
| ExceptionHandler.ErrorResponse | app/Exceptions/Handler.php:154-160 | the reply carries the message, the code and the status, with no errors and no retryAfter |
| ExceptionHandler.ClassBasename | app/Exceptions/Handler.php:93-94 | the base name holds no namespace separator, and a name without one is its own base name |
| ExceptionHandler.LeadingDigits | app/Exceptions/Handler.php:122-126 | the result is the longest prefix of digits |
| ExceptionHandler.DropSpaces | app/Exceptions/Handler.php:122-126 | the result is a suffix that does not start with white space |
| ExceptionHandler.RetryAfterReadings | app/Exceptions/Handler.php:120-128 | a missing Retry-After gives 60, one written in digits gives its number, and one written as an HTTP date gives 0 |
| ExceptionHandler.ApiRendered | app/Exceptions/Handler.php:62-66 | the JSON rendering applies exactly to api paths and requests expecting JSON |
| ExceptionHandler.CodesAndStatuses | app/Exceptions/Handler.php:72-149 | each error code answers exactly its kind of exception and goes with its fixed status; a generic HTTP exception keeps its own status |
| ExceptionHandler.ExtraFields | app/Exceptions/Handler.php:111-128 | only a validation failure carries its errors, verbatim, and only rate limiting carries retryAfter, 60 when the header is missing |
| ExceptionHandler.MessagesShown | app/Exceptions/Handler.php:92-148 | an unexpected exception shows its message only in debug mode; an HTTP exception keeps its own message unless it is empty; a missing model is named in the message |
| ExceptionHandler.DebugOnlyShowsMessage | app/Exceptions/Handler.php:139-148 | the debug flag changes neither a status nor a code, and changes nothing but the message of an unexpected exception |
| CacheHeaders.Etag | app/Http/Middleware/CacheHeaders.php:58-61 | an ETag is the digest between double quotes |
| CacheHeaders.PoliciesSet | app/Http/Middleware/CacheHeaders.php:25-50 | each policy sets its Cache-Control value; static and semi-static add the ETag, user adds none, any other type behaves as dynamic with Pragma and Expires; every other header is kept |
| CacheHeaders.FailuresUntouched | app/Http/Middleware/CacheHeaders.php:20-23 | a response that is not 2xx leaves with exactly the headers it had |
| CacheHeaders.EtagOnlyWhenShared | app/Http/Middleware/CacheHeaders.php:25-50 | a response gains an ETag exactly when it is 2xx under a static or semi-static policy |
| CacheHeaders.Response.constructor | app/Http/Middleware/CacheHeaders.php:18 | the response holds the given status, headers and body |
| CacheHeaders.Response.ApplyCacheHeaders | app/Http/Middleware/CacheHeaders.php:16-53 | the headers become those of the policy for the old status and headers, and the status and body are unchanged |
| WhatsApp.ConfiguredIsNotDevMode | app/Services/WhatsAppService.php:175-199 | the service is configured exactly when it is not in development mode, and an empty instance id or token means development mode |
| WhatsApp.FormatPhoneNumber | app/Services/WhatsAppService.php:152-168 | the result is digits only; an 11-digit number gets the 55 country code in front, any other keeps just its digits |
| WhatsApp.FormatPhoneLaws | app/Services/WhatsAppService.php:152-168 | a 13-digit number with the country code is sent as it is, and formatting twice equals formatting once |
| WhatsApp.FormatOtpMessage | app/Services/WhatsAppService.php:139-145 | the message holds the code verbatim between the fixed head and tail |
| WhatsApp.OtpMessageCarriesCode | app/Services/WhatsAppService.php:139-145 | the message starts with the fixed head, ends with the fixed tail, and two different codes never give the same message |
| WhatsApp.PayloadFor | app/Services/WhatsAppService.php:56-65 | the payload has the formatted phone and the message, and the typing delay exactly when it lies in 1..15 |
| WhatsApp.SendText | app/Services/WhatsAppService.php:47-99 | in development mode nothing is posted and the call succeeds; otherwise the payload is posted and the result is true exactly when a 2xx came back, false on any other status or an exception |
| WhatsApp.SendOtp | app/Services/WhatsAppService.php:32-37 | the OTP message is sent without a typing delay |
| WhatsApp.SendAlert | app/Services/WhatsAppService.php:110-115 | the alert text is sent with a three-second typing delay |
| WhatsApp.SendEventNotification | app/Services/WhatsAppService.php:126-134 | the event text is sent without a typing delay |

## Left out

- Concurrency. The cache lock and the one-second sleep are explicit sequential state: refresh is split into phases, and two callers are interleaved as a sequence of calls. The non-atomic read-then-write of the rate-limit counter is modelled as one step.
- Randomness, hashing and crypto. The six-digit draw, token secrets, `uniqid` and the bcrypt check are inputs. Sanctum's hash lookup and the `md5` of the grace key are taken as injective. The ETag digest is a function parameter.
- Calendar arithmetic. `scopeToday`, `scopeTomorrow`, `scopeWeekend`, `scopeThisWeek`, `scopeThisMonth`, `scopeInMonth` and `scopeOnDate` depend on calendar helpers and are not modelled. `diffInDays` and `diffInHours` follow Carbon 3: signed, fractional differences of whole seconds. That makes the popularity score a float.
- Floating point. Ticket prices, the price-range filters, `EventTicket::getPriceRange`, venue coordinates and the `(float)` casts in the event resources are not modelled.
- I/O. The Z-API HTTP call is an input: the status it answered, or that it threw. Logging, the activity log, media uploads (avatars, forum uploads, media conversions) and the shape of JSON responses beyond the fields stated are not modelled.
- Query plumbing. Eloquent ordering beyond `created_at` order, which the model reads off the table order, pagination internals, eager loading, and the list endpoints of events, tags, categories, bairros and admin users are not modelled. The event scopes that only filter a column (category, bairro, venue, organiser, tag, price, age rating, accessibility, search) are query code and are not modelled either.
- The admin panel. Filament resources, pages, widgets and the login page are not modelled, apart from the moderation-queue entry conditions of a content flag. The restriction status badge in the restriction resource is not modelled.
- Framework request handling. The TrimStrings and ConvertEmptyStringsToNull middleware are not modelled: a request is the data after them. Route wiring is not modelled either. The only note taken from it is that refresh sits behind the access-token guard.
- Declarative rule arrays. The rules of SendOtpRequest, StoreRsvpRequest, UpdateRsvpRequest, UpdateTopicRequest and RegisterRequest are predicates over the request. StoreTopicRequest, StoreCommentRequest, ReportRequest, UpdateUserRequest and UpdateNotificationsRequest are not part of this model: their validated data is a parameter of the endpoint that uses it. VerifyOtpRequest is not part of this model either: `OtpController::verify` takes the phone and the code as strings. `ResetPasswordController` imports it but validates `reset` with its own rules, which `AuthFlows.ResetInputOk` states.
- Framework exception conversion. Laravel's `prepareException` turns some exceptions into HTTP exceptions before the renderable callback runs; it is not part of this model. `ExceptionHandler.Rendered` takes the exception as it reaches `renderApiException`.
- Validator rules without a definition here. Email format, uuid format and `exists` lookups are function parameters.
- Text approximations. Title-casing (`mb_convert_case`) and `Str::slug` are function parameters. Where the code compares `LOWER(nome)` in SQL with `strtolower` in PHP, the model folds ASCII letters only, on both sides; how the database folds letters outside ASCII is not modelled.
- PHP conversions. The `(int)` cast of a string is approximated: leading white space, an optional sign, then leading digits. A `guestsCount` sent as a numeric string is not accepted as an integer. Header names are not case-folded.
- `UserProfile.SettingsMerged`: does not model the renumbering that `array_merge` applies to numeric keys; settings keys are strings.
- The JSON error replies are modelled by their message, code, status and extra fields only. The framework's own rendering for requests outside the API is `None`.
- The WhatsApp credentials are strings, read with `''` as the default. A credential configured as `null` is not modelled.
- OtpService.LatestMatch: ties in `created_at` are not modelled. Two rows inserted in the same second have no defined `latest()` order; the model picks the one inserted later.
- EventActions.GoingLatestFirst: ties in `created_at` are not modelled either. RSVPs created in the same second come back newest-inserted first.
- Events.ColumnValue: rounds a half up. A float written to an integer column is rounded to the nearest integer; which way an exact half goes depends on the database. That rule is not modelled further.
- Sessions.Plaintext: a bearer string is always `<id>|<secret>`. Sanctum also looks up a string without `|` by its hash alone; that path is not modelled.
- CacheHeaders.HeadersAfter: a header value is the string the middleware sets. Symfony's `Cache-Control` bag parses, normalises and sorts the directives it is given; that rewriting is not modelled.
- Topics.InPeriod: 'hoje' compares days counted from the epoch in UTC. The code's `whereDate(created_at, today())` uses the application time zone; time zones are not modelled.
- Neighborhoods.EnsureExisted: the `nome` and `slug` columns are 100 characters long; an over-long name is not modelled as failing the insert. The uuid `newId` is taken never to collide with a stored key.
- Forum.SearchMatches: the search text is matched literally, folding ASCII case. In the code `%` and `_` inside it keep their `LIKE` meaning, and the column collation may also fold accents; neither is modelled.
- Common.RequestBoolean: trims with PHP's `trim` set, which also drops NUL bytes that `filter_var` keeps; only string values are modelled, not a JSON `true`.

## Findings

| source | as written | input that shows it | evidently intended | confidence | as-written member | corrected member |
|---|---|---|---|---|---|---|
| app/Http/Controllers/Auth/AuthController.php:24-36 | registration accepts the phone when any OTP row of it has `verified_at` within ten minutes; superseding a code also stamps `verified_at` | two send-otp calls for a new phone, no verify-otp, then a valid registration request | only a successful verify-otp opens registration: the `verified_phone:<phone>` mark that verify writes | not executed | AuthFlows.SupersededCodeOpensRegistration | AuthFlows.VerifiedPhoneRegisters |
| app/Http/Controllers/Auth/AuthController.php:44 | the new user's `bairro_id` is read from the validated data, but no rule names `bairro_id`, so `validated()` drops the copy `prepareForValidation` made | a registration with `bairroId` set to an existing bairro's uuid | the user gets that bairro: read the validated `bairroId` | not executed | RegisterRequest.BairroIdDropped | AuthFlows.BairroIdLost |
| app/Http/Controllers/Admin/AdminForumController.php:72-82 | `updateOrCreate` writes type `'forum_suspension'`, which is not a RestrictionType value, and `expires_at`, which is not fillable | `suspendUser` with duration `24h` and a reason | a forum mute (`mute_forum`) ending at the computed expiry, upserted per user; the upsert's values must also reset `revoked_at` and `starts_at` and set the forum scope, since the written values array holds only `reason`, `expires_at` and `created_by`, and with the type fixed alone a revoked row would stay revoked | not executed | AdminForum.SuspensionNeverRecorded | AdminForum.SuspensionTakesEffect |
| app/Http/Requests/Forum/UpdateTopicRequest.php:26 | `/[a-zA-ZÀ-ÿ]+/` has no `u` modifier, so the class holds the ASCII letters, the bytes 0x80 to 0xC3 and 0xBF; every non-ASCII character has a byte in it, so any non-ASCII text passes | a title of five emoji (U+1F600 five times) | the title holds at least one Latin letter, accented ones included | not executed | TopicRequests.EmojiTitlePasses | TopicRequests.IntendedIsStricter |
| app/Http/Controllers/Api/Events/EventRsvpController.php:212-226 | `substr($last, 0, 1)` takes the first byte of the last name | an attendee named "Ana Érica": the display name ends in the lone byte 0xC3 and is not valid UTF-8 | the first character of the last name: "Ana É." | not executed | EventActions.AccentedInitialBreaksUtf8 | EventActions.DisplayNameAgainstWritten |
| app/Services/NeighborhoodService.php:72-75 | in `\bJd\.?\b` the closing `\b` follows the optional dot, so before a space the dot cannot be matched and stays | "Jd. Europa" becomes "Jardim. Europa" | "Jardim Europa" | not executed | Neighborhoods.DotKeptAsWritten | Neighborhoods.DotDroppedAsIntended |
