/** One row of the `otp_codes` table and the row-level predicates and updates
    of the OtpCode model. */
module OtpCodes {
  import opened Common

  /** The `type` enum column: 'login', 'register' or 'password_reset'. */
  datatype OtpType = Login | Register | PasswordReset

  /** A stored code. `attempts` counts failed verifications charged to it;
      `verifiedAt` is null until it is consumed or superseded. */
  datatype OtpRecord = OtpRecord(
    id: nat,
    phone: string,
    code: string,
    otpType: OtpType,
    attempts: int,
    createdAt: int,
    expiresAt: int,
    verifiedAt: Option<int>)

  /** The default of `hasMaxAttempts`. */
  const DEFAULT_MAX_ATTEMPTS: int := 5

  /** `scopeValid`: not yet expired and not yet verified. */
  predicate IsValid(r: OtpRecord, now: int)
  {
    r.expiresAt > now && r.verifiedAt.None?
  }

  /** `isExpired`: `expires_at` lies strictly in the past. */
  predicate IsExpired(r: OtpRecord, now: int)
  {
    r.expiresAt < now
  }

  /** `isVerified`. */
  predicate IsVerified(r: OtpRecord)
  {
    r.verifiedAt.Some?
  }

  /** `hasMaxAttempts($max)`. */
  predicate HasMaxAttempts(r: OtpRecord, max: int := DEFAULT_MAX_ATTEMPTS)
  {
    r.attempts >= max
  }

  /** `forPhone($phone)`, optionally `ofType($type)`, then `valid()`. */
  predicate Selects(r: OtpRecord, phone: string, t: Option<OtpType>, now: int)
  {
    r.phone == phone && (t.None? || r.otpType == t.value) && IsValid(r, now)
  }

  /** `incrementAttempts`: one more failed attempt, nothing else changes. */
  function IncrementAttempts(r: OtpRecord): (r': OtpRecord)
    ensures r'.attempts == r.attempts + 1
    ensures r'.(attempts := r.attempts) == r
    ensures IsVerified(r') == IsVerified(r)
    ensures forall now :: IsValid(r', now) == IsValid(r, now)
  {
    r.(attempts := r.attempts + 1)
  }

  /** `markAsVerified`: stamps `verified_at`; the row leaves the valid set for good. */
  function MarkAsVerified(r: OtpRecord, now: int): (r': OtpRecord)
    ensures IsVerified(r') && r'.verifiedAt == Some(now)
    ensures forall t :: !IsValid(r', t)
    ensures r'.(verifiedAt := r.verifiedAt) == r
  {
    r.(verifiedAt := Some(now))
  }

  /** A valid row is never expired, and at `expires_at == now` a row is neither. */
  lemma ValidIsNotExpired(r: OtpRecord, now: int)
    ensures IsValid(r, now) ==> !IsExpired(r, now)
    ensures !IsValid(r, r.expiresAt) && !IsExpired(r, r.expiresAt)
  {
  }

  /** Validity only shrinks as the clock advances. */
  lemma ValidityShrinks(r: OtpRecord, t: int, later: int)
    requires t <= later
    ensures IsValid(r, later) ==> IsValid(r, t)
  {
  }
}
