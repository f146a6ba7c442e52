/** A row of `password_resets`: a reset token for a phone, valid until it
    expires or is used. */
module PasswordResets {
  import opened Common

  datatype PasswordReset = PasswordReset(phone: string, token: string, expiresAt: int, usedAt: Option<int>)

  /** `scopeValid`: not expired and not used. */
  predicate IsValid(r: PasswordReset, now: int)
  {
    r.expiresAt > now && r.usedAt.None?
  }

  /** `scopeForPhone`. */
  predicate ForPhone(r: PasswordReset, phone: string)
  {
    r.phone == phone
  }

  /** `isExpired`: `expires_at` strictly in the past. */
  predicate IsExpired(r: PasswordReset, now: int)
  {
    r.expiresAt < now
  }

  /** `isUsed`. */
  predicate IsUsed(r: PasswordReset)
  {
    r.usedAt.Some?
  }

  /** `markAsUsed`: stamps `used_at`, nothing else. */
  function MarkedAsUsed(r: PasswordReset, now: int): (r': PasswordReset)
    ensures r'.usedAt == Some(now)
    ensures r'.(usedAt := r.usedAt) == r
  {
    r.(usedAt := Some(now))
  }

  /** Valid implies neither expired nor used; at `expires_at == now` a token is
      neither valid nor expired. */
  lemma ValidIsNotExpired(r: PasswordReset, now: int)
    ensures IsValid(r, now) ==> !IsExpired(r, now) && !IsUsed(r)
    ensures !IsValid(r, r.expiresAt) && !IsExpired(r, r.expiresAt)
  {
  }

  /** A used token is used and never valid again. */
  lemma UsedNeverValid(r: PasswordReset, now: int, t: int)
    ensures IsUsed(MarkedAsUsed(r, now)) && !IsValid(MarkedAsUsed(r, now), t)
  {
  }

  /** The row, updated in place by `markAsUsed`. */
  class PasswordResetRecord {
    var row: PasswordReset

    constructor (r: PasswordReset)
      ensures row == r
    {
      row := r;
    }

    method MarkAsUsed(now: int)
      modifies this
      ensures row == MarkedAsUsed(old(row), now)
      ensures IsUsed(row) && forall t :: !IsValid(row, t)
    {
      row := row.(usedAt := Some(now));
    }
  }
}
