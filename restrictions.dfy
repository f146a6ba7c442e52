/** User restrictions: a moderator-imposed suspension, mute or block with an
    optional start, an optional end and a revocation stamp. */
module Restrictions {
  import opened Common

  /** The restriction types; the `type` column is an enum of exactly these. */
  datatype RestrictionType = SuspendLogin | MuteForum | ShadowbanForum | BlockUploads | RateLimitForum

  datatype RestrictionScope = Global | Forum | Reports | Uploads

  /** The stored value of a restriction type. */
  function TypeValue(t: RestrictionType): string
  {
    match t
    case SuspendLogin => "suspend_login"
    case MuteForum => "mute_forum"
    case ShadowbanForum => "shadowban_forum"
    case BlockUploads => "block_uploads"
    case RateLimitForum => "rate_limit_forum"
  }

  /** `RestrictionType::from`: the type whose stored value is `s`, if any. */
  function TypeFrom(s: string): (t: Option<RestrictionType>)
    ensures t.Some? ==> TypeValue(t.value) == s
    ensures t.None? ==> forall r :: TypeValue(r) != s
  {
    if s == "suspend_login" then Some(SuspendLogin)
    else if s == "mute_forum" then Some(MuteForum)
    else if s == "shadowban_forum" then Some(ShadowbanForum)
    else if s == "block_uploads" then Some(BlockUploads)
    else if s == "rate_limit_forum" then Some(RateLimitForum)
    else None
  }

  datatype Restriction = Restriction(
    id: string,
    userId: string,
    rtype: RestrictionType,
    scope: RestrictionScope,
    reason: Option<string>,
    createdBy: string,
    startsAt: Option<int>,
    endsAt: Option<int>,
    revokedAt: Option<int>,
    revokedBy: Option<string>)

  /** `isActive`: not revoked, started (no start counts as started) and not
      yet ended (no end counts as never ending). */
  predicate IsActive(r: Restriction, now: int)
  {
    if r.revokedAt.Some? then false
    else if r.startsAt.Some? && r.startsAt.value > now then false
    else if r.endsAt.None? then true
    else r.endsAt.value > now
  }

  /** The `active` scope's where-clauses. */
  predicate InActiveScope(r: Restriction, now: int)
  {
    r.revokedAt.None?
    && (r.startsAt.None? || r.startsAt.value <= now)
    && (r.endsAt.None? || r.endsAt.value > now)
  }

  /** The `expired` scope: an end at or before now, not revoked. */
  predicate InExpiredScope(r: Restriction, now: int)
  {
    r.endsAt.Some? && r.endsAt.value <= now && r.revokedAt.None?
  }

  /** The `revoked` scope. */
  predicate InRevokedScope(r: Restriction)
  {
    r.revokedAt.Some?
  }

  /** `scopeActive` as a filter over rows, in their order. */
  function ActiveRows(rows: seq<Restriction>, now: int): (out: seq<Restriction>)
    ensures forall r :: r in out <==> r in rows && InActiveScope(r, now)
    ensures |out| <= |rows|
  {
    if rows == [] then []
    else if InActiveScope(rows[0], now) then [rows[0]] + ActiveRows(rows[1..], now)
    else ActiveRows(rows[1..], now)
  }

  /** The scope keeps the table's order: filtering two runs of rows one
      after the other gives the two filtered runs one after the other. */
  lemma {:induction false} ActiveRowsInOrder(a: seq<Restriction>, b: seq<Restriction>, now: int)
    ensures ActiveRows(a + b, now) == ActiveRows(a, now) + ActiveRows(b, now)
    decreases |a|
  {
    if a == [] {
      assert a + b == b;
    } else {
      assert (a + b)[0] == a[0];
      assert (a + b)[1..] == a[1..] + b;
      ActiveRowsInOrder(a[1..], b, now);
      if InActiveScope(a[0], now) {
        calc {
          ActiveRows(a + b, now);
          [a[0]] + ActiveRows(a[1..] + b, now);
          [a[0]] + (ActiveRows(a[1..], now) + ActiveRows(b, now));
          ([a[0]] + ActiveRows(a[1..], now)) + ActiveRows(b, now);
        }
      }
    }
  }

  /** Rows that are all in the scope come back as they are. */
  lemma {:induction false} ActiveRowsAllActive(rows: seq<Restriction>, now: int)
    requires forall i :: 0 <= i < |rows| ==> InActiveScope(rows[i], now)
    ensures ActiveRows(rows, now) == rows
    decreases |rows|
  {
    if rows != [] {
      ActiveRowsAllActive(rows[1..], now);
      assert [rows[0]] + rows[1..] == rows;
    }
  }

  /** `revoke($actor)`: stamps the revocation, nothing else. */
  function Revoked(r: Restriction, actor: string, now: int): (r': Restriction)
    ensures r'.revokedAt == Some(now) && r'.revokedBy == Some(actor)
    ensures r'.(revokedAt := r.revokedAt, revokedBy := r.revokedBy) == r
  {
    r.(revokedAt := Some(now), revokedBy := Some(actor))
  }

  /** The scope query selects exactly the restrictions `isActive` holds for. */
  lemma ActiveScopeIsActive(r: Restriction, now: int)
    ensures InActiveScope(r, now) <==> IsActive(r, now)
  {
  }

  /** The three verdicts of `isActive`: revoked never, not yet started never,
      started without end always, otherwise until the end. */
  lemma ActiveCases(r: Restriction, now: int)
    ensures r.revokedAt.Some? ==> !IsActive(r, now)
    ensures r.startsAt.Some? && r.startsAt.value > now ==> !IsActive(r, now)
    ensures r.revokedAt.None? && (r.startsAt.None? || r.startsAt.value <= now) ==>
      (IsActive(r, now) <==> r.endsAt.None? || r.endsAt.value > now)
  {
  }

  /** Expired, active and revoked do not overlap. */
  lemma ScopesDisjoint(r: Restriction, now: int)
    ensures !(InExpiredScope(r, now) && InActiveScope(r, now))
    ensures !(InExpiredScope(r, now) && InRevokedScope(r))
    ensures !(InActiveScope(r, now) && InRevokedScope(r))
  {
  }

  /** A revoked restriction is inactive at every time, and revoking changes
      no other field. */
  lemma RevokedNeverActive(r: Restriction, actor: string, now: int, t: int)
    ensures !IsActive(Revoked(r, actor, now), t)
    ensures Revoked(r, actor, now).endsAt == r.endsAt && Revoked(r, actor, now).rtype == r.rtype
  {
  }

  /** One restriction row, updated in place by `revoke`. */
  class RestrictionRecord {
    var row: Restriction

    constructor (r: Restriction)
      ensures row == r
    {
      row := r;
    }

    method Revoke(actor: string, now: int)
      modifies this
      ensures row == Revoked(old(row), actor, now)
      ensures forall t :: !IsActive(row, t)
    {
      row := row.(revokedAt := Some(now), revokedBy := Some(actor));
    }
  }
}
