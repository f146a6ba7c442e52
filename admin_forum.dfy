/** Suspending a user from the forum (`AdminForumController::suspendUser`):
    validation of the duration and the reason, the expiry they give, and the
    upsert of the user's restriction row. */
module AdminForum {
  import opened Common
  import opened Users
  import opened Restrictions
  import Forum

  /** The `type` value the controller writes. */
  const SUSPENSION_TYPE: string := "forum_suspension"

  /** The `in` rule on `duracao` and the match on it: the length of the
      suspension in seconds, None for `permanente`; an unknown value has
      no length. */
  function DurationOf(d: string): (len: Option<Option<int>>)
    ensures len.Some? <==> d == "24h" || d == "7d" || d == "30d" || d == "permanente"
    ensures len == Some(None) <==> d == "permanente"
    ensures len.Some? && len.value.Some? ==> len.value.value >= DAY
  {
    if d == "24h" then Some(Some(24 * HOUR))
    else if d == "7d" then Some(Some(7 * DAY))
    else if d == "30d" then Some(Some(30 * DAY))
    else if d == "permanente" then Some(None)
    else None
  }

  /** `duracao`: `required|in:24h,7d,30d,permanente`. */
  predicate DuracaoOk(input: Request)
  {
    "duracao" in input && input["duracao"].JStr? && DurationOf(input["duracao"].s).Some?
  }

  /** The fields whose rules fail. */
  function SuspendFailures(input: Request): (errs: set<string>)
    ensures "duracao" in errs <==> !DuracaoOk(input)
    ensures "motivo" in errs <==> !Forum.MotivoOk(input)
    ensures errs <= {"duracao", "motivo"}
  {
    (if DuracaoOk(input) then {} else {"duracao"}) + (if Forum.MotivoOk(input) then {} else {"motivo"})
  }

  /** `$expiresAt`: now plus the duration, null when permanent. */
  function ExpiresAt(input: Request, now: int): (ends: Option<int>)
    requires DuracaoOk(input)
    ensures ends.None? <==> input["duracao"].s == "permanente"
    ensures ends.Some? ==> ends.value >= now + DAY
  {
    match DurationOf(input["duracao"].s).value
    case None => None
    case Some(len) => Some(now + len)
  }

  datatype SuspendResponse = SuspendInvalid(errors: set<string>) | Suspended(duracao: string) | ServerError

  /** The row `updateOrCreate` finds: the first one with this user and type,
      or -1. */
  function FirstMatch(rows: seq<Restriction>, user: string, t: RestrictionType): (i: int)
    ensures -1 <= i < |rows|
    ensures i >= 0 ==> rows[i].userId == user && rows[i].rtype == t
    ensures forall j :: 0 <= j < |rows| && (i == -1 || j < i) ==> rows[j].userId != user || rows[j].rtype != t
    decreases |rows|
  {
    if rows == [] then -1
    else if rows[0].userId == user && rows[0].rtype == t then 0
    else
      var k := FirstMatch(rows[1..], user, t);
      if k == -1 then -1 else k + 1
  }

  /** At most one row per user and type. */
  predicate OneRowPerKey(rows: seq<Restriction>)
  {
    forall i, j :: 0 <= i < j < |rows| ==> rows[i].userId != rows[j].userId || rows[i].rtype != rows[j].rtype
  }

  // ---------------------------------------------------------------
  // As written
  // ---------------------------------------------------------------

  /** The upsert as written, had the type cast succeeded: the key `(user,
      type)` and the values reason and author; `expires_at` is not a fillable
      attribute nor a column, so it is dropped, and a new row gets the
      default Global scope and no end. */
  function UpsertedAsWritten(rows: seq<Restriction>, target: string, t: RestrictionType, actor: string, reason: string, newId: string): seq<Restriction>
  {
    var i := FirstMatch(rows, target, t);
    if i >= 0 then rows[i := rows[i].(reason := Some(reason), createdBy := actor)]
    else rows + [Restriction(newId, target, t, Global, Some(reason), actor, None, None, None, None)]
  }

  /** `suspendUser` as written: after validation the type value is cast to
      the restriction type, and `forum_suspension` is not one, so the cast
      throws and the request ends in a server error. */
  function SuspendedAsWritten(rows: seq<Restriction>, target: string, actor: string, input: Request, newId: string): (seq<Restriction>, SuspendResponse)
  {
    var errs := SuspendFailures(input);
    if errs != {} then (rows, SuspendInvalid(errs))
    else match TypeFrom(SUSPENSION_TYPE)
      case None => (rows, ServerError)
      case Some(t) => (UpsertedAsWritten(rows, target, t, actor, input["motivo"].s, newId), Suspended(input["duracao"].s))
  }

  /** `forum_suspension` is not a value of the restriction type. */
  lemma SuspensionTypeUnknown()
    ensures TypeFrom(SUSPENSION_TYPE).None?
  {
    assert SUSPENSION_TYPE[0] == 'f';
  }

  /** No suspension is ever recorded: every valid request is a server error
      that leaves the restrictions as they were, so a user who was not
      muted stays unmuted. */
  lemma SuspensionNeverRecorded(rows: seq<Restriction>, target: User, actor: string, input: Request, newId: string, now: int)
    ensures SuspendFailures(input) == {} ==> SuspendedAsWritten(rows, target.id, actor, input, newId) == (rows, ServerError)
    ensures SuspendFailures(input) != {} ==> SuspendedAsWritten(rows, target.id, actor, input, newId) == (rows, SuspendInvalid(SuspendFailures(input)))
    ensures !HasActiveRestriction(target, rows, MuteForum, Some(Forum), now) ==>
      !HasActiveRestriction(target, SuspendedAsWritten(rows, target.id, actor, input, newId).0, MuteForum, Some(Forum), now)
  {
    assert SUSPENSION_TYPE[0] == 'f';
  }

  // ---------------------------------------------------------------
  // As intended
  // ---------------------------------------------------------------

  /** The type the suspension evidently means. */
  const FORUM_SUSPENSION: RestrictionType := MuteForum

  /** The suspension row as intended: a forum mute with the reason, the
      author and the end time, starting at once and not revoked. */
  function SuspensionRow(id: string, target: string, actor: string, reason: string, ends: Option<int>): Restriction
  {
    Restriction(id, target, FORUM_SUSPENSION, Forum, Some(reason), actor, None, ends, None, None)
  }

  /** The upsert as intended: the first row keyed on the user and the type is
      rewritten in place (keeping its id), otherwise a row is added. */
  function Upserted(rows: seq<Restriction>, target: string, actor: string, reason: string, ends: Option<int>, newId: string): seq<Restriction>
  {
    var i := FirstMatch(rows, target, FORUM_SUSPENSION);
    if i >= 0 then rows[i := SuspensionRow(rows[i].id, target, actor, reason, ends)]
    else rows + [SuspensionRow(newId, target, actor, reason, ends)]
  }

  /** `suspendUser` as intended. */
  function SuspendedFixed(rows: seq<Restriction>, target: string, actor: string, input: Request, now: int, newId: string): (seq<Restriction>, SuspendResponse)
  {
    var errs := SuspendFailures(input);
    if errs != {} then (rows, SuspendInvalid(errs))
    else (Upserted(rows, target, actor, input["motivo"].s, ExpiresAt(input, now), newId), Suspended(input["duracao"].s))
  }

  /** Where the upsert puts its row. */
  lemma UpsertedAt(rows: seq<Restriction>, target: string, actor: string, reason: string, ends: Option<int>, newId: string)
    ensures var rows' := Upserted(rows, target, actor, reason, ends, newId);
      var i := FirstMatch(rows, target, FORUM_SUSPENSION);
      (i >= 0 ==> |rows'| == |rows| && rows'[i] == SuspensionRow(rows[i].id, target, actor, reason, ends))
      && (i == -1 ==> |rows'| == |rows| + 1 && rows'[|rows|] == SuspensionRow(newId, target, actor, reason, ends))
      && (forall j :: 0 <= j < |rows| && j != i ==> rows'[j] == rows[j])
  {
  }

  /** A valid suspension is in force from now until its end (for ever when
      permanent), whatever rows there were, a revoked one included. */
  lemma SuspensionTakesEffect(rows: seq<Restriction>, target: User, actor: string, input: Request, now: int, newId: string, t: int)
    requires SuspendFailures(input) == {}
    requires now <= t && (input["duracao"].s == "permanente" || t < ExpiresAt(input, now).value)
    ensures SuspendedFixed(rows, target.id, actor, input, now, newId).1 == Suspended(input["duracao"].s)
    ensures HasActiveRestriction(target, SuspendedFixed(rows, target.id, actor, input, now, newId).0, MuteForum, Some(Forum), t)
  {
    var ends := ExpiresAt(input, now);
    var reason := input["motivo"].s;
    var rows' := Upserted(rows, target.id, actor, reason, ends, newId);
    UpsertedAt(rows, target.id, actor, reason, ends, newId);
    var i := FirstMatch(rows, target.id, FORUM_SUSPENSION);
    var r := if i >= 0 then rows'[i] else rows'[|rows|];
    assert r in rows';
    assert InActiveScope(r, t);
    assert r in ActiveRows(rows', t);
  }

  /** The upsert keeps one row per user and type, and leaves every row of
      other users and of other types untouched. */
  lemma SuspensionKeepsKeysUnique(rows: seq<Restriction>, target: string, actor: string, input: Request, now: int, newId: string)
    requires OneRowPerKey(rows)
    ensures OneRowPerKey(SuspendedFixed(rows, target, actor, input, now, newId).0)
    ensures forall r :: r in rows && (r.userId != target || r.rtype != FORUM_SUSPENSION) ==>
      r in SuspendedFixed(rows, target, actor, input, now, newId).0
  {
    if SuspendFailures(input) == {} {
      var ends := ExpiresAt(input, now);
      var reason := input["motivo"].s;
      UpsertedAt(rows, target, actor, reason, ends, newId);
      var rows' := Upserted(rows, target, actor, reason, ends, newId);
      forall r | r in rows && (r.userId != target || r.rtype != FORUM_SUSPENSION)
        ensures r in rows'
      {
        var j :| 0 <= j < |rows| && rows[j] == r;
        assert rows'[j] == r;
      }
    }
  }

  /** The written and the intended versions agree on invalid input, and on
      valid input only the intended one records anything. */
  lemma WrittenAgainstIntended(rows: seq<Restriction>, target: User, actor: string, input: Request, now: int, newId: string)
    ensures SuspendFailures(input) != {} ==>
      SuspendedAsWritten(rows, target.id, actor, input, newId) == SuspendedFixed(rows, target.id, actor, input, now, newId)
    ensures SuspendFailures(input) == {} ==>
      SuspendedAsWritten(rows, target.id, actor, input, newId).1 == ServerError
      && SuspendedFixed(rows, target.id, actor, input, now, newId).1 == Suspended(input["duracao"].s)
  {
    SuspensionNeverRecorded(rows, target, actor, input, newId, now);
  }

  /** The `user_restrictions` table, upserted in place. */
  class RestrictionTable {
    var rows: seq<Restriction>

    constructor (initial: seq<Restriction>)
      ensures rows == initial
    {
      rows := initial;
    }

    /** `suspendUser`: validation, the expiry, then the upsert, whose type
        cast throws before any row is written. */
    method SuspendUser(target: string, actor: string, input: Request, now: int, newId: string) returns (r: SuspendResponse)
      modifies this
      ensures (rows, r) == SuspendedAsWritten(old(rows), target, actor, input, newId)
      ensures rows == old(rows)
    {
      var errs := SuspendFailures(input);
      if errs != {} {
        return SuspendInvalid(errs);
      }
      var ends := ExpiresAt(input, now);
      SuspensionTypeUnknown();
      match TypeFrom(SUSPENSION_TYPE)
      case None =>
        r := ServerError;
      case Some(_) =>
        assert false;
    }
  }
}
