/** The RSVP and favourite endpoints of an event: confirming, changing and
    cancelling attendance, the public attendee list with its privacy-minded
    display names, and the favourite toggle. */
module EventActions {
  import opened Common
  import opened Events
  import Resources

  // ---------------------------------------------------------------
  // Status values
  // ---------------------------------------------------------------

  /** `RsvpStatus` backing values. */
  function RsvpStatusValue(s: RsvpStatus): string
  {
    match s
    case Going => "going"
    case Maybe => "maybe"
    case NotGoing => "not_going"
  }

  /** `RsvpStatus::tryFrom`: the status whose value this is. */
  function RsvpStatusFrom(v: string): (s: Option<RsvpStatus>)
    ensures s.Some? ==> RsvpStatusValue(s.value) == v
    ensures s.None? ==> forall t :: RsvpStatusValue(t) != v
  {
    if v == "going" then Some(Going)
    else if v == "maybe" then Some(Maybe)
    else if v == "not_going" then Some(NotGoing)
    else None
  }

  /** Every status reads back from its value. */
  lemma RsvpStatusRoundTrip(s: RsvpStatus)
    ensures RsvpStatusFrom(RsvpStatusValue(s)) == Some(s)
  {
    match s
    case Going =>
    case Maybe =>
      assert RsvpStatusValue(s)[0] != "going"[0];
    case NotGoing =>
      assert RsvpStatusValue(s)[0] != "going"[0] && RsvpStatusValue(s)[0] != "maybe"[0];
  }

  // ---------------------------------------------------------------
  // The form requests
  // ---------------------------------------------------------------

  /** `status`: a string among the status values. */
  predicate StatusOk(input: Request)
  {
    "status" in input && input["status"].JStr? && RsvpStatusFrom(input["status"].s).Some?
  }

  /** `guestsCount`: `integer|min:1|max:10` when present; a null is not an
      integer. */
  predicate GuestsOk(input: Request)
  {
    "guestsCount" !in input || (input["guestsCount"].JInt? && 1 <= input["guestsCount"].i <= 10)
  }

  /** `notes`: `nullable|string|max:500`. */
  predicate NotesOk(input: Request)
  {
    "notes" !in input || input["notes"].JNull? || (input["notes"].JStr? && |input["notes"].s| <= 500)
  }

  /** `StoreRsvpRequest::prepareForValidation`: a missing guest count becomes
      one. */
  function Prepared(input: Request): (p: Request)
    ensures "guestsCount" in p
    ensures forall k :: k in p && k != "guestsCount" <==> k in input && k != "guestsCount"
    ensures forall k :: k in input && k != "guestsCount" ==> p[k] == input[k]
    ensures "guestsCount" in input ==> p["guestsCount"] == input["guestsCount"]
    ensures "guestsCount" !in input ==> p["guestsCount"] == JInt(1)
  {
    if "guestsCount" in input then input else input["guestsCount" := JInt(1)]
  }

  /** The fields `StoreRsvpRequest` rejects: the status is required. */
  function StoreFailures(input: Request): (errs: set<string>)
    ensures "status" in errs <==> !StatusOk(input)
    ensures "guestsCount" in errs <==> !GuestsOk(Prepared(input))
    ensures "notes" in errs <==> !NotesOk(input)
    ensures errs <= {"status", "guestsCount", "notes"}
  {
    var p := Prepared(input);
    (if StatusOk(p) then {} else {"status"})
    + (if GuestsOk(p) then {} else {"guestsCount"})
    + (if NotesOk(p) then {} else {"notes"})
  }

  /** The fields `UpdateRsvpRequest` rejects: every field is optional. */
  function UpdateFailures(input: Request): (errs: set<string>)
    ensures "status" in errs <==> "status" in input && !StatusOk(input)
    ensures "guestsCount" in errs <==> !GuestsOk(input)
    ensures "notes" in errs <==> !NotesOk(input)
    ensures errs <= {"status", "guestsCount", "notes"}
  {
    (if "status" !in input || StatusOk(input) then {} else {"status"})
    + (if GuestsOk(input) then {} else {"guestsCount"})
    + (if NotesOk(input) then {} else {"notes"})
  }

  /** `$validated['notes'] ?? null`. */
  function NotesOf(input: Request): (n: Option<string>)
    ensures n.Some? <==> "notes" in input && input["notes"].JStr?
    ensures n.Some? ==> n.value == input["notes"].s
  {
    if "notes" in input && input["notes"].JStr? then Some(input["notes"].s) else None
  }

  // ---------------------------------------------------------------
  // The RSVP table
  // ---------------------------------------------------------------

  /** `$event->rsvps()->where('user_id', …)->first()`: the index of the
      first RSVP of this user for this event, or -1. */
  function Lookup(rows: seq<Rsvp>, eventId: string, userId: string): (i: int)
    ensures -1 <= i < |rows|
    ensures i >= 0 ==> rows[i].eventId == eventId && rows[i].userId == userId
    ensures forall j :: 0 <= j < |rows| && (i == -1 || j < i) ==> rows[j].eventId != eventId || rows[j].userId != userId
    decreases |rows|
  {
    if rows == [] then -1
    else if rows[0].eventId == eventId && rows[0].userId == userId then 0
    else
      var k := Lookup(rows[1..], eventId, userId);
      if k == -1 then -1 else k + 1
  }

  /** The unique index on `(event_id, user_id)`. */
  predicate OneRsvpPerUser(rows: seq<Rsvp>)
  {
    forall i, j :: 0 <= i < j < |rows| ==> rows[i].eventId != rows[j].eventId || rows[i].userId != rows[j].userId
  }

  /** The table's invariant: the unique index, and guest counts the rules
      admit. */
  predicate TableOk(rows: seq<Rsvp>)
  {
    OneRsvpPerUser(rows) && forall i :: 0 <= i < |rows| ==> 1 <= rows[i].guestsCount <= 10
  }

  /** `$event->rsvps()`: the RSVPs of one event, in table order. */
  function ForEvent(rows: seq<Rsvp>, eventId: string): (rs: seq<Rsvp>)
    ensures forall r :: r in rs <==> r in rows && r.eventId == eventId
    decreases |rows|
  {
    if rows == [] then []
    else
      var last := rows[|rows| - 1];
      ForEvent(rows[..|rows| - 1], eventId) + (if last.eventId == eventId then [last] else [])
  }

  /** An added RSVP joins the end of its event's list and no other. */
  lemma ForEventAppend(rows: seq<Rsvp>, r: Rsvp, eventId: string)
    ensures ForEvent(rows + [r], eventId) == ForEvent(rows, eventId) + (if r.eventId == eventId then [r] else [])
  {
    assert (rows + [r])[..|rows|] == rows;
  }

  datatype RsvpResponse =
    | RsvpInvalid(errors: set<string>)
    | RsvpConflict(existing: Rsvp)
    | EventEnded
    | RsvpCreated(rsvp: Rsvp, message: string)
    | RsvpMissing
    | RsvpUpdated(rsvp: Rsvp)
    | RsvpCancelled
    | RsvpShown(current: Option<Rsvp>)

  /** `getRsvpMessage`. */
  function RsvpMessage(s: RsvpStatus): string
  {
    match s
    case Going => "Presença confirmada! Nos vemos lá! \U{1F389}"
    case Maybe => "Você marcou como " + ['"'] + "talvez" + ['"'] + ". Esperamos que possa ir!"
    case NotGoing => "Entendido. Talvez na próxima!"
  }

  /** Each status has its own message. */
  lemma RsvpMessagesDistinct(s: RsvpStatus, t: RsvpStatus)
    ensures RsvpMessage(s) == RsvpMessage(t) <==> s == t
  {
    var g, m, n := RsvpMessage(Going), RsvpMessage(Maybe), RsvpMessage(NotGoing);
    assert g[0] == 'P';
    assert m[0] == 'V';
    assert n[0] == 'E';
  }

  /** `show`: the user's RSVP for the event, if there is one. */
  function Shown(rows: seq<Rsvp>, eventId: string, userId: string): (r: RsvpResponse)
    ensures r.RsvpShown?
    ensures r.current.Some? <==> exists i :: 0 <= i < |rows| && rows[i].eventId == eventId && rows[i].userId == userId
    ensures r.current.Some? ==> r.current.value in rows && r.current.value.eventId == eventId && r.current.value.userId == userId
  {
    var i := Lookup(rows, eventId, userId);
    if i >= 0 then RsvpShown(Some(rows[i])) else RsvpShown(None)
  }

  /** `store`: the rules, then a 409 carrying the existing RSVP, then a 422
      once the event has ended, then the new RSVP. */
  function Stored(rows: seq<Rsvp>, e: Event, userId: string, input: Request, now: int, newId: string): (seq<Rsvp>, RsvpResponse)
  {
    var errs := StoreFailures(input);
    if errs != {} then (rows, RsvpInvalid(errs))
    else
      var i := Lookup(rows, e.id, userId);
      if i >= 0 then (rows, RsvpConflict(rows[i]))
      else if e.endAt < now then (rows, EventEnded)
      else
        var p := Prepared(input);
        var r := Rsvp(newId, e.id, userId, RsvpStatusFrom(input["status"].s).value, p["guestsCount"].i, NotesOf(input), false, now);
        (rows + [r], RsvpCreated(r, RsvpMessage(r.status)))
  }

  /** What `store` does: invalid input and a second RSVP change nothing, even
      for an event that has ended; otherwise the one new row holds the
      status, the guest count (one when not given), the notes (none when not
      given), is not yet notified, and is created now. */
  lemma StoreEffect(rows: seq<Rsvp>, e: Event, userId: string, input: Request, now: int, newId: string)
    ensures var (rows', r) := Stored(rows, e, userId, input, now, newId);
      (r.RsvpInvalid? || r.RsvpConflict? || r.EventEnded?) <==> rows' == rows
    ensures var (rows', r) := Stored(rows, e, userId, input, now, newId);
      && (StoreFailures(input) != {} <==> r.RsvpInvalid?)
      && (StoreFailures(input) == {} && (exists i :: 0 <= i < |rows| && rows[i].eventId == e.id && rows[i].userId == userId) <==> r.RsvpConflict?)
      && (r.RsvpConflict? ==> r.existing in rows && r.existing.eventId == e.id && r.existing.userId == userId)
      && (r.EventEnded? ==> e.endAt < now)
    ensures var (rows', r) := Stored(rows, e, userId, input, now, newId);
      r.RsvpCreated? ==>
        && e.endAt >= now
        && rows' == rows + [r.rsvp]
        && r.rsvp.eventId == e.id && r.rsvp.userId == userId && r.rsvp.id == newId
        && RsvpStatusValue(r.rsvp.status) == input["status"].s
        && ("guestsCount" in input ==> r.rsvp.guestsCount == input["guestsCount"].i)
        && ("guestsCount" !in input ==> r.rsvp.guestsCount == 1)
        && r.rsvp.notes == NotesOf(input)
        && !r.rsvp.notified && r.rsvp.createdAt == now
        && r.message == RsvpMessage(r.rsvp.status)
  {
    var (rows', r) := Stored(rows, e, userId, input, now, newId);
    if r.RsvpCreated? {
      assert |rows'| == |rows| + 1;
    }
  }

  /** Once a store succeeds, a second one by the same user is a conflict
      that returns the first RSVP. */
  lemma StoreTwice(rows: seq<Rsvp>, e: Event, userId: string, input: Request, input2: Request, now: int, now2: int, newId: string, newId2: string)
    requires Stored(rows, e, userId, input, now, newId).1.RsvpCreated?
    requires StoreFailures(input2) == {}
    ensures var rows' := Stored(rows, e, userId, input, now, newId).0;
      Stored(rows', e, userId, input2, now2, newId2) == (rows', RsvpConflict(Stored(rows, e, userId, input, now, newId).1.rsvp))
  {
    var rows' := Stored(rows, e, userId, input, now, newId).0;
    assert rows'[|rows|].eventId == e.id && rows'[|rows|].userId == userId;
    assert Lookup(rows, e.id, userId) == -1;
  }

  /** The row a successful `store` adds. */
  function NewRsvp(e: Event, userId: string, input: Request, now: int, newId: string): Rsvp
    requires StoreFailures(input) == {}
  {
    Rsvp(newId, e.id, userId, RsvpStatusFrom(input["status"].s).value, Prepared(input)["guestsCount"].i, NotesOf(input), false, now)
  }

  /** When `store` creates, it appends exactly that row. */
  lemma StoreCreates(rows: seq<Rsvp>, e: Event, userId: string, input: Request, now: int, newId: string)
    ensures Stored(rows, e, userId, input, now, newId).1.RsvpCreated? <==>
      StoreFailures(input) == {} && Lookup(rows, e.id, userId) == -1 && e.endAt >= now
    ensures Stored(rows, e, userId, input, now, newId).1.RsvpCreated? ==>
      var row := NewRsvp(e, userId, input, now, newId);
      Stored(rows, e, userId, input, now, newId) == (rows + [row], RsvpCreated(row, RsvpMessage(row.status)))
      && 1 <= row.guestsCount <= 10
    ensures !Stored(rows, e, userId, input, now, newId).1.RsvpCreated? ==> Stored(rows, e, userId, input, now, newId).0 == rows
  {
    if StoreFailures(input) == {} {
      assert GuestsOk(Prepared(input));
    }
  }

  /** `store` keeps the table's invariant. */
  lemma StoreKeepsTable(rows: seq<Rsvp>, e: Event, userId: string, input: Request, now: int, newId: string)
    requires TableOk(rows)
    ensures TableOk(Stored(rows, e, userId, input, now, newId).0)
  {
    StoreCreates(rows, e, userId, input, now, newId);
    if Stored(rows, e, userId, input, now, newId).1.RsvpCreated? {
      AppendKeepsTable(rows, NewRsvp(e, userId, input, now, newId));
    }
  }

  /** A new RSVP adds its guests to the event's attendee count when it is
      going or maybe, and leaves every other event's list as it was. */
  lemma StoreAddsGuests(rows: seq<Rsvp>, e: Event, userId: string, input: Request, now: int, newId: string, other: string)
    requires Stored(rows, e, userId, input, now, newId).1.RsvpCreated?
    ensures var row := NewRsvp(e, userId, input, now, newId);
      var rows' := Stored(rows, e, userId, input, now, newId).0;
      && AttendeesCount(ForEvent(rows', e.id)) == AttendeesCount(ForEvent(rows, e.id)) + (if IsConfirmed(row) then row.guestsCount else 0)
      && (other != e.id ==> ForEvent(rows', other) == ForEvent(rows, other))
  {
    StoreCreates(rows, e, userId, input, now, newId);
    var row := NewRsvp(e, userId, input, now, newId);
    var rows' := rows + [row];
    assert Stored(rows, e, userId, input, now, newId).0 == rows';
    ForEventAppend(rows, row, e.id);
    ForEventAppend(rows, row, other);
    var before := ForEvent(rows, e.id);
    assert ForEvent(rows', e.id) == before + [row];
    GuestSumAppend(before, row, {Going, Maybe});
    assert (row.status in {Going, Maybe}) == IsConfirmed(row);
  }

  /** A row for a new (event, user) pair with an admitted guest count keeps
      the invariant. */
  lemma AppendKeepsTable(rows: seq<Rsvp>, row: Rsvp)
    requires TableOk(rows) && 1 <= row.guestsCount <= 10
    requires forall j :: 0 <= j < |rows| ==> rows[j].eventId != row.eventId || rows[j].userId != row.userId
    ensures TableOk(rows + [row])
  {
    var rows' := rows + [row];
    forall i, j | 0 <= i < j < |rows'|
      ensures rows'[i].eventId != rows'[j].eventId || rows'[i].userId != rows'[j].userId
    {
      assert rows'[i] == rows[i];
    }
  }

  /** `update`'s new row: the status and guest count when they are set, the
      notes whenever the key is present, a null clearing them. */
  function Revised(r: Rsvp, input: Request): Rsvp
    requires UpdateFailures(input) == {}
  {
    r.(status := if "status" in input then RsvpStatusFrom(input["status"].s).value else r.status,
       guestsCount := if "guestsCount" in input then input["guestsCount"].i else r.guestsCount,
       notes := if "notes" in input then NotesOf(input) else r.notes)
  }

  /** `update`: the rules, then a 404 without an RSVP, then the revised row
      written over the old one. */
  function Updated(rows: seq<Rsvp>, eventId: string, userId: string, input: Request): (seq<Rsvp>, RsvpResponse)
  {
    var errs := UpdateFailures(input);
    if errs != {} then (rows, RsvpInvalid(errs))
    else
      var i := Lookup(rows, eventId, userId);
      if i < 0 then (rows, RsvpMissing)
      else (rows[i := Revised(rows[i], input)], RsvpUpdated(Revised(rows[i], input)))
  }

  /** What `update` does: only the user's RSVP changes, and of it only the
      fields the request carries; an empty request rewrites nothing. */
  lemma UpdateEffect(rows: seq<Rsvp>, eventId: string, userId: string, input: Request)
    ensures var (rows', r) := Updated(rows, eventId, userId, input);
      && |rows'| == |rows|
      && (r.RsvpInvalid? || r.RsvpMissing? ==> rows' == rows)
      && (r.RsvpMissing? <==> UpdateFailures(input) == {} && forall j :: 0 <= j < |rows| ==> rows[j].eventId != eventId || rows[j].userId != userId)
    ensures var (rows', r) := Updated(rows, eventId, userId, input);
      r.RsvpUpdated? ==>
        var i := Lookup(rows, eventId, userId);
        && rows'[i] == r.rsvp
        && (forall j :: 0 <= j < |rows| && j != i ==> rows'[j] == rows[j])
        && r.rsvp.id == rows[i].id && r.rsvp.eventId == eventId && r.rsvp.userId == userId
        && r.rsvp.notified == rows[i].notified && r.rsvp.createdAt == rows[i].createdAt
        && ("status" in input ==> RsvpStatusValue(r.rsvp.status) == input["status"].s)
        && ("status" !in input ==> r.rsvp.status == rows[i].status)
        && ("guestsCount" in input ==> r.rsvp.guestsCount == input["guestsCount"].i)
        && ("guestsCount" !in input ==> r.rsvp.guestsCount == rows[i].guestsCount)
        && ("notes" in input ==> r.rsvp.notes == NotesOf(input))
        && ("notes" !in input ==> r.rsvp.notes == rows[i].notes)
    ensures UpdateFailures(map[]) == {}
    ensures Updated(rows, eventId, userId, map[]).0 == rows
  {
    var i := Lookup(rows, eventId, userId);
    if i >= 0 {
      assert Revised(rows[i], map[]) == rows[i];
      assert rows[i := rows[i]] == rows;
    }
  }

  /** `update` keeps the table's invariant. */
  lemma UpdateKeepsTable(rows: seq<Rsvp>, eventId: string, userId: string, input: Request)
    requires TableOk(rows)
    ensures TableOk(Updated(rows, eventId, userId, input).0)
  {
  }

  /** `destroy`: a 404 without an RSVP, otherwise that row goes. */
  function Destroyed(rows: seq<Rsvp>, eventId: string, userId: string): (seq<Rsvp>, RsvpResponse)
  {
    var i := Lookup(rows, eventId, userId);
    if i < 0 then (rows, RsvpMissing) else (rows[..i] + rows[i + 1..], RsvpCancelled)
  }

  /** What `destroy` does: exactly one row goes, the user then has no RSVP
      for the event, and every other row stays. */
  lemma DestroyEffect(rows: seq<Rsvp>, eventId: string, userId: string)
    requires OneRsvpPerUser(rows)
    ensures var (rows', r) := Destroyed(rows, eventId, userId);
      && (r.RsvpMissing? ==> rows' == rows)
      && (r.RsvpCancelled? ==> |rows'| == |rows| - 1)
      && Lookup(rows', eventId, userId) == -1
      && (forall q :: q in rows && (q.eventId != eventId || q.userId != userId) ==> q in rows')
      && (forall q :: q in rows' ==> q in rows)
  {
    var (rows', r) := Destroyed(rows, eventId, userId);
    var i := Lookup(rows, eventId, userId);
    if i >= 0 {
      assert rows' == rows[..i] + rows[i + 1..];
      forall k | 0 <= k < |rows'|
        ensures rows'[k].eventId != eventId || rows'[k].userId != userId
      {
        if k < i {
          assert rows'[k] == rows[k];
        } else {
          assert rows'[k] == rows[k + 1];
        }
      }
      forall q | q in rows && (q.eventId != eventId || q.userId != userId)
        ensures q in rows'
      {
        var k :| 0 <= k < |rows| && rows[k] == q;
        if k < i {
          assert rows'[k] == q;
        } else {
          assert rows'[k - 1] == q;
        }
      }
    }
  }

  /** `destroy` keeps the table's invariant. */
  lemma DestroyKeepsTable(rows: seq<Rsvp>, eventId: string, userId: string)
    requires TableOk(rows)
    ensures TableOk(Destroyed(rows, eventId, userId).0)
  {
    var i := Lookup(rows, eventId, userId);
    if i >= 0 {
      var rows' := rows[..i] + rows[i + 1..];
      forall a, b | 0 <= a < b < |rows'|
        ensures rows'[a].eventId != rows'[b].eventId || rows'[a].userId != rows'[b].userId
      {
        var a0 := if a < i then a else a + 1;
        var b0 := if b < i then b else b + 1;
        assert rows'[a] == rows[a0] && rows'[b] == rows[b0];
      }
      forall k | 0 <= k < |rows'|
        ensures 1 <= rows'[k].guestsCount <= 10
      {
        assert rows'[k] == rows[if k < i then k else k + 1];
      }
    }
  }

  // ---------------------------------------------------------------
  // Display names (as written and as intended)
  // ---------------------------------------------------------------

  /** First part of a split string is a prefix of it without the separator. */
  lemma SplitHead(s: string, sep: char)
    ensures |Split(s, sep)[0]| <= |s| && Split(s, sep)[0] == s[..|Split(s, sep)[0]|]
    ensures |Split(s, sep)| > 1 <==> sep in s
  {
    if sep in s {
      var k := IndexOf(s, sep);
      assert Split(s, sep) == [s[..k]] + Split(s[k + 1..], sep);
    }
  }

  /** `getDisplayName` as written: PHP works on the UTF-8 bytes, and
      `substr($last, 0, 1)` keeps the first BYTE of the last word. Splitting
      the bytes at the space is splitting the characters, since a space byte
      never occurs inside a multi-byte character. */
  function DisplayNameAsWritten(nome: Option<string>): seq<int>
  {
    if !Present(nome) then Utf8Of(Resources.FALLBACK_NAME)
    else
      var parts := Split(nome.value, ' ');
      if |parts| > 1 then
        var last := Utf8Of(parts[|parts| - 1]);
        Utf8Of(parts[0]) + [' ' as int] + last[..Min(1, |last|)] + ['.' as int]
      else Utf8Of(parts[0])
  }

  /** The name the next lemma uses. */
  const ACCENTED_NAME: string := "Ana Érica"

  /** Its two words. */
  lemma AccentedNameWords()
    ensures Split(ACCENTED_NAME, ' ') == ["Ana", "Érica"]
  {
    var s := ACCENTED_NAME;
    assert s[3] == ' ' && ' ' !in s[..3];
    assert IndexOf(s, ' ') == 3;
    assert s[..3] == "Ana" && s[4..] == "Érica";
    assert ' ' !in s[4..];
  }

  /** The first bytes of the encoded words. */
  lemma AccentedNameBytes()
    ensures Utf8Of("Ana") == [0x41, 0x6E, 0x61]
    ensures Utf8Of("Érica")[0] == 0xC3
  {
    assert Utf8('É') == [0xC3, 0x89];
    var w := "Érica";
    assert Utf8Of(w) == Utf8(w[0]) + Utf8Of(w[1..]);
    var a := "Ana";
    assert Utf8Of(a[2..]) == Utf8(a[2]) + Utf8Of([]);
    assert Utf8Of(a[1..]) == Utf8(a[1]) + Utf8Of(a[2..]);
  }

  /** A surname starting with an accented letter leaves the lead byte 0xC3
      of 'É' cut off before the full stop: the name is not valid UTF-8, and
      the JSON encoding of the attendee list fails. */
  lemma AccentedInitialBreaksUtf8()
    ensures !LeadBytesContinued(DisplayNameAsWritten(Some(ACCENTED_NAME)))
  {
    AccentedNameWords();
    AccentedNameBytes();
    var last := Utf8Of("Érica");
    var bytes := DisplayNameAsWritten(Some(ACCENTED_NAME));
    assert bytes == Utf8Of("Ana") + [' ' as int] + last[..1] + ['.' as int];
    assert bytes[4] == 0xC3 && bytes[5] == 0x2E;
  }

  /** `getDisplayName` as intended: the first word, then the first
      CHARACTER of the last word and a full stop; 'Usuário' without a name. */
  function DisplayName(nome: Option<string>): (d: string)
    ensures !Present(nome) ==> d == Resources.FALLBACK_NAME
  {
    if !Present(nome) then Resources.FALLBACK_NAME
    else
      var parts := Split(nome.value, ' ');
      if |parts| > 1 then
        var last := parts[|parts| - 1];
        parts[0] + " " + last[..Min(1, |last|)] + "."
      else parts[0]
  }

  /** Only the first name shows in full: the display name starts with the
      name's first word (which holds no space and is a prefix of the name),
      and adds at most a space, one character and a full stop. */
  lemma DisplayNamePrivacy(nome: Option<string>)
    requires Present(nome)
    ensures var first := Split(nome.value, ' ')[0];
      var d := DisplayName(nome);
      && first == nome.value[..|first|] && ' ' !in first
      && |first| <= |d| <= |first| + 3 && d[..|first|] == first
      && (' ' !in nome.value ==> d == nome.value)
  {
    SplitHead(nome.value, ' ');
    if ' ' !in nome.value {
      assert Split(nome.value, ' ') == [nome.value];
    }
  }

  /** Encoding respects concatenation. */
  lemma {:induction false} Utf8OfAppend(a: string, b: string)
    ensures Utf8Of(a + b) == Utf8Of(a) + Utf8Of(b)
    decreases |a|
  {
    if a != [] {
      assert (a + b)[0] == a[0] && (a + b)[1..] == a[1..] + b;
      Utf8OfAppend(a[1..], b);
      calc {
        Utf8Of(a + b);
        Utf8(a[0]) + Utf8Of(a[1..] + b);
        Utf8(a[0]) + (Utf8Of(a[1..]) + Utf8Of(b));
        (Utf8(a[0]) + Utf8Of(a[1..])) + Utf8Of(b);
        Utf8Of(a) + Utf8Of(b);
      }
    } else {
      assert a + b == b;
    }
  }

  /** A one-character ASCII string encodes to that character's code. */
  lemma AsciiEncodes(c: char)
    requires c as int < 0x80
    ensures Utf8Of([c]) == [c as int]
  {
    assert [c][1..] == [];
  }

  /** The short form of a two-word name encodes piece by piece when the last
      word starts with an ASCII character. */
  lemma ShortNameEncodes(first: string, last: string)
    requires last == "" || last[0] as int < 0x80
    ensures var enc := Utf8Of(last);
      Utf8Of(first + " " + last[..Min(1, |last|)] + ".") == Utf8Of(first) + [' ' as int] + enc[..Min(1, |enc|)] + ['.' as int]
  {
    var init := last[..Min(1, |last|)];
    var enc := Utf8Of(last);
    Utf8OfAppend(first, " ");
    Utf8OfAppend(first + " ", init);
    Utf8OfAppend(first + " " + init, ".");
    AsciiEncodes(' ');
    AsciiEncodes('.');
    assert Utf8Of(init) == enc[..Min(1, |enc|)] by {
      if last != "" {
        assert init == [last[0]];
        AsciiEncodes(last[0]);
        assert enc == Utf8(last[0]) + Utf8Of(last[1..]);
      }
    }
  }

  /** The intended name always encodes to well-formed UTF-8, and it is what
      the written code produces whenever the last word starts with an ASCII
      character (or there is only one word). */
  lemma DisplayNameAgainstWritten(nome: Option<string>)
    ensures LeadBytesContinued(Utf8Of(DisplayName(nome)))
    ensures var parts := Split(nome.GetOr(""), ' ');
      var last := parts[|parts| - 1];
      (last == "" || last[0] as int < 0x80) ==> DisplayNameAsWritten(nome) == Utf8Of(DisplayName(nome))
  {
    EncodingContinuesLeads(DisplayName(nome));
    if Present(nome) {
      WordsAgainstWritten(nome.value);
    } else {
      assert DisplayName(nome) == Resources.FALLBACK_NAME;
      assert DisplayNameAsWritten(nome) == Utf8Of(Resources.FALLBACK_NAME);
    }
  }

  lemma WordsAgainstWritten(w: string)
    requires Truthy(w)
    ensures var parts := Split(w, ' ');
      var last := parts[|parts| - 1];
      (last == "" || last[0] as int < 0x80) ==> DisplayNameAsWritten(Some(w)) == Utf8Of(DisplayName(Some(w)))
  {
    var parts := Split(w, ' ');
    if |parts| > 1 {
      ManyWordsAgainstWritten(w, parts);
    } else {
      assert DisplayName(Some(w)) == parts[0];
      assert DisplayNameAsWritten(Some(w)) == Utf8Of(parts[0]);
    }
  }

  lemma ManyWordsAgainstWritten(w: string, parts: seq<string>)
    requires Truthy(w) && parts == Split(w, ' ') && |parts| > 1
    ensures var last := parts[|parts| - 1];
      (last == "" || last[0] as int < 0x80) ==> DisplayNameAsWritten(Some(w)) == Utf8Of(DisplayName(Some(w)))
  {
    var last := parts[|parts| - 1];
    ManyWordsIntended(w, parts);
    ManyWordsWritten(w, parts);
    if last == "" || last[0] as int < 0x80 {
      ShortNameEncodes(parts[0], last);
    }
  }

  lemma ManyWordsIntended(w: string, parts: seq<string>)
    requires Truthy(w) && parts == Split(w, ' ') && |parts| > 1
    ensures var last := parts[|parts| - 1];
      DisplayName(Some(w)) == parts[0] + " " + last[..Min(1, |last|)] + "."
  {
  }

  lemma ManyWordsWritten(w: string, parts: seq<string>)
    requires Truthy(w) && parts == Split(w, ' ') && |parts| > 1
    ensures var enc := Utf8Of(parts[|parts| - 1]);
      DisplayNameAsWritten(Some(w)) == Utf8Of(parts[0]) + [' ' as int] + enc[..Min(1, |enc|)] + ['.' as int]
  {
  }

  // ---------------------------------------------------------------
  // The attendee list
  // ---------------------------------------------------------------

  /** Whether the written short form keeps the name intact: no name, a
      single word, or a last word that is empty or starts with an ASCII
      character. */
  predicate InitialIsAscii(nome: Option<string>)
  {
    var parts := Split(nome.GetOr(""), ' ');
    var last := parts[|parts| - 1];
    !Present(nome) || |parts| == 1 || last == "" || last[0] as int < 0x80
  }

  /** The intended short form, as the bytes the response carries. */
  function IntendedName(nome: Option<string>): (bytes: seq<int>)
    ensures LeadBytesContinued(bytes)
  {
    EncodingContinuesLeads(DisplayName(nome));
    Utf8Of(DisplayName(nome))
  }

  /** The written short form is well-formed UTF-8 exactly when the last
      word's initial is ASCII (or the short form is not used), and it then
      equals the intended one. */
  lemma NameShownIff(nome: Option<string>)
    ensures LeadBytesContinued(DisplayNameAsWritten(nome)) <==> InitialIsAscii(nome)
    ensures InitialIsAscii(nome) ==> DisplayNameAsWritten(nome) == IntendedName(nome)
  {
    DisplayNameAgainstWritten(nome);
    if Present(nome) {
      var parts := Split(nome.value, ' ');
      if |parts| > 1 {
        if !InitialIsAscii(nome) {
          CutInitialBreaks(nome.value, parts);
        }
      } else {
        assert DisplayName(nome) == parts[0];
        assert DisplayNameAsWritten(nome) == Utf8Of(parts[0]);
      }
    }
  }

  /** The general form of the accented-initial case: the first byte of a
      multi-byte initial stands right before the full stop. */
  lemma CutInitialBreaks(w: string, parts: seq<string>)
    requires Truthy(w) && parts == Split(w, ' ') && |parts| > 1
    requires var last := parts[|parts| - 1]; last != "" && last[0] as int >= 0x80
    ensures !LeadBytesContinued(DisplayNameAsWritten(Some(w)))
  {
    var last := parts[|parts| - 1];
    var enc := Utf8Of(last);
    assert enc == Utf8(last[0]) + Utf8Of(last[1..]);
    ManyWordsWritten(w, parts);
    var bytes := DisplayNameAsWritten(Some(w));
    var k := |Utf8Of(parts[0])| + 1;
    assert bytes[k] == enc[0] >= 0xC0;
    assert bytes[k + 1] == '.' as int;
  }

  /** One entry of the public list; the name is the bytes of the short form. */
  datatype Attendee = Attendee(id: string, nome: seq<int>, avatarUrl: Option<string>, guestsCount: int)

  /** The `attendees` payload. */
  datatype AttendeeList = AttendeeList(total: int, goingCount: int, maybeCount: int, attendees: seq<Attendee>, perPage: int)

  /** The response: the list, or the server error `json_encode` raises when a
      name is not valid UTF-8. */
  datatype AttendeesReply = AttendeesShown(list: AttendeeList) | EncodingFailed

  /** `min($request->input('perPage', 20), 50)` as the paginator takes it: a
      zero falls back to the model's page size of 15. */
  function PerPage(requested: Option<int>): (p: int)
    ensures p <= 50 && p != 0
    ensures requested.None? ==> p == 20
    ensures requested.Some? && requested.value >= 1 ==> p == Min(requested.value, 50)
  {
    var p := Min(requested.GetOr(20), 50);
    if p == 0 then 15 else p
  }

  /** The first page; a negative limit is ignored by the query builder, so
      the whole list comes back. */
  function FirstPage(rs: seq<Rsvp>, p: int): (page: seq<Rsvp>)
    ensures p >= 0 ==> |page| == Min(p, |rs|) && page == rs[..|page|]
    ensures p < 0 ==> page == rs
  {
    if p < 0 then rs else rs[..Min(p, |rs|)]
  }

  /** The going RSVPs in table order. */
  function GoingOf(rs: seq<Rsvp>): (out: seq<Rsvp>)
    ensures forall r :: r in out <==> r in rs && IsGoing(r)
    ensures |out| <= |rs|
    decreases |rs|
  {
    if rs == [] then []
    else
      var last := rs[|rs| - 1];
      GoingOf(rs[..|rs| - 1]) + (if IsGoing(last) then [last] else [])
  }

  /** A row sequence back to front. */
  function Reversed(s: seq<Rsvp>): (out: seq<Rsvp>)
    ensures |out| == |s| && forall i :: 0 <= i < |s| ==> out[i] == s[|s| - 1 - i]
    decreases |s|
  {
    if s == [] then [] else [s[|s| - 1]] + Reversed(s[..|s| - 1])
  }

  /** Rows appear in the order of their `created_at`. */
  predicate CreatedOrdered(rs: seq<Rsvp>)
  {
    forall i, j :: 0 <= i < j < |rs| ==> rs[i].createdAt <= rs[j].createdAt
  }

  /** `going()->latest()`: the going RSVPs, the last inserted first. */
  function GoingLatestFirst(rs: seq<Rsvp>): (out: seq<Rsvp>)
    ensures out == Reversed(GoingOf(rs))
    decreases |rs|
  {
    if rs == [] then []
    else
      var last := rs[|rs| - 1];
      var init := GoingOf(rs[..|rs| - 1]);
      if IsGoing(last) then
        assert (init + [last])[..|init|] == init;
        [last] + GoingLatestFirst(rs[..|rs| - 1])
      else
        assert init + [] == init;
        GoingLatestFirst(rs[..|rs| - 1])
  }

  /** Filtering keeps creation order. */
  lemma {:induction false} GoingOfOrdered(rs: seq<Rsvp>)
    requires CreatedOrdered(rs)
    ensures CreatedOrdered(GoingOf(rs))
    decreases |rs|
  {
    if rs != [] {
      var init := rs[..|rs| - 1];
      assert CreatedOrdered(init) by {
        forall i, j | 0 <= i < j < |init| ensures init[i].createdAt <= init[j].createdAt {
          assert init[i] == rs[i] && init[j] == rs[j];
        }
      }
      GoingOfOrdered(init);
      var last := rs[|rs| - 1];
      var g := GoingOf(init);
      forall i | 0 <= i < |g| ensures g[i].createdAt <= last.createdAt {
        assert g[i] in init;
        var k :| 0 <= k < |init| && init[k] == g[i];
        assert rs[k] == g[i];
      }
    }
  }

  /** When the table is in creation order, the list runs from the newest
      `created_at` to the oldest, which is what `latest()` asks for. */
  lemma LatestFirstByCreation(rs: seq<Rsvp>)
    requires CreatedOrdered(rs)
    ensures var out := GoingLatestFirst(rs);
      forall i, j :: 0 <= i < j < |out| ==> out[i].createdAt >= out[j].createdAt
  {
    GoingOfOrdered(rs);
  }

  /** One RSVP's entry, from its author's row, with the short form `name`
      gives. */
  function EntryOf(r: Rsvp, a: Resources.Author, name: Option<string> -> seq<int>): (e: Attendee)
    ensures e.id == a.user.id && e.nome == name(a.user.nome) && e.avatarUrl == a.avatarUrl && e.guestsCount == r.guestsCount
  {
    Attendee(a.user.id, name(a.user.nome), a.avatarUrl, r.guestsCount)
  }

  /** The map over the page and the filter on a loaded user: RSVPs whose
      user row is gone are dropped. */
  function Entries(page: seq<Rsvp>, users: map<string, Resources.Author>, name: Option<string> -> seq<int>): (out: seq<Attendee>)
    ensures |out| <= |page|
    ensures forall a :: a in out ==> exists r :: r in page && r.userId in users && a == EntryOf(r, users[r.userId], name)
    ensures forall r :: r in page && r.userId in users ==> EntryOf(r, users[r.userId], name) in out
    decreases |page|
  {
    if page == [] then []
    else
      var rest := Entries(page[1..], users, name);
      assert forall r :: r in page[1..] ==> r in page;
      assert forall r :: r in page ==> r == page[0] || r in page[1..];
      if page[0].userId in users then [EntryOf(page[0], users[page[0].userId], name)] + rest else rest
  }

  /** The RSVPs the first page shows. */
  function PageOf(rows: seq<Rsvp>, eventId: string, requested: Option<int>): seq<Rsvp>
  {
    FirstPage(GoingLatestFirst(ForEvent(rows, eventId)), PerPage(requested))
  }

  /** The list with the short form `name` gives. */
  function ListWith(rows: seq<Rsvp>, eventId: string, users: map<string, Resources.Author>, requested: Option<int>,
                    name: Option<string> -> seq<int>): AttendeeList
  {
    var ev := ForEvent(rows, eventId);
    AttendeeList(GoingCount(ev) + MaybeCount(ev), GoingCount(ev), MaybeCount(ev),
                 Entries(PageOf(rows, eventId, requested), users, name), PerPage(requested))
  }

  /** Every name in the list is well-formed UTF-8, so `json_encode` succeeds. */
  predicate Encodable(entries: seq<Attendee>)
  {
    forall a :: a in entries ==> LeadBytesContinued(a.nome)
  }

  /** Every RSVP on the page with a loaded user has a name whose written
      short form keeps its initial intact. */
  predicate InitialsAscii(page: seq<Rsvp>, users: map<string, Resources.Author>)
  {
    forall r :: r in page && r.userId in users ==> InitialIsAscii(users[r.userId].user.nome)
  }

  /** `attendees` as written: names shortened byte-wise, and the response
      fails when one of them is not valid UTF-8. */
  function AttendeesAsWritten(rows: seq<Rsvp>, eventId: string, users: map<string, Resources.Author>, requested: Option<int>): AttendeesReply
  {
    var l := ListWith(rows, eventId, users, requested, DisplayNameAsWritten);
    if Encodable(l.attendees) then AttendeesShown(l) else EncodingFailed
  }

  /** `attendees` as intended: names shortened by character. */
  function Attendees(rows: seq<Rsvp>, eventId: string, users: map<string, Resources.Author>, requested: Option<int>): AttendeeList
  {
    ListWith(rows, eventId, users, requested, IntendedName)
  }

  /** Both short forms give the same entries when every name on the page
      keeps its initial intact. */
  lemma {:induction false} EntriesAgree(page: seq<Rsvp>, users: map<string, Resources.Author>)
    requires InitialsAscii(page, users)
    ensures Entries(page, users, DisplayNameAsWritten) == Entries(page, users, IntendedName)
    decreases |page|
  {
    if page != [] {
      var rest := page[1..];
      assert InitialsAscii(rest, users) by {
        assert forall r :: r in rest ==> r in page;
      }
      EntriesAgree(rest, users);
      if page[0].userId in users {
        NameShownIff(users[page[0].userId].user.nome);
      }
    }
  }

  /** The written entries encode exactly when every initial on the page is
      ASCII. */
  lemma EntriesEncodableIff(page: seq<Rsvp>, users: map<string, Resources.Author>)
    ensures Encodable(Entries(page, users, DisplayNameAsWritten)) <==> InitialsAscii(page, users)
  {
    var entries := Entries(page, users, DisplayNameAsWritten);
    if !InitialsAscii(page, users) {
      var r :| r in page && r.userId in users && !InitialIsAscii(users[r.userId].user.nome);
      NameShownIff(users[r.userId].user.nome);
      assert EntryOf(r, users[r.userId], DisplayNameAsWritten) in entries;
    } else {
      forall a | a in entries ensures LeadBytesContinued(a.nome) {
        var r :| r in page && r.userId in users && a == EntryOf(r, users[r.userId], DisplayNameAsWritten);
        NameShownIff(users[r.userId].user.nome);
      }
    }
  }

  /** The list's promises: the total counts going and maybe guests of this
      event, a page holds at most 50 entries unless a negative page size is
      asked for, every entry is a going RSVP of this event shown under its
      display name, and every going RSVP on the page with a user is listed. */
  lemma AttendeesFacts(rows: seq<Rsvp>, eventId: string, users: map<string, Resources.Author>, requested: Option<int>)
    ensures var l := Attendees(rows, eventId, users, requested);
      && l.total == AttendeesCount(ForEvent(rows, eventId))
      && l.goingCount == GoingCount(ForEvent(rows, eventId)) && l.maybeCount == MaybeCount(ForEvent(rows, eventId))
      && (requested.None? || requested.value >= 0 ==> |l.attendees| <= 50)
      && (forall a :: a in l.attendees ==>
            exists r :: r in rows && r.eventId == eventId && IsGoing(r) && r.userId in users
              && a.id == users[r.userId].user.id && a.nome == Utf8Of(DisplayName(users[r.userId].user.nome))
              && a.guestsCount == r.guestsCount)
      && (forall r :: r in PageOf(rows, eventId, requested) && r.userId in users ==>
            EntryOf(r, users[r.userId], IntendedName) in l.attendees)
  {
    var ev := ForEvent(rows, eventId);
    AttendeesAreGoingPlusMaybe(ev);
    PageEntries(rows, eventId, users, requested);
  }

  /** Every entry of the intended page is a going RSVP of this event under
      its encoded display name. */
  lemma PageEntries(rows: seq<Rsvp>, eventId: string, users: map<string, Resources.Author>, requested: Option<int>)
    ensures forall a :: a in Entries(PageOf(rows, eventId, requested), users, IntendedName) ==>
      exists r :: r in rows && r.eventId == eventId && IsGoing(r) && r.userId in users
        && a.id == users[r.userId].user.id && a.nome == Utf8Of(DisplayName(users[r.userId].user.nome))
        && a.guestsCount == r.guestsCount
  {
    var ev := ForEvent(rows, eventId);
    var page := PageOf(rows, eventId, requested);
    assert forall r :: r in page ==> r in GoingLatestFirst(ev);
  }

  /** The written list fails exactly when a going RSVP on the page belongs to
      a user whose last word starts with a non-ASCII character, and
      otherwise it is the intended list. */
  lemma AttendeesAsWrittenFacts(rows: seq<Rsvp>, eventId: string, users: map<string, Resources.Author>, requested: Option<int>)
    ensures var reply := AttendeesAsWritten(rows, eventId, users, requested);
      && (reply.EncodingFailed? <==> !InitialsAscii(PageOf(rows, eventId, requested), users))
      && (reply.AttendeesShown? ==> reply.list == Attendees(rows, eventId, users, requested))
  {
    var page := PageOf(rows, eventId, requested);
    EntriesEncodableIff(page, users);
    if InitialsAscii(page, users) {
      EntriesAgree(page, users);
    }
  }

  // ---------------------------------------------------------------
  // Favourites
  // ---------------------------------------------------------------

  /** `toggle`: detach when the pivot row exists, otherwise attach it with
      the current time; the result is the new state. */
  function FavoriteToggled(favs: map<(string, string), int>, eventId: string, userId: string, now: int): (map<(string, string), int>, bool)
  {
    if (eventId, userId) in favs then (favs - {(eventId, userId)}, false)
    else (favs[(eventId, userId) := now], true)
  }

  /** The flag returned is the opposite of the prior state and matches the
      pivot afterwards; no other pair changes; a new favourite is dated
      now. */
  lemma FavoriteToggleEffect(favs: map<(string, string), int>, eventId: string, userId: string, now: int)
    ensures var (favs', on) := FavoriteToggled(favs, eventId, userId, now);
      && on == ((eventId, userId) !in favs)
      && (on <==> (eventId, userId) in favs')
      && (Truthy(userId) ==> IsFavoritedBy(favs', eventId, Some(userId)) == on)
      && (on ==> favs'[(eventId, userId)] == now)
      && (forall k :: k != (eventId, userId) ==> (k in favs' <==> k in favs) && (k in favs ==> favs'[k] == favs[k]))
  {
  }

  /** Two toggles restore membership; starting without the favourite they
      restore the pivot exactly, while a favourite removed and added again
      is dated by the second toggle. */
  lemma FavoriteTwice(favs: map<(string, string), int>, eventId: string, userId: string, now: int, later: int)
    ensures var once := FavoriteToggled(favs, eventId, userId, now).0;
      var twice := FavoriteToggled(once, eventId, userId, later).0;
      && ((eventId, userId) in twice <==> (eventId, userId) in favs)
      && ((eventId, userId) !in favs ==> twice == favs)
      && ((eventId, userId) in favs ==> twice == favs[(eventId, userId) := later])
  {
  }

  // ---------------------------------------------------------------
  // The tables in place
  // ---------------------------------------------------------------

  /** `event_rsvps` and `event_favorites`, changed by the endpoints. */
  class EventTables {
    var rsvps: seq<Rsvp>
    var favorites: map<(string, string), int>

    ghost predicate Valid()
      reads this
    {
      TableOk(rsvps)
    }

    constructor ()
      ensures Valid() && rsvps == [] && favorites == map[]
    {
      rsvps := [];
      favorites := map[];
    }

    method Store(e: Event, userId: string, input: Request, now: int, newId: string) returns (r: RsvpResponse)
      requires Valid()
      modifies this
      ensures Valid()
      ensures (rsvps, r) == Stored(old(rsvps), e, userId, input, now, newId) && favorites == old(favorites)
    {
      StoreKeepsTable(rsvps, e, userId, input, now, newId);
      var errs := StoreFailures(input);
      if errs != {} {
        return RsvpInvalid(errs);
      }
      var i := Lookup(rsvps, e.id, userId);
      if i >= 0 {
        return RsvpConflict(rsvps[i]);
      }
      if e.endAt < now {
        return EventEnded;
      }
      var guests := Prepared(input)["guestsCount"].i;
      var row := Rsvp(newId, e.id, userId, RsvpStatusFrom(input["status"].s).value, guests, NotesOf(input), false, now);
      rsvps := rsvps + [row];
      r := RsvpCreated(row, RsvpMessage(row.status));
    }

    method Update(eventId: string, userId: string, input: Request) returns (r: RsvpResponse)
      requires Valid()
      modifies this
      ensures Valid()
      ensures (rsvps, r) == Updated(old(rsvps), eventId, userId, input) && favorites == old(favorites)
    {
      UpdateKeepsTable(rsvps, eventId, userId, input);
      var errs := UpdateFailures(input);
      if errs != {} {
        return RsvpInvalid(errs);
      }
      var i := Lookup(rsvps, eventId, userId);
      if i < 0 {
        return RsvpMissing;
      }
      var row := rsvps[i];
      if "status" in input {
        row := row.(status := RsvpStatusFrom(input["status"].s).value);
      }
      if "guestsCount" in input {
        row := row.(guestsCount := input["guestsCount"].i);
      }
      if "notes" in input {
        row := row.(notes := NotesOf(input));
      }
      rsvps := rsvps[i := row];
      r := RsvpUpdated(row);
    }

    method Destroy(eventId: string, userId: string) returns (r: RsvpResponse)
      requires Valid()
      modifies this
      ensures Valid()
      ensures (rsvps, r) == Destroyed(old(rsvps), eventId, userId) && favorites == old(favorites)
    {
      DestroyKeepsTable(rsvps, eventId, userId);
      var i := Lookup(rsvps, eventId, userId);
      if i < 0 {
        return RsvpMissing;
      }
      rsvps := rsvps[..i] + rsvps[i + 1..];
      r := RsvpCancelled;
    }

    method ToggleFavorite(eventId: string, userId: string, now: int) returns (on: bool)
      requires Valid()
      modifies this
      ensures Valid()
      ensures (favorites, on) == FavoriteToggled(old(favorites), eventId, userId, now) && rsvps == old(rsvps)
    {
      var prior := (eventId, userId) in favorites;
      if prior {
        favorites := favorites - {(eventId, userId)};
      } else {
        favorites := favorites[(eventId, userId) := now];
      }
      on := !prior;
    }
  }
}
