/** Events and their RSVPs: status and time predicates, the date-range and
    time-of-day filters, the RSVP guest sums and the popularity score. */
module Events {
  import opened Common
  import Topics

  datatype EventStatus = Draft | Published | Cancelled | Finished

  /** A row of `events`, with the fields these rules read; times in
      seconds. */
  datatype Event = Event(id: string, title: string, status: EventStatus, startAt: int, endAt: int, popularityScore: int)

  datatype RsvpStatus = Going | Maybe | NotGoing

  /** A row of `event_rsvps`. */
  datatype Rsvp = Rsvp(id: string, eventId: string, userId: string, status: RsvpStatus, guestsCount: int,
                       notes: Option<string>, notified: bool, createdAt: int)

  // ---------------------------------------------------------------
  // Status and time
  // ---------------------------------------------------------------

  /** `isFinished`: marked Finished, or the end has passed. */
  predicate IsFinished(e: Event, now: int)
  {
    e.status == Finished || e.endAt < now
  }

  /** `isHappening`: started and not yet ended. */
  predicate IsHappening(e: Event, now: int)
  {
    e.startAt < now && e.endAt > now
  }

  /** `isUpcoming`: the start lies ahead. */
  predicate IsUpcoming(e: Event, now: int)
  {
    e.startAt > now
  }

  /** An event is never both happening and upcoming; a happening event is
      not finished unless it was marked so; at the very instant of its start
      it is neither happening nor upcoming. */
  lemma TimePredicates(e: Event, now: int)
    ensures !(IsHappening(e, now) && IsUpcoming(e, now))
    ensures IsHappening(e, now) ==> (IsFinished(e, now) <==> e.status == Finished)
    ensures e.startAt == now ==> !IsHappening(e, now) && !IsUpcoming(e, now)
    ensures IsUpcoming(e, now) && e.startAt <= e.endAt ==> (IsFinished(e, now) <==> e.status == Finished)
  {
  }

  /** `scopeInDateRange`: ends no earlier than `from` and starts no later than
      `to`, each bound only when given. */
  predicate InDateRange(e: Event, from: Option<int>, to: Option<int>)
  {
    (from.None? || e.endAt >= from.value) && (to.None? || e.startAt <= to.value)
  }

  /** The event is under way at instant `t`, ends included. */
  predicate Spans(e: Event, t: int)
  {
    e.startAt <= t <= e.endAt
  }

  /** With both bounds, the filter keeps exactly the events whose span
      overlaps the range. */
  lemma DateRangeIsOverlap(e: Event, from: int, to: int)
    requires e.startAt <= e.endAt && from <= to
    ensures InDateRange(e, Some(from), Some(to)) <==> exists t :: from <= t <= to && Spans(e, t)
  {
    if InDateRange(e, Some(from), Some(to)) {
      var t := Max(from, e.startAt);
      assert from <= t <= to && Spans(e, t);
    }
  }

  /** The time of day of an instant, in seconds after midnight. */
  function SecondOfDay(t: int): (s: int)
    ensures 0 <= s < DAY
  {
    t % DAY
  }

  /** `scopeByTimeOfDay` on the start time; an unknown key keeps every
      event. */
  predicate ByTimeOfDay(e: Event, key: string)
  {
    var s := SecondOfDay(e.startAt);
    if key == "morning" then 6 * HOUR <= s < 12 * HOUR
    else if key == "afternoon" then 12 * HOUR <= s < 18 * HOUR
    else if key == "night" then s >= 18 * HOUR || s < 6 * HOUR
    else true
  }

  /** Morning, afternoon and night partition the day: every event falls in
      exactly one of them. */
  lemma TimeOfDayPartition(e: Event, other: string)
    requires other != "morning" && other != "afternoon" && other != "night"
    ensures ByTimeOfDay(e, "morning") || ByTimeOfDay(e, "afternoon") || ByTimeOfDay(e, "night")
    ensures !(ByTimeOfDay(e, "morning") && ByTimeOfDay(e, "afternoon"))
    ensures !(ByTimeOfDay(e, "morning") && ByTimeOfDay(e, "night"))
    ensures !(ByTimeOfDay(e, "afternoon") && ByTimeOfDay(e, "night"))
    ensures ByTimeOfDay(e, other)
  {
    assert "afternoon" != "morning" && "night" != "morning" && "night" != "afternoon" by {
      assert "afternoon"[0] != "morning"[0] && "night"[0] != "morning"[0] && "night"[0] != "afternoon"[0];
    }
  }

  // ---------------------------------------------------------------
  // RSVPs
  // ---------------------------------------------------------------

  /** The `going`, `maybe`, `notGoing` and `confirmed` scopes, and
      `isGoing`/`isMaybe`. */
  predicate IsGoing(r: Rsvp) { r.status == Going }
  predicate IsMaybe(r: Rsvp) { r.status == Maybe }
  predicate IsNotGoing(r: Rsvp) { r.status == NotGoing }
  predicate IsConfirmed(r: Rsvp) { r.status == Going || r.status == Maybe }

  /** The scopes partition RSVPs by status, and `confirmed` is going or
      maybe. */
  lemma StatusScopes(r: Rsvp)
    ensures (IsGoing(r) || IsMaybe(r) || IsNotGoing(r))
    ensures !(IsGoing(r) && IsMaybe(r)) && !(IsGoing(r) && IsNotGoing(r)) && !(IsMaybe(r) && IsNotGoing(r))
    ensures IsConfirmed(r) <==> IsGoing(r) || IsMaybe(r)
  {
  }

  /** `sum('guests_count')` over the RSVPs with the given statuses. */
  function GuestSum(rs: seq<Rsvp>, statuses: set<RsvpStatus>): int
    decreases |rs|
  {
    if rs == [] then 0
    else GuestSum(rs[..|rs| - 1], statuses) + (if rs[|rs| - 1].status in statuses then rs[|rs| - 1].guestsCount else 0)
  }

  /** `going_count`, `maybe_count` and `attendees_count`. */
  function GoingCount(rs: seq<Rsvp>): int { GuestSum(rs, {Going}) }
  function MaybeCount(rs: seq<Rsvp>): int { GuestSum(rs, {Maybe}) }
  function AttendeesCount(rs: seq<Rsvp>): int { GuestSum(rs, {Going, Maybe}) }

  /** The attendees count is the going count plus the maybe count. */
  lemma {:induction false} AttendeesAreGoingPlusMaybe(rs: seq<Rsvp>)
    ensures AttendeesCount(rs) == GoingCount(rs) + MaybeCount(rs)
    decreases |rs|
  {
    if rs != [] {
      AttendeesAreGoingPlusMaybe(rs[..|rs| - 1]);
    }
  }

  /** With guest counts of at least one, the sum is at least the number of
      matching RSVPs, and never negative. */
  lemma {:induction false} GuestSumBounds(rs: seq<Rsvp>, statuses: set<RsvpStatus>)
    requires forall i :: 0 <= i < |rs| ==> rs[i].guestsCount >= 1
    ensures GuestSum(rs, statuses) >= 0
    ensures GuestSum(rs, statuses) >= |set i | 0 <= i < |rs| && rs[i].status in statuses|
    decreases |rs|
  {
    if rs != [] {
      var n := |rs| - 1;
      GuestSumBounds(rs[..n], statuses);
      var prev := set i | 0 <= i < n && rs[..n][i].status in statuses;
      var all := set i | 0 <= i < |rs| && rs[i].status in statuses;
      assert all == prev + (if rs[n].status in statuses then {n} else {});
      assert n !in prev;
    }
  }

  /** Adding an RSVP adds its guests to every sum that counts its status. */
  lemma GuestSumAppend(rs: seq<Rsvp>, r: Rsvp, statuses: set<RsvpStatus>)
    ensures GuestSum(rs + [r], statuses) == GuestSum(rs, statuses) + (if r.status in statuses then r.guestsCount else 0)
  {
    assert (rs + [r])[..|rs|] == rs;
  }

  /** `getUserRsvp`: the first RSVP of the user, none without a user id. */
  function UserRsvp(rs: seq<Rsvp>, userId: Option<string>): (r: Option<Rsvp>)
    ensures r.Some? ==> userId.Some? && r.value in rs && r.value.userId == userId.value
    ensures r.None? && Present(userId) ==> forall i :: 0 <= i < |rs| ==> rs[i].userId != userId.value
    decreases |rs|
  {
    if !Present(userId) || rs == [] then None
    else if rs[0].userId == userId.value then Some(rs[0])
    else UserRsvp(rs[1..], userId)
  }

  /** `isFavoritedBy`: false without a user id, otherwise the pivot row. */
  predicate IsFavoritedBy(favorites: map<(string, string), int>, eventId: string, userId: Option<string>)
  {
    Present(userId) && (eventId, userId.value) in favorites
  }

  // ---------------------------------------------------------------
  // Popularity
  // ---------------------------------------------------------------

  /** `diffInDays($start, false)` as Carbon 3 computes it: the signed and
      fractional number of days from now to the start. */
  function DaysUntil(e: Event, now: int): real
  {
    (e.startAt - now) as real / DAY as real
  }

  function RealMax(a: real, b: real): (m: real)
    ensures m >= a && m >= b && (m == a || m == b)
  {
    if a >= b then a else b
  }

  /** `max(0, 50 - max(0, days until start))`, a float. */
  function ProximityBonus(e: Event, now: int): real
  {
    RealMax(0.0, 50.0 - RealMax(0.0, DaysUntil(e, now)))
  }

  /** The bonus lies in [0, 50]; it is 50 for an event that has started, 0
      for one 50 days away or more, and in between it falls by one for each
      day, fractions of a day included. */
  lemma ProximityBonusBounds(e: Event, now: int)
    ensures 0.0 <= ProximityBonus(e, now) <= 50.0
    ensures e.startAt <= now ==> ProximityBonus(e, now) == 50.0
    ensures e.startAt >= now + 50 * DAY ==> ProximityBonus(e, now) == 0.0
    ensures now <= e.startAt <= now + 50 * DAY ==>
      ProximityBonus(e, now) == 50.0 - (e.startAt - now) as real / DAY as real
  {
  }

  /** A later start never earns a larger bonus. */
  lemma ProximityBonusDecays(e: Event, f: Event, now: int)
    requires e.startAt <= f.startAt
    ensures ProximityBonus(f, now) <= ProximityBonus(e, now)
  {
    assert DaysUntil(e, now) <= DaysUntil(f, now);
  }

  /** What the `unsignedInteger` column keeps of a non-negative float: the
      nearest integer, halves rounded up. */
  function ColumnValue(x: real): (n: int)
    requires x >= 0.0
    ensures n >= 0 && x - 0.5 < n as real <= x + 0.5
  {
    (x + 0.5).Floor
  }

  /** How many of the creation times fall in the last seven days. */
  function RecentCount(createdAts: seq<int>, now: int): (n: int)
    ensures 0 <= n <= |createdAts|
    decreases |createdAts|
  {
    if createdAts == [] then 0
    else RecentCount(createdAts[..|createdAts| - 1], now) + (if createdAts[|createdAts| - 1] >= now - 7 * DAY then 1 else 0)
  }

  /** The score: three points per recent RSVP, two per recent favourite,
      plus the proximity bonus; a float, since the bonus is one. */
  function PopularityScore(e: Event, rsvpTimes: seq<int>, favoriteTimes: seq<int>, now: int): real
  {
    (3 * RecentCount(rsvpTimes, now) + 2 * RecentCount(favoriteTimes, now)) as real + ProximityBonus(e, now)
  }

  /** The score is never negative, is at most 3 per RSVP and 2 per favourite
      plus 50, and grows by three for each new RSVP. */
  lemma PopularityBounds(e: Event, rsvpTimes: seq<int>, favoriteTimes: seq<int>, now: int)
    ensures 0.0 <= PopularityScore(e, rsvpTimes, favoriteTimes, now) <= (3 * |rsvpTimes| + 2 * |favoriteTimes| + 50) as real
    ensures PopularityScore(e, rsvpTimes + [now], favoriteTimes, now) == PopularityScore(e, rsvpTimes, favoriteTimes, now) + 3.0
  {
    ProximityBonusBounds(e, now);
    assert (rsvpTimes + [now])[..|rsvpTimes|] == rsvpTimes;
  }

  /** Eighteen hours before the start the bonus is 49.25, and the row keeps
      49: part of a day already costs part of a point. */
  lemma FractionalDayCounts(e: Event, now: int)
    requires e.startAt == now + 18 * HOUR
    ensures ProximityBonus(e, now) == 49.25
    ensures ColumnValue(PopularityScore(e, [], [], now)) == 49
  {
    ProximityBonusBounds(e, now);
    assert DaysUntil(e, now) == 0.75;
    assert PopularityScore(e, [], [], now) == 49.25;
  }

  /** One event row, whose score `updatePopularityScore` rewrites. */
  class EventRecord {
    var row: Event

    constructor (e: Event)
      ensures row == e
    {
      row := e;
    }

    method UpdatePopularityScore(rsvpTimes: seq<int>, favoriteTimes: seq<int>, now: int)
      modifies this
      ensures PopularityScore(old(row), rsvpTimes, favoriteTimes, now) >= 0.0
      ensures row == old(row).(popularityScore := ColumnValue(PopularityScore(old(row), rsvpTimes, favoriteTimes, now)))
    {
      var rsvpScore := RecentCount(rsvpTimes, now) * 3;
      var favoriteScore := RecentCount(favoriteTimes, now) * 2;
      var days := RealMax(0.0, DaysUntil(row, now));
      var bonus := RealMax(0.0, 50.0 - days);
      PopularityBounds(row, rsvpTimes, favoriteTimes, now);
      row := row.(popularityScore := ColumnValue((rsvpScore + favoriteScore) as real + bonus));
    }
  }

  /** One RSVP row. */
  class RsvpRecord {
    var row: Rsvp

    constructor (r: Rsvp)
      ensures row == r
    {
      row := r;
    }

    /** `markAsNotified`: the flag and nothing else. */
    method MarkAsNotified()
      modifies this
      ensures row == old(row).(notified := true)
    {
      row := row.(notified := true);
    }
  }
}
