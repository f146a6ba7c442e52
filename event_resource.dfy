/** The event's JSON: links grouped by type, the RSVP summary and the
    viewer's own favourite and RSVP status. */
module EventResource {
  import opened Common
  import opened Users
  import opened Events
  import EventActions
  import Resources

  // ---------------------------------------------------------------
  // Links
  // ---------------------------------------------------------------

  datatype LinkType = Instagram | WhatsApp | Website | Facebook | YouTube | TikTok | Ticket | Maps | OtherLink

  /** `LinkType` backing values. */
  function LinkTypeValue(t: LinkType): string
  {
    match t
    case Instagram => "instagram"
    case WhatsApp => "whatsapp"
    case Website => "website"
    case Facebook => "facebook"
    case YouTube => "youtube"
    case TikTok => "tiktok"
    case Ticket => "ticket"
    case Maps => "maps"
    case OtherLink => "other"
  }

  /** `LinkType::label`. */
  function LinkTypeLabel(t: LinkType): string
  {
    match t
    case Instagram => "Instagram"
    case WhatsApp => "WhatsApp"
    case Website => "Site"
    case Facebook => "Facebook"
    case YouTube => "YouTube"
    case TikTok => "TikTok"
    case Ticket => "Ingressos"
    case Maps => "Mapa"
    case OtherLink => "Outro"
  }

  /** A row of `event_links`; the url is not nullable. */
  datatype Link = Link(linkType: LinkType, url: string, ownLabel: Option<string>)

  /** `display_label`: the link's own label, else its type's. */
  function DisplayLabel(l: Link): string
  {
    l.ownLabel.GetOr(LinkTypeLabel(l.linkType))
  }

  /** The types with a slot of their own in the result. The `other` key
      exists too, but holds an array and never null, so links of type
      `other` go to the list. */
  predicate HasSlot(t: LinkType)
  {
    t == Instagram || t == WhatsApp || t == Website || t == Facebook || t == YouTube || t == TikTok
  }

  /** An entry of the `other` list. */
  datatype OtherEntry = OtherEntry(linkType: string, url: string, displayLabel: string)

  function EntryOf(l: Link): OtherEntry
  {
    OtherEntry(LinkTypeValue(l.linkType), l.url, DisplayLabel(l))
  }

  /** The `links` value: an empty array when the relation is not loaded,
      otherwise the filled slots (a missing key is a null slot) and the
      other list. */
  datatype LinksJson = NoLinks | LinkGroups(slots: map<LinkType, string>, other: seq<OtherEntry>)

  /** What the loop has built after the given links. */
  function Grouped(links: seq<Link>): (map<LinkType, string>, seq<OtherEntry>)
    decreases |links|
  {
    if links == [] then (map[], [])
    else
      var (s, o) := Grouped(links[..|links| - 1]);
      var l := links[|links| - 1];
      if HasSlot(l.linkType) && l.linkType !in s then (s[l.linkType := l.url], o)
      else (s, o + [EntryOf(l)])
  }

  /** The url of the first link of a type, read from the front. */
  function FirstUrl(links: seq<Link>, t: LinkType): (u: Option<string>)
    ensures u.Some? <==> exists j :: 0 <= j < |links| && links[j].linkType == t
    decreases |links|
  {
    if links == [] then None
    else if links[0].linkType == t then Some(links[0].url)
    else
      assert forall j :: 1 <= j < |links| ==> links[j] == links[1..][j - 1];
      FirstUrl(links[1..], t)
  }

  lemma {:induction false} FirstUrlAppend(links: seq<Link>, l: Link, t: LinkType)
    ensures FirstUrl(links + [l], t) == if FirstUrl(links, t).Some? then FirstUrl(links, t) else if l.linkType == t then Some(l.url) else None
    decreases |links|
  {
    if links != [] {
      assert (links + [l])[0] == links[0] && (links + [l])[1..] == links[1..] + [l];
      FirstUrlAppend(links[1..], l, t);
    }
  }

  /** The link at index i takes a slot: its type has one and no earlier link
      has that type. */
  predicate TakesSlot(links: seq<Link>, i: int)
    requires 0 <= i < |links|
  {
    HasSlot(links[i].linkType) && forall j :: 0 <= j < i ==> links[j].linkType != links[i].linkType
  }

  /** The links that take no slot, in their order, as entries. */
  function Overflow(links: seq<Link>): seq<OtherEntry>
    decreases |links|
  {
    if links == [] then []
    else Overflow(links[..|links| - 1]) + (if TakesSlot(links, |links| - 1) then [] else [EntryOf(links[|links| - 1])])
  }

  /** The loop's result against the reference readings: a slot holds the
      first link of its type, the other list holds every link that does not
      take a slot in input order, and each link lands in exactly one
      place. */
  lemma {:induction false} GroupedMeans(links: seq<Link>)
    ensures forall t :: t in Grouped(links).0 <==> HasSlot(t) && FirstUrl(links, t).Some?
    ensures forall t :: t in Grouped(links).0 ==> Grouped(links).0[t] == FirstUrl(links, t).value
    ensures Grouped(links).1 == Overflow(links)
    ensures |Grouped(links).0| + |Grouped(links).1| == |links|
    decreases |links|
  {
    if links != [] {
      var n := |links| - 1;
      var prefix := links[..n];
      assert links == prefix + [links[n]];
      GroupedMeans(prefix);
      GroupedStep(prefix, links[n]);
    }
  }

  /** The readings of `GroupedMeans` for a list. */
  predicate GroupedReads(links: seq<Link>)
  {
    && (forall t :: t in Grouped(links).0 <==> HasSlot(t) && FirstUrl(links, t).Some?)
    && (forall t :: t in Grouped(links).0 ==> Grouped(links).0[t] == FirstUrl(links, t).value)
    && Grouped(links).1 == Overflow(links)
    && |Grouped(links).0| + |Grouped(links).1| == |links|
  }

  /** One more link keeps the readings. */
  lemma GroupedStep(prefix: seq<Link>, l: Link)
    requires GroupedReads(prefix)
    ensures GroupedReads(prefix + [l])
  {
    var links := prefix + [l];
    var n := |prefix|;
    assert links[..n] == prefix;
    var (s, o) := Grouped(prefix);
    forall t
      ensures FirstUrl(links, t) == if FirstUrl(prefix, t).Some? then FirstUrl(prefix, t) else if l.linkType == t then Some(l.url) else None
    {
      FirstUrlAppend(prefix, l, t);
    }
    TakesSlotLast(prefix, l);
    assert Overflow(links) == Overflow(prefix) + (if TakesSlot(links, n) then [] else [EntryOf(l)]);
    if HasSlot(l.linkType) && l.linkType !in s {
      assert s[l.linkType := l.url].Keys == s.Keys + {l.linkType};
    }
  }

  /** The last link takes a slot exactly when its type has one that no
      earlier link used. */
  lemma TakesSlotLast(prefix: seq<Link>, l: Link)
    ensures TakesSlot(prefix + [l], |prefix|) <==> HasSlot(l.linkType) && FirstUrl(prefix, l.linkType).None?
  {
    var links := prefix + [l];
    var n := |prefix|;
    if HasSlot(l.linkType) && FirstUrl(prefix, l.linkType).Some? {
      var j :| 0 <= j < |prefix| && prefix[j].linkType == l.linkType;
      assert links[j].linkType == l.linkType;
    }
    if HasSlot(l.linkType) && FirstUrl(prefix, l.linkType).None? {
      forall j | 0 <= j < n
        ensures links[j].linkType != l.linkType
      {
        assert links[j] == prefix[j];
      }
    }
  }

  /** `getLinksData`: the loop over the links, filling the six named slots
      with the first link of each type and appending everything else to
      `other`. */
  method GetLinksData(loaded: bool, links: seq<Link>) returns (r: LinksJson)
    ensures !loaded ==> r == NoLinks
    ensures loaded ==> r == LinkGroups(Grouped(links).0, Grouped(links).1)
  {
    if !loaded {
      return NoLinks;
    }
    var slots: map<LinkType, string> := map[];
    var other: seq<OtherEntry> := [];
    var i := 0;
    while i < |links|
      invariant 0 <= i <= |links|
      invariant Grouped(links[..i]).0 == slots && Grouped(links[..i]).1 == other
    {
      var l := links[i];
      assert links[..i + 1][..i] == links[..i];
      if HasSlot(l.linkType) && l.linkType !in slots {
        slots := slots[l.linkType := l.url];
      } else {
        other := other + [EntryOf(l)];
      }
      i := i + 1;
    }
    assert links[..|links|] == links;
    r := LinkGroups(slots, other);
  }

  /** What the method's result means, by the reference readings. */
  lemma LinksDataFacts(links: seq<Link>, t: LinkType)
    ensures var g := Grouped(links);
      && (t in g.0 <==> HasSlot(t) && exists j :: 0 <= j < |links| && links[j].linkType == t)
      && (t in g.0 ==> g.0[t] == FirstUrl(links, t).value)
      && g.1 == Overflow(links)
      && |g.0| + |g.1| == |links|
  {
    GroupedMeans(links);
  }

  /** Links whose type has no slot always go to the list, and a second link
      of a slot type too. */
  lemma OverflowMembers(links: seq<Link>, i: int)
    requires 0 <= i < |links|
    requires !HasSlot(links[i].linkType) || exists j :: 0 <= j < i && links[j].linkType == links[i].linkType
    ensures EntryOf(links[i]) in Overflow(links)
  {
    OverflowHolds(links, i);
  }

  lemma {:induction false} OverflowHolds(links: seq<Link>, i: int)
    requires 0 <= i < |links| && !TakesSlot(links, i)
    ensures EntryOf(links[i]) in Overflow(links)
    decreases |links|
  {
    var n := |links| - 1;
    if i < n {
      assert links[..n][i] == links[i];
      assert !TakesSlot(links[..n], i) by {
        if HasSlot(links[i].linkType) {
          var j :| 0 <= j < i && links[j].linkType == links[i].linkType;
          assert links[..n][j] == links[j];
        }
      }
      OverflowHolds(links[..n], i);
    }
  }

  // ---------------------------------------------------------------
  // The RSVP summary
  // ---------------------------------------------------------------

  /** An attendee in the summary: the raw name, not the display name. */
  datatype SummaryAttendee = SummaryAttendee(id: string, nome: Option<string>, avatarUrl: Option<string>)

  datatype RsvpSummary = RsvpSummary(count: int, goingCount: int, maybeCount: int, attendees: seq<SummaryAttendee>, userStatus: Option<string>)

  /** The going RSVPs in order, keeping at most `n`. */
  function TakeGoing(rs: seq<Rsvp>, n: nat): (out: seq<Rsvp>)
    ensures |out| <= n
    ensures forall r :: r in out ==> r in rs && IsGoing(r)
    decreases |rs|
  {
    if rs == [] || n == 0 then []
    else if IsGoing(rs[0]) then [rs[0]] + TakeGoing(rs[1..], n - 1)
    else TakeGoing(rs[1..], n)
  }

  /** The map and the filter on a loaded user. */
  function Summarised(rs: seq<Rsvp>, users: map<string, Resources.Author>): (out: seq<SummaryAttendee>)
    ensures |out| <= |rs|
    ensures forall a :: a in out ==> exists r :: r in rs && r.userId in users && a.id == users[r.userId].user.id
    decreases |rs|
  {
    if rs == [] then []
    else
      var rest := Summarised(rs[1..], users);
      assert forall r :: r in rs[1..] ==> r in rs;
      if rs[0].userId in users then
        var a := users[rs[0].userId];
        [SummaryAttendee(a.user.id, a.user.nome, a.avatarUrl)] + rest
      else rest
  }

  /** The viewer's RSVP status value; `getUserRsvp` has none without a
      user id. */
  function UserRsvpStatus(rsvps: seq<Rsvp>, userId: Option<string>): (v: Option<string>)
    ensures v.Some? ==> userId.Some? && exists r :: r in rsvps && r.userId == userId.value && v.value == EventActions.RsvpStatusValue(r.status)
    ensures !Present(userId) ==> v.None?
  {
    match UserRsvp(rsvps, userId)
    case None => None
    case Some(r) => Some(EventActions.RsvpStatusValue(r.status))
  }

  /** `getRsvpData`: the going and maybe guest sums, which the
      `going_count` and `maybe_count` accessors always compute from the
      event's RSVPs (so the `?? 0` fallback never applies), the first ten
      going RSVPs of the loaded relation with a user, and the viewer's
      status. `rsvps` are this event's RSVPs. */
  function RsvpData(loaded: bool, rsvps: seq<Rsvp>, users: map<string, Resources.Author>, viewer: Option<User>): (d: RsvpSummary)
    ensures d.goingCount == GoingCount(rsvps) && d.maybeCount == MaybeCount(rsvps)
    ensures d.count == AttendeesCount(rsvps)
    ensures |d.attendees| <= 10
    ensures !loaded ==> d.attendees == []
    ensures forall a :: a in d.attendees ==> exists r :: r in rsvps && IsGoing(r) && r.userId in users && a.id == users[r.userId].user.id
    ensures viewer.None? ==> d.userStatus.None?
  {
    var going := GoingCount(rsvps);
    var maybe := MaybeCount(rsvps);
    AttendeesAreGoingPlusMaybe(rsvps);
    var firstTen := TakeGoing(rsvps, 10);
    var attendees := if loaded then Summarised(firstTen, users) else [];
    assert forall r :: r in firstTen ==> r in rsvps && IsGoing(r);
    RsvpSummary(going + maybe, going, maybe, attendees,
                if viewer.Some? then UserRsvpStatus(rsvps, Some(viewer.value.id)) else None)
  }

  /** The ten come before the filter: a going RSVP whose user row is gone
      still uses up one of the ten places. */
  lemma TakeBeforeFilter(r: Rsvp, rest: seq<Rsvp>, users: map<string, Resources.Author>)
    requires IsGoing(r) && r.userId !in users
    requires forall q :: q in rest ==> IsGoing(q) && q.userId in users
    requires |rest| >= 10
    ensures |RsvpData(true, [r] + rest, users, None).attendees| == 9
  {
    assert TakeGoing([r] + rest, 10) == [r] + TakeGoing(rest, 9);
    AllGoingTaken(rest, 9);
    AllSummarised(TakeGoing(rest, 9), users);
    assert Summarised([r] + TakeGoing(rest, 9), users) == Summarised(TakeGoing(rest, 9), users);
  }

  lemma {:induction false} AllGoingTaken(rs: seq<Rsvp>, n: nat)
    requires forall q :: q in rs ==> IsGoing(q)
    requires |rs| >= n
    ensures |TakeGoing(rs, n)| == n
    ensures forall q :: q in TakeGoing(rs, n) ==> q in rs
    decreases |rs|
  {
    if n > 0 {
      assert forall q :: q in rs[1..] ==> q in rs;
      AllGoingTaken(rs[1..], n - 1);
    }
  }

  lemma {:induction false} AllSummarised(rs: seq<Rsvp>, users: map<string, Resources.Author>)
    requires forall q :: q in rs ==> q.userId in users
    ensures |Summarised(rs, users)| == |rs|
    decreases |rs|
  {
    if rs != [] {
      assert forall q :: q in rs[1..] ==> q in rs;
      AllSummarised(rs[1..], users);
    }
  }

  /** `isFavorited` and `userRsvpStatus`: null for a guest; for a member the
      preloaded flag when there is one, else the pivot, and the status of
      the member's RSVP. */
  datatype ViewerFields = ViewerFields(isFavorited: Option<bool>, userRsvpStatus: Option<string>)

  function ViewerFieldsOf(e: Event, viewer: Option<User>, preloaded: Option<bool>, favorites: map<(string, string), int>, rsvps: seq<Rsvp>): (v: ViewerFields)
    ensures viewer.None? ==> v == ViewerFields(None, None)
    ensures viewer.Some? && preloaded.Some? ==> v.isFavorited == preloaded
    ensures viewer.Some? && preloaded.None? && Truthy(viewer.value.id) ==>
      v.isFavorited == Some((e.id, viewer.value.id) in favorites)
    ensures viewer.Some? ==> v.userRsvpStatus == UserRsvpStatus(rsvps, Some(viewer.value.id))
  {
    if viewer.None? then ViewerFields(None, None)
    else
      var id := Some(viewer.value.id);
      ViewerFields(Some(preloaded.GetOr(IsFavoritedBy(favorites, e.id, id))), UserRsvpStatus(rsvps, id))
  }
}
