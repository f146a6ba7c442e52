/** Content flags: a report of a topic, comment, report or user, handled by
    a moderator who reviews it, dismisses it or records an action. */
module ContentFlags {
  import opened Common

  datatype FlagStatus = Open | Reviewing | ActionTaken | Dismissed

  /** `FlagAction`; its `none` case is `NoAction` here. */
  datatype FlagAction = NoAction | Hide | DeleteContent | WarnUser | RestrictUser

  datatype FlagContentType = TopicContent | CommentContent | ReportContent | UserContent

  datatype FlagReason = Spam | PersonalData | Hate | Violence | Scam | Misinformation | Harassment | Other

  /** A row of `content_flags`. */
  datatype Flag = Flag(
    id: string,
    contentType: FlagContentType,
    contentId: string,
    reportedBy: Option<string>,
    reason: FlagReason,
    message: Option<string>,
    status: FlagStatus,
    handledBy: Option<string>,
    handledAt: Option<int>,
    action: Option<FlagAction>)

  /** A new flag: status takes the column default Open and nobody has
      handled it. */
  function NewFlag(id: string, contentType: FlagContentType, contentId: string, reportedBy: Option<string>,
                   reason: FlagReason, message: Option<string>): (f: Flag)
    ensures f.status == Open && f.handledBy.None? && f.handledAt.None? && f.action.None?
    ensures f.contentType == contentType && f.contentId == contentId && f.reason == reason && f.message == message
  {
    Flag(id, contentType, contentId, reportedBy, reason, message, Open, None, None, None)
  }

  /** The fields no handling step touches: what was flagged, by whom, why. */
  predicate SameReport(f: Flag, g: Flag)
  {
    f.id == g.id && f.contentType == g.contentType && f.contentId == g.contentId
    && f.reportedBy == g.reportedBy && f.reason == g.reason && f.message == g.message
  }

  /** `markReviewing`: status Reviewing, handler and time stamped, action
      untouched. */
  function MarkedReviewing(f: Flag, actor: string, now: int): (g: Flag)
    ensures g.status == Reviewing && g.handledBy == Some(actor) && g.handledAt == Some(now)
    ensures g.action == f.action && SameReport(f, g)
  {
    f.(status := Reviewing, handledBy := Some(actor), handledAt := Some(now))
  }

  /** `markDismissed`: status Dismissed and action none. */
  function MarkedDismissed(f: Flag, actor: string, now: int): (g: Flag)
    ensures g.status == Dismissed && g.handledBy == Some(actor) && g.handledAt == Some(now)
    ensures g.action == Some(NoAction) && SameReport(f, g)
  {
    f.(status := Dismissed, handledBy := Some(actor), handledAt := Some(now), action := Some(NoAction))
  }

  /** `markActionTaken`: status ActionTaken and the given action, none when
      no action is given. */
  function MarkedActionTaken(f: Flag, actor: string, action: Option<FlagAction>, now: int): (g: Flag)
    ensures g.status == ActionTaken && g.handledBy == Some(actor) && g.handledAt == Some(now)
    ensures g.action == Some(action.GetOr(NoAction)) && SameReport(f, g)
  {
    f.(status := ActionTaken, handledBy := Some(actor), handledAt := Some(now), action := Some(action.GetOr(NoAction)))
  }

  /** The three row actions of the moderation queue. */
  datatype QueueAction = Review | Dismiss | TakeAction(action: FlagAction)

  /** Which actions the queue shows for a flag: review only while Open, the
      other two while Open or Reviewing. */
  predicate Offered(f: Flag, a: QueueAction)
  {
    match a
    case Review => f.status == Open
    case Dismiss => f.status == Open || f.status == Reviewing
    case TakeAction(_) => f.status == Open || f.status == Reviewing
  }

  /** Running one action from the queue on a flag. */
  function Handled(f: Flag, a: QueueAction, actor: string, now: int): Flag
  {
    match a
    case Review => MarkedReviewing(f, actor, now)
    case Dismiss => MarkedDismissed(f, actor, now)
    case TakeAction(act) => MarkedActionTaken(f, actor, Some(act), now)
  }

  /** A moderator working through the queue: each click on an offered
      action handles the flag; an action the queue does not show cannot be
      clicked and leaves the flag alone. */
  function Worked(f: Flag, clicks: seq<QueueAction>, actor: string, now: int): Flag
    decreases |clicks|
  {
    if clicks == [] then f
    else
      var g := if Offered(f, clicks[0]) then Handled(f, clicks[0], actor, now) else f;
      Worked(g, clicks[1..], actor, now)
  }

  predicate IsTerminal(s: FlagStatus)
  {
    s == ActionTaken || s == Dismissed
  }

  /** A step never goes back to Open, and a terminal flag offers nothing. */
  lemma StepShape(f: Flag, a: QueueAction, actor: string, now: int)
    ensures Offered(f, a) ==> Handled(f, a, actor, now).status != Open && SameReport(f, Handled(f, a, actor, now))
    ensures IsTerminal(f.status) ==> !Offered(f, a)
    ensures f.status == Reviewing ==> !Offered(f, Review)
  {
  }

  /** ActionTaken and Dismissed are terminal in the queue: whatever is clicked
      afterwards, the flag stays exactly as it is. */
  lemma {:induction false} TerminalStaysPut(f: Flag, clicks: seq<QueueAction>, actor: string, now: int)
    requires IsTerminal(f.status)
    ensures Worked(f, clicks, actor, now) == f
    decreases |clicks|
  {
    if clicks != [] {
      TerminalStaysPut(f, clicks[1..], actor, now);
    }
  }

  /** Whatever the queue does, the flagged content, reporter, reason and
      message survive, and a flag that has left Open never returns to it. */
  lemma {:induction false} WorkKeepsReport(f: Flag, clicks: seq<QueueAction>, actor: string, now: int)
    ensures SameReport(f, Worked(f, clicks, actor, now))
    ensures f.status != Open ==> Worked(f, clicks, actor, now).status != Open
    decreases |clicks|
  {
    if clicks != [] {
      var g := if Offered(f, clicks[0]) then Handled(f, clicks[0], actor, now) else f;
      StepShape(f, clicks[0], actor, now);
      WorkKeepsReport(g, clicks[1..], actor, now);
    }
  }

  /** One flag row, updated in place by the ContentFlag model. */
  class ContentFlagRecord {
    var row: Flag

    constructor (f: Flag)
      ensures row == f
    {
      row := f;
    }

    method MarkReviewing(actor: string, now: int)
      modifies this
      ensures row == MarkedReviewing(old(row), actor, now)
    {
      row := row.(status := Reviewing, handledBy := Some(actor), handledAt := Some(now));
    }

    method MarkDismissed(actor: string, now: int)
      modifies this
      ensures row == MarkedDismissed(old(row), actor, now)
    {
      row := row.(status := Dismissed, handledBy := Some(actor), handledAt := Some(now), action := Some(NoAction));
    }

    method MarkActionTaken(actor: string, action: Option<FlagAction>, now: int)
      modifies this
      ensures row == MarkedActionTaken(old(row), actor, action, now)
    {
      var chosen := if action.Some? then action.value else NoAction;
      row := row.(status := ActionTaken, handledBy := Some(actor), handledAt := Some(now), action := Some(chosen));
    }
  }
}
