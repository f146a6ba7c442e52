/** The forum endpoints: topics (show, store, update, destroy), likes and
    saves, comments and their likes, and reports, over one board holding the
    topic, comment, pivot and report tables. */
module Forum {
  import opened Common
  import opened Users
  import Topics
  import Comments
  import Policies
  import TopicRequests
  import RegisterRequest

  type Topic = Topics.Topic
  type Comment = Comments.Comment

  datatype ReportMotivo = Spam | Ofensivo | Falso | Outro

  datatype ReportStatus = Pending | Reviewed | ReportDismissed | ReportActionTaken

  /** A row of `topic_reports` or `comment_reports`; `target` is the topic or
      comment id. */
  datatype Report = Report(id: string, userId: string, target: string, motivo: ReportMotivo,
                           descricao: Option<string>, status: ReportStatus)

  /** A pivot table (`topic_likes`, `saved_topics`, `comment_likes`) as its
      set of (target id, user id) rows; the pair is the primary key. */
  type Pivot = set<(string, string)>

  datatype Board = Board(
    topics: map<string, Topic>,
    comments: map<string, Comment>,
    topicLikes: Pivot,
    saves: Pivot,
    commentLikes: Pivot,
    topicReports: seq<Report>,
    commentReports: seq<Report>)

  /** The users a pivot links to one target. */
  function Members(p: Pivot, target: string): set<string>
  {
    set row | row in p && row.0 == target :: row.1
  }

  /** The comments of a topic that are not soft-deleted. */
  function LiveComments(comments: map<string, Comment>, topic: string): set<string>
  {
    set k | k in comments && comments[k].topicId == topic && comments[k].deletedAt.None?
  }

  /** At most one report per user and target (the unique index). */
  predicate ReportsUnique(rs: seq<Report>)
  {
    forall i, j :: 0 <= i < j < |rs| ==> rs[i].userId != rs[j].userId || rs[i].target != rs[j].target
  }

  predicate HasReported(rs: seq<Report>, user: string, target: string)
  {
    exists i :: 0 <= i < |rs| && rs[i].userId == user && rs[i].target == target
  }

  /** A topic row: stored under its id, its counters equal to its likers
      and its live comments. */
  predicate TopicRowOk(b: Board, id: string)
    requires id in b.topics
  {
    && b.topics[id].id == id
    && b.topics[id].likesCount == |Members(b.topicLikes, id)|
    && b.topics[id].commentsCount == |LiveComments(b.comments, id)|
  }

  /** A comment row: stored under its id, in an existing topic, its counter
      equal to its likers and its depth in range. */
  predicate CommentRowOk(b: Board, id: string)
    requires id in b.comments
  {
    && b.comments[id].id == id
    && b.comments[id].topicId in b.topics
    && b.comments[id].likesCount == |Members(b.commentLikes, id)|
    && 0 <= b.comments[id].depth <= Comments.MAX_DEPTH
  }

  /** Every pivot row points at an existing row. */
  predicate PivotsOk(b: Board)
  {
    && (forall row :: row in b.topicLikes ==> row.0 in b.topics)
    && (forall row :: row in b.saves ==> row.0 in b.topics)
    && (forall row :: row in b.commentLikes ==> row.0 in b.comments)
  }

  /** The board's invariant: every row is well formed, pivots point at
      existing rows and reports are unique. */
  predicate WellFormed(b: Board)
  {
    && (forall id :: id in b.topics ==> TopicRowOk(b, id))
    && (forall id :: id in b.comments ==> CommentRowOk(b, id))
    && PivotsOk(b)
    && ReportsUnique(b.topicReports) && ReportsUnique(b.commentReports)
  }

  const EMPTY_BOARD: Board := Board(map[], map[], {}, {}, {}, [], [])

  lemma EmptyBoardWellFormed()
    ensures WellFormed(EMPTY_BOARD)
  {
  }

  /** Route-model binding: a topic that exists and is not soft-deleted. */
  predicate Bound(b: Board, id: string)
  {
    id in b.topics && b.topics[id].deletedAt.None?
  }

  /** What an endpoint answers. */
  datatype Response =
    | NotFound
    | Forbidden
    | Invalid(errors: set<string>)
    | TopicShown(topic: Topic, liked: bool, saved: bool)
    | TopicCreated(topic: Topic)
    | TopicUpdated(topic: Topic)
    | TopicRemoved
    | LikeToggled(liked: bool, likesCount: int)
    | SaveFlipped(saved: bool)
    | CommentCreated(comment: Comment)
    | CommentRemoved
    | AlreadyReported
    | ReportSent
    | TopicHiddenOk

  // ---------------------------------------------------------------
  // Pivot rows
  // ---------------------------------------------------------------

  /** Attach or detach one pivot row, as the toggles do. */
  function Flipped(p: Pivot, target: string, user: string): Pivot
  {
    if (target, user) in p then p - {(target, user)} else p + {(target, user)}
  }

  lemma {:induction false} MembersFlipped(p: Pivot, target: string, user: string, other: string)
    ensures user in Members(p, target) <==> (target, user) in p
    ensures (target, user) in p ==> Members(Flipped(p, target, user), target) == Members(p, target) - {user}
    ensures (target, user) !in p ==> Members(Flipped(p, target, user), target) == Members(p, target) + {user}
    ensures other != target ==> Members(Flipped(p, target, user), other) == Members(p, other)
  {
    var q := Flipped(p, target, user);
    if (target, user) in p {
      assert forall v :: v in Members(q, target) <==> v in Members(p, target) - {user} by {
        forall v ensures v in Members(q, target) <==> v in Members(p, target) - {user} {
          assert v in Members(q, target) <==> (target, v) in q;
          assert v in Members(p, target) <==> (target, v) in p;
        }
      }
    } else {
      assert forall v :: v in Members(q, target) <==> v in Members(p, target) + {user} by {
        forall v ensures v in Members(q, target) <==> v in Members(p, target) + {user} {
          assert v in Members(q, target) <==> (target, v) in q;
          assert v in Members(p, target) <==> (target, v) in p;
        }
      }
    }
    if other != target {
      assert forall v :: v in Members(q, other) <==> v in Members(p, other) by {
        forall v ensures v in Members(q, other) <==> v in Members(p, other) {
          assert v in Members(q, other) <==> (other, v) in q;
          assert v in Members(p, other) <==> (other, v) in p;
        }
      }
    }
  }

  /** The size of a target's members moves by exactly one on a flip. */
  lemma MembersFlippedCount(p: Pivot, target: string, user: string)
    ensures (target, user) in p ==> |Members(Flipped(p, target, user), target)| == |Members(p, target)| - 1
    ensures (target, user) !in p ==> |Members(Flipped(p, target, user), target)| == |Members(p, target)| + 1
  {
    MembersFlipped(p, target, user, target);
  }

  lemma NoRowsNoMembers(p: Pivot, target: string)
    requires forall row :: row in p ==> row.0 != target
    ensures Members(p, target) == {}
  {
  }

  // ---------------------------------------------------------------
  // TopicController
  // ---------------------------------------------------------------

  /** `show`: a topic that is not Active is a 404 unless the viewer is staff;
      a signed-in viewer also learns whether they liked and saved it. */
  function Shown(b: Board, viewer: Option<User>, id: string): Response
  {
    if !Bound(b, id) then NotFound
    else
      var t := b.topics[id];
      if t.status != Topics.Active && (viewer.None? || !IsStaff(viewer.value)) then NotFound
      else TopicShown(t, viewer.Some? && (id, viewer.value.id) in b.topicLikes,
                      viewer.Some? && (id, viewer.value.id) in b.saves)
  }

  /** `show` admits the same viewers as the topic policy's `view`, except the
      author of a topic that is not Active, who gets a 404. */
  lemma ShowStricterThanPolicy(b: Board, viewer: Option<User>, id: string)
    requires Bound(b, id)
    ensures Shown(b, viewer, id).TopicShown? ==> Policies.TopicView(viewer, b.topics[id])
    ensures Policies.TopicView(viewer, b.topics[id]) && !Shown(b, viewer, id).TopicShown? <==>
      b.topics[id].status != Topics.Active && viewer.Some? && !IsStaff(viewer.value) && viewer.value.id == b.topics[id].userId
    ensures viewer.None? ==> (Shown(b, viewer, id).TopicShown? ==> !Shown(b, viewer, id).liked && !Shown(b, viewer, id).saved)
  {
  }

  /** The validated fields of a new topic, as the store request leaves
      them. */
  datatype NewTopic = NewTopic(bairroId: string, titulo: string, texto: string, categoria: Topics.TopicCategory,
                               fotoUrl: Option<string>, isAnon: Option<bool>)

  /** `store`: one new Active topic by the caller, anonymity off and no photo
      unless supplied, counters at zero. `newId` is the fresh UUID. */
  function Stored(b: Board, u: User, f: NewTopic, newId: string, now: int): (Board, Response)
  {
    var t := Topics.Topic(newId, u.id, f.bairroId, f.titulo, f.texto, f.categoria, f.fotoUrl,
                          f.isAnon.GetOr(false), 0, 0, Topics.Active, now, None);
    (b.(topics := b.topics[newId := t]), TopicCreated(t))
  }

  /** `update`'s `$updateData` applied to the topic: each of titulo, texto
      and categoria when set and not null, the photo whenever its key is
      present, null included. */
  function UpdatedTopic(t: Topic, v: Request): Topic
  {
    var t1 := if "titulo" in v && v["titulo"].JStr? then t.(titulo := v["titulo"].s) else t;
    var t2 := if "texto" in v && v["texto"].JStr? then t1.(texto := v["texto"].s) else t1;
    var t3 := if "categoria" in v && v["categoria"].JStr? && Topics.CategoryFrom(v["categoria"].s).Some?
      then t2.(categoria := Topics.CategoryFrom(v["categoria"].s).value) else t2;
    if "fotoUrl" in v then t3.(fotoUrl := if v["fotoUrl"].JStr? then Some(v["fotoUrl"].s) else None) else t3
  }

  /** `update` behind its form request: 404 for an unbound topic, then the
      request's verdict, then the field mapping. */
  function Updated(b: Board, u: User, id: string, input: Request, now: int, isUrl: string -> bool): (Board, Response)
  {
    if !Bound(b, id) then (b, NotFound)
    else
      match TopicRequests.Resolved(u, b.topics[id], input, now, isUrl)
      case Forbidden => (b, Forbidden)
      case Invalid(errs) => (b, Invalid(errs))
      case Accepted(v) =>
        var t := UpdatedTopic(b.topics[id], v);
        (b.(topics := b.topics[id := t]), TopicUpdated(t))
  }

  /** `destroy`: authorise delete, set status Deleted, then soft-delete. */
  function Destroyed(b: Board, u: User, id: string, now: int): (Board, Response)
  {
    if !Bound(b, id) then (b, NotFound)
    else if !Policies.TopicDelete(u, b.topics[id]) then (b, Forbidden)
    else (b.(topics := b.topics[id := b.topics[id].(status := Topics.Deleted, deletedAt := Some(now))]), TopicRemoved)
  }

  /** The page size of the listings: the requested size, default 15, capped
      at 50. `paginate` replaces a size of 0 by the model's 15, and a
      negative size sets no limit at all. */
  function PerPage(requested: Option<int>): (n: int)
    ensures n <= 50 && n != 0
    ensures requested.None? ==> n == 15
    ensures requested.Some? && requested.value == 0 ==> n == 15
    ensures requested.Some? && requested.value >= 1 ==> n == Min(requested.value, 50)
    ensures n < 0 <==> requested.Some? && requested.value < 0
  {
    var n := Min(requested.GetOr(15), 50);
    if n == 0 then 15 else n
  }

  /** The first page of a listing in its query order: as many entries as
      the page size allows, or all of them when the size is negative. */
  function FirstPage<T>(listed: seq<T>, requested: Option<int>): (page: seq<T>)
    ensures page <= listed
    ensures requested.Some? && requested.value < 0 ==> page == listed
    ensures PerPage(requested) > 0 ==> |page| == Min(PerPage(requested), |listed|)
  {
    var n := PerPage(requested);
    if n < 0 then listed else listed[..Min(n, |listed|)]
  }

  /** The `categoria` filter: a filled value naming a category filters by
      it; an unknown value is ignored. */
  function CategoryFilter(categoria: Option<string>): (f: Option<Topics.TopicCategory>)
    ensures f.Some? ==> RequestFilled(categoria) && Topics.CategoryValue(f.value) == categoria.value
    ensures RequestFilled(categoria) && Topics.CategoryFrom(categoria.value).Some? ==> f.Some?
  {
    if RequestFilled(categoria) then Topics.CategoryFrom(categoria.value) else None
  }

  /** `titulo LIKE %search% OR texto LIKE %search%`, folding ASCII case. */
  predicate SearchMatches(t: Topic, search: string)
  {
    Infix(Lower(search), Lower(t.titulo)) || Infix(Lower(search), Lower(t.texto))
  }

  /** The listing's filters: Active and not soft-deleted, then the bairro,
      the category, the search text and the period when each is filled,
      and only topics with a photo when `comFoto` reads as true. */
  predicate Listed(t: Topic, bairro: Option<string>, categoria: Option<string>, search: Option<string>,
                   periodo: Option<string>, comFoto: Option<string>, now: int)
  {
    Topics.IsActive(t) && t.deletedAt.None?
    && (!RequestFilled(bairro) || t.bairroId == bairro.value)
    && (CategoryFilter(categoria).None? || t.categoria == CategoryFilter(categoria).value)
    && (!RequestFilled(search) || SearchMatches(t, search.value))
    && (!RequestFilled(periodo) || Topics.InPeriod(t, periodo.value, now))
    && (!RequestBoolean(comFoto) || t.fotoUrl.Some?)
  }

  /** What a listed topic satisfies: it is Active and not deleted; a filled
      bairro (even "0") is its bairro; a filled search text occurs in its
      title or its text, ASCII case folded; it has a photo when `comFoto`
      is true. With no filter in force, exactly the live Active topics are
      listed. */
  lemma ListingFilters(t: Topic, bairro: Option<string>, categoria: Option<string>, search: Option<string>,
                       periodo: Option<string>, comFoto: Option<string>, now: int)
    ensures Listed(t, bairro, categoria, search, periodo, comFoto, now) ==>
      && Topics.IsActive(t) && t.deletedAt.None?
      && (RequestFilled(bairro) ==> t.bairroId == bairro.value)
      && (RequestFilled(search) ==>
            (exists i :: 0 <= i <= |t.titulo| && Lower(search.value) <= Lower(t.titulo)[i..])
            || (exists i :: 0 <= i <= |t.texto| && Lower(search.value) <= Lower(t.texto)[i..]))
      && (RequestFilled(periodo) ==> Topics.InPeriod(t, periodo.value, now))
      && (RequestBoolean(comFoto) ==> t.fotoUrl.Some?)
    ensures !RequestFilled(bairro) && CategoryFilter(categoria).None? && !RequestFilled(search)
            && !RequestFilled(periodo) && !RequestBoolean(comFoto) ==>
      (Listed(t, bairro, categoria, search, periodo, comFoto, now) <==> Topics.IsActive(t) && t.deletedAt.None?)
  {
    if RequestFilled(search) {
      InfixIff(Lower(search.value), Lower(t.titulo));
      InfixIff(Lower(search.value), Lower(t.texto));
    }
  }

  /** A `bairroId` of "0" is filled, so the listing keeps only topics of a
      bairro with that key, where PHP truthiness would have ignored it. */
  lemma ZeroBairroFilters(t: Topic, categoria: Option<string>, search: Option<string>,
                          periodo: Option<string>, comFoto: Option<string>, now: int)
    requires t.bairroId != "0"
    ensures !Listed(t, Some("0"), categoria, search, periodo, comFoto, now)
    ensures !Present(Some("0"))
  {
    assert Trim("0") == "0";
  }

  /** An unrecognised category lists exactly what no category lists. */
  lemma UnknownCategoryIgnored(t: Topic, bairro: Option<string>, c: string, search: Option<string>,
                               periodo: Option<string>, comFoto: Option<string>, now: int)
    requires Topics.CategoryFrom(c).None?
    ensures Listed(t, bairro, Some(c), search, periodo, comFoto, now)
            == Listed(t, bairro, None, search, periodo, comFoto, now)
  {
  }

  /** Stored topics start Active, unhidden counters at zero, `is_anon`
      false and no photo unless supplied; no other topic changes. */
  lemma StoreDefaults(b: Board, u: User, f: NewTopic, newId: string, now: int)
    ensures var (b', r) := Stored(b, u, f, newId, now);
      r.TopicCreated? && b'.topics[newId] == r.topic
      && r.topic.status == Topics.Active && r.topic.userId == u.id
      && r.topic.isAnon == (f.isAnon == Some(true)) && (f.fotoUrl.None? ==> r.topic.fotoUrl.None?)
      && r.topic.likesCount == 0 && r.topic.commentsCount == 0
      && (forall k :: k in b.topics && k != newId ==> k in b'.topics && b'.topics[k] == b.topics[k])
  {
  }

  /** The update mapping: a supplied titulo, texto or categoria replaces the
      field, a photo key sets the photo even to null, and every other field
      of the topic stays as it was. */
  lemma UpdateFieldRules(t: Topic, v: Request)
    ensures var t' := UpdatedTopic(t, v);
      t'.(titulo := t.titulo, texto := t.texto, categoria := t.categoria, fotoUrl := t.fotoUrl) == t
      && ("titulo" in v && v["titulo"].JStr? ==> t'.titulo == v["titulo"].s)
      && ("titulo" !in v ==> t'.titulo == t.titulo)
      && ("texto" in v && v["texto"].JStr? ==> t'.texto == v["texto"].s)
      && ("texto" !in v ==> t'.texto == t.texto)
      && ("categoria" !in v ==> t'.categoria == t.categoria)
      && ("fotoUrl" in v && v["fotoUrl"].JNull? ==> t'.fotoUrl.None?)
      && ("fotoUrl" !in v ==> t'.fotoUrl == t.fotoUrl)
  {
  }

  /** A late edit by the author is refused, and any refusal or validation
      failure leaves the board unchanged. */
  lemma UpdateGuards(b: Board, u: User, id: string, input: Request, now: int, isUrl: string -> bool)
    requires Bound(b, id)
    ensures !IsStaff(u) && now - b.topics[id].createdAt > 24 * HOUR ==> Updated(b, u, id, input, now, isUrl).1 == Forbidden
    ensures !Updated(b, u, id, input, now, isUrl).1.TopicUpdated? ==> Updated(b, u, id, input, now, isUrl).0 == b
  {
    TopicRequests.EditWindowErrorUnreachable(u, b.topics[id], input, now, isUrl);
  }

  /** Destroy needs the delete ability; it ends with the topic Deleted and
      soft-deleted, so it is no longer bound and no longer shown. */
  lemma DestroyEffect(b: Board, u: User, id: string, now: int, viewer: Option<User>)
    requires Bound(b, id)
    ensures Destroyed(b, u, id, now).1 == TopicRemoved <==> Policies.TopicDelete(u, b.topics[id])
    ensures Destroyed(b, u, id, now).1 == TopicRemoved ==>
      var b' := Destroyed(b, u, id, now).0;
      b'.topics[id].status == Topics.Deleted && !Bound(b', id) && Shown(b', viewer, id) == NotFound
  {
  }

  // ---------------------------------------------------------------
  // Likes and saves
  // ---------------------------------------------------------------

  /** `TopicLikeController::toggle`: flip the pivot row and move the counter
      with it; the answer is the new membership and the stored count. The
      like policy is not consulted. */
  function TopicLikeToggled(b: Board, u: User, id: string): (Board, Response)
  {
    if !Bound(b, id) then (b, NotFound)
    else
      var liked := (id, u.id) in b.topicLikes;
      var t := Topics.Bumped(b.topics[id], Topics.Likes, if liked then -1 else 1);
      (b.(topicLikes := Flipped(b.topicLikes, id, u.id), topics := b.topics[id := t]), LikeToggled(!liked, t.likesCount))
  }

  /** `SavedTopicController::toggle`: flip the pivot row, no counter. */
  function SaveToggled(b: Board, u: User, id: string): (Board, Response)
  {
    if !Bound(b, id) then (b, NotFound)
    else
      var saved := (id, u.id) in b.saves;
      (b.(saves := Flipped(b.saves, id, u.id)), SaveFlipped(!saved))
  }

  /** `CommentLikeController::toggle`. */
  function CommentLikeToggled(b: Board, u: User, id: string): (Board, Response)
  {
    if Comments.Find(b.comments, id).None? then (b, NotFound)
    else
      var liked := (id, u.id) in b.commentLikes;
      var c := Comments.LikesBumped(b.comments[id], if liked then -1 else 1);
      (b.(commentLikes := Flipped(b.commentLikes, id, u.id), comments := b.comments[id := c]), LikeToggled(!liked, c.likesCount))
  }

  /** `SavedTopicController::index`: the ids of the Active, undeleted topics
      the user saved. */
  function SavedIds(b: Board, u: User): (ids: set<string>)
    ensures forall id :: id in ids <==> Bound(b, id) && b.topics[id].status == Topics.Active && (id, u.id) in b.saves
  {
    set id | id in b.topics && b.topics[id].deletedAt.None? && b.topics[id].status == Topics.Active && (id, u.id) in b.saves
  }

  /** A like toggle flips the caller's membership, answers with it and with a
      count equal to the number of likers, and changes nothing else: no other
      user's like, no other topic, no comment. */
  lemma TopicLikeEffect(b: Board, u: User, id: string, v: string, other: string)
    requires WellFormed(b) && Bound(b, id)
    ensures var (b', r) := TopicLikeToggled(b, u, id);
      r.LikeToggled? && r.liked == ((id, u.id) in b'.topicLikes) == ((id, u.id) !in b.topicLikes)
      && r.likesCount == |Members(b'.topicLikes, id)| == b'.topics[id].likesCount
      && (v != u.id ==> ((id, v) in b'.topicLikes <==> (id, v) in b.topicLikes))
      && (other != id ==> Members(b'.topicLikes, other) == Members(b.topicLikes, other))
      && b'.comments == b.comments && b'.saves == b.saves && b'.topics.Keys == b.topics.Keys
  {
    MembersFlippedCount(b.topicLikes, id, u.id);
    MembersFlipped(b.topicLikes, id, u.id, other);
  }

  /** Two like toggles by the same user restore the board. */
  lemma TopicLikeTwice(b: Board, u: User, id: string)
    requires Bound(b, id)
    ensures TopicLikeToggled(TopicLikeToggled(b, u, id).0, u, id).0 == b
  {
    var b1 := TopicLikeToggled(b, u, id).0;
    assert Flipped(b1.topicLikes, id, u.id) == b.topicLikes;
    assert b1.topics[id := Topics.Bumped(b1.topics[id], Topics.Likes, if (id, u.id) in b1.topicLikes then -1 else 1)] == b.topics;
  }

  /** Two save toggles restore the board, and a save toggle touches only the
      caller's row of the saves pivot. */
  lemma SaveTwice(b: Board, u: User, id: string, v: string)
    requires Bound(b, id)
    ensures SaveToggled(SaveToggled(b, u, id).0, u, id).0 == b
    ensures var (b', r) := SaveToggled(b, u, id);
      r == SaveFlipped((id, u.id) in b'.saves) && b'.(saves := b.saves) == b
      && (v != u.id ==> ((id, v) in b'.saves <==> (id, v) in b.saves))
  {
    assert Flipped(Flipped(b.saves, id, u.id), id, u.id) == b.saves;
  }

  /** Two comment-like toggles restore the board; one flips the caller's
      membership and keeps the count equal to the number of likers. */
  lemma CommentLikeEffect(b: Board, u: User, id: string)
    requires WellFormed(b) && Comments.Find(b.comments, id).Some?
    ensures CommentLikeToggled(CommentLikeToggled(b, u, id).0, u, id).0 == b
    ensures var (b', r) := CommentLikeToggled(b, u, id);
      r.LikeToggled? && r.liked == ((id, u.id) !in b.commentLikes)
      && r.likesCount == |Members(b'.commentLikes, id)| == b'.comments[id].likesCount
      && b'.topics == b.topics
  {
    MembersFlippedCount(b.commentLikes, id, u.id);
    var b1 := CommentLikeToggled(b, u, id).0;
    assert Flipped(b1.commentLikes, id, u.id) == b.commentLikes;
    assert b1.comments[id := Comments.LikesBumped(b1.comments[id], if (id, u.id) in b1.commentLikes then -1 else 1)] == b.comments;
  }

  /** A like toggle keeps the board well formed; in particular the counter
      never drops below zero, since an unlike always has a like to remove. */
  lemma TopicLikeWellFormed(b: Board, u: User, id: string)
    requires WellFormed(b)
    ensures WellFormed(TopicLikeToggled(b, u, id).0)
    ensures Bound(b, id) && (id, u.id) in b.topicLikes ==> b.topics[id].likesCount >= 1
  {
    if Bound(b, id) {
      var b' := TopicLikeToggled(b, u, id).0;
      forall k | k in b'.topics
        ensures TopicRowOk(b', k)
      {
        TopicLikeTopicRow(b, u, id, k);
      }
      forall k | k in b'.comments
        ensures CommentRowOk(b', k)
      {
        TopicLikeCommentRow(b, u, id, k);
      }
      if (id, u.id) in b.topicLikes {
        MembersFlipped(b.topicLikes, id, u.id, id);
        assert TopicRowOk(b, id);
      }
    }
  }

  /** A topic like keeps every topic row's counter equal to its likers. */
  lemma TopicLikeTopicRow(b: Board, u: User, id: string, k: string)
    requires Bound(b, id) && k in b.topics && TopicRowOk(b, k) && TopicRowOk(b, id)
    ensures TopicRowOk(TopicLikeToggled(b, u, id).0, k)
  {
    MembersFlipped(b.topicLikes, id, u.id, k);
    MembersFlippedCount(b.topicLikes, id, u.id);
  }

  /** A topic like leaves every comment row as it was. */
  lemma TopicLikeCommentRow(b: Board, u: User, id: string, k: string)
    requires Bound(b, id) && k in b.comments && CommentRowOk(b, k)
    ensures CommentRowOk(TopicLikeToggled(b, u, id).0, k)
  {
  }

  lemma SaveWellFormed(b: Board, u: User, id: string)
    requires WellFormed(b)
    ensures WellFormed(SaveToggled(b, u, id).0)
  {
    if Bound(b, id) {
      var b' := SaveToggled(b, u, id).0;
      forall k | k in b'.topics
        ensures TopicRowOk(b', k)
      {
        assert TopicRowOk(b, k);
      }
      forall k | k in b'.comments
        ensures CommentRowOk(b', k)
      {
        assert CommentRowOk(b, k);
      }
    }
  }

  lemma CommentLikeWellFormed(b: Board, u: User, id: string)
    requires WellFormed(b)
    ensures WellFormed(CommentLikeToggled(b, u, id).0)
    ensures Comments.Find(b.comments, id).Some? && (id, u.id) in b.commentLikes ==> b.comments[id].likesCount >= 1
  {
    if Comments.Find(b.comments, id).Some? {
      var b' := CommentLikeToggled(b, u, id).0;
      forall k | k in b'.topics
        ensures TopicRowOk(b', k)
      {
        CommentLikeTopicRow(b, u, id, k);
      }
      forall k | k in b'.comments
        ensures CommentRowOk(b', k)
      {
        CommentLikeCommentRow(b, u, id, k);
      }
      if (id, u.id) in b.commentLikes {
        MembersFlipped(b.commentLikes, id, u.id, id);
        assert CommentRowOk(b, id);
      }
    }
  }

  /** A comment like leaves every topic row as it was. */
  lemma CommentLikeTopicRow(b: Board, u: User, id: string, k: string)
    requires Comments.Find(b.comments, id).Some? && k in b.topics && TopicRowOk(b, k)
    ensures TopicRowOk(CommentLikeToggled(b, u, id).0, k)
  {
    var b' := CommentLikeToggled(b, u, id).0;
    assert LiveComments(b'.comments, k) == LiveComments(b.comments, k);
  }

  /** A comment like keeps every comment row's counter equal to its likers. */
  lemma CommentLikeCommentRow(b: Board, u: User, id: string, k: string)
    requires Comments.Find(b.comments, id).Some? && k in b.comments && CommentRowOk(b, k)
    requires CommentRowOk(b, id)
    ensures CommentRowOk(CommentLikeToggled(b, u, id).0, k)
  {
    MembersFlipped(b.commentLikes, id, u.id, k);
    MembersFlippedCount(b.commentLikes, id, u.id);
  }

  // ---------------------------------------------------------------
  // CommentController
  // ---------------------------------------------------------------

  /** The validated fields of a new comment. */
  datatype NewComment = NewComment(texto: string, parentId: Option<string>, imageUrl: Option<string>, isAnon: Option<bool>)

  /** The `exists` rule on `parentId`: a row of `comments` of this topic,
      soft-deleted rows included, since the rule queries the table itself. */
  predicate ParentRuleOk(b: Board, topic: string, parentId: Option<string>)
  {
    parentId.None? || (parentId.value in b.comments && b.comments[parentId.value].topicId == topic)
  }

  /** The depth `store` computes: 0, or one more than a parent that `find`
      resolves, capped at MAX_DEPTH; a parent it does not resolve leaves 0. */
  function StoreDepth(b: Board, parentId: Option<string>): int
  {
    if !Present(parentId) then 0
    else match Comments.Find(b.comments, parentId.value)
      case Some(p) => Min(p.depth + 1, Comments.MAX_DEPTH)
      case None => 0
  }

  /** `store`: a new comment under a bound topic, whose comment count rises
      by one. `newId` is the fresh UUID. */
  function CommentStored(b: Board, u: User, topic: string, f: NewComment, newId: string, now: int): (Board, Response)
  {
    if !Bound(b, topic) then (b, NotFound)
    else if !ParentRuleOk(b, topic, f.parentId) then (b, Invalid({"parentId"}))
    else
      var c := Comments.Comment(newId, topic, u.id, f.parentId, f.texto, f.imageUrl, f.isAnon.GetOr(false),
                                StoreDepth(b, f.parentId), 0, now, None);
      (b.(comments := b.comments[newId := c],
          topics := b.topics[topic := Topics.Bumped(b.topics[topic], Topics.Comments, 1)]), CommentCreated(c))
  }

  /** `destroy`: the comment must belong to the topic (else 404 and nothing
      changes), the caller must pass the delete policy, then the comment is
      soft-deleted and the topic's count drops by one. */
  function CommentDestroyed(b: Board, u: User, topic: string, id: string, now: int): (Board, Response)
  {
    if !Bound(b, topic) || Comments.Find(b.comments, id).None? then (b, NotFound)
    else if b.comments[id].topicId != topic then (b, NotFound)
    else if !Policies.CommentDelete(u, b.comments[id]) then (b, Forbidden)
    else
      (b.(comments := b.comments[id := b.comments[id].(deletedAt := Some(now))],
          topics := b.topics[topic := Topics.Bumped(b.topics[topic], Topics.Comments, -1)]), CommentRemoved)
  }

  /** The depth of a stored comment: 0 without parent, the capped successor
      of a live parent's depth, and 0 for a parent that passed validation
      but is soft-deleted, where the model's `calculateDepth` would say 1. */
  lemma StoreDepthCases(b: Board, u: User, topic: string, f: NewComment, newId: string, now: int)
    requires WellFormed(b) && Bound(b, topic) && ParentRuleOk(b, topic, f.parentId)
    ensures var r := CommentStored(b, u, topic, f, newId, now).1;
      r.CommentCreated? && 0 <= r.comment.depth <= Comments.MAX_DEPTH
      && (f.parentId.None? ==> r.comment.depth == 0)
      && (Present(f.parentId) && b.comments[f.parentId.value].deletedAt.None? ==>
            r.comment.depth == Min(b.comments[f.parentId.value].depth + 1, Comments.MAX_DEPTH))
      && (Present(f.parentId) && b.comments[f.parentId.value].deletedAt.Some? ==>
            r.comment.depth == 0 && Comments.CalculateDepth(r.comment, b.comments) == 1)
  {
  }

  /** A parent outside the topic is refused, and a stored comment raises its
      topic's count by exactly one and changes no other topic. */
  lemma CommentStoreEffect(b: Board, u: User, topic: string, f: NewComment, newId: string, now: int)
    requires Bound(b, topic)
    ensures !ParentRuleOk(b, topic, f.parentId) ==> CommentStored(b, u, topic, f, newId, now) == (b, Invalid({"parentId"}))
    ensures ParentRuleOk(b, topic, f.parentId) ==>
      var b' := CommentStored(b, u, topic, f, newId, now).0;
      b'.topics[topic].commentsCount == b.topics[topic].commentsCount + 1
      && (forall k :: k in b.topics && k != topic ==> b'.topics[k] == b.topics[k])
      && b'.comments[newId].topicId == topic && b'.comments[newId].userId == u.id
  {
  }

  /** Destroying a comment of another topic is a 404 that changes nothing; a
      successful destroy lowers the count by exactly one and keeps the row. */
  lemma CommentDestroyEffect(b: Board, u: User, topic: string, id: string, now: int)
    requires Bound(b, topic) && Comments.Find(b.comments, id).Some?
    ensures b.comments[id].topicId != topic ==> CommentDestroyed(b, u, topic, id, now) == (b, NotFound)
    ensures CommentDestroyed(b, u, topic, id, now).1 == CommentRemoved ==>
      var b' := CommentDestroyed(b, u, topic, id, now).0;
      b'.topics[topic].commentsCount == b.topics[topic].commentsCount - 1
      && id in b'.comments && b'.comments[id].deletedAt == Some(now) && Comments.Find(b'.comments, id).None?
    ensures CommentDestroyed(b, u, topic, id, now).1 == Forbidden <==>
      b.comments[id].topicId == topic && u.id != b.comments[id].userId && !IsStaff(u)
  {
  }

  lemma LiveCommentsAdded(comments: map<string, Comment>, c: Comment, topic: string)
    requires c.id !in comments && c.deletedAt.None?
    ensures LiveComments(comments[c.id := c], c.topicId) == LiveComments(comments, c.topicId) + {c.id}
    ensures topic != c.topicId ==> LiveComments(comments[c.id := c], topic) == LiveComments(comments, topic)
  {
  }

  lemma LiveCommentsRemoved(comments: map<string, Comment>, id: string, now: int, topic: string)
    requires id in comments && comments[id].deletedAt.None?
    ensures LiveComments(comments[id := comments[id].(deletedAt := Some(now))], comments[id].topicId)
      == LiveComments(comments, comments[id].topicId) - {id}
    ensures topic != comments[id].topicId ==>
      LiveComments(comments[id := comments[id].(deletedAt := Some(now))], topic) == LiveComments(comments, topic)
  {
  }

  /** Storing a comment keeps the board well formed: the topic's count still
      equals its live comments, and the new comment has no likes and a depth
      in range. */
  lemma CommentStoreWellFormed(b: Board, u: User, topic: string, f: NewComment, newId: string, now: int)
    requires WellFormed(b) && newId !in b.comments
    ensures WellFormed(CommentStored(b, u, topic, f, newId, now).0)
  {
    if Bound(b, topic) && ParentRuleOk(b, topic, f.parentId) {
      var b' := CommentStored(b, u, topic, f, newId, now).0;
      assert TopicRowOk(b, topic);
      forall k | k in b'.topics
        ensures TopicRowOk(b', k)
      {
        CommentStoreTopicRow(b, u, topic, f, newId, now, k);
      }
      if Present(f.parentId) && Comments.Find(b.comments, f.parentId.value).Some? {
        assert CommentRowOk(b, f.parentId.value);
      }
      NoRowsNoMembers(b.commentLikes, newId);
      forall k | k in b'.comments
        ensures CommentRowOk(b', k)
      {
        if k != newId {
          CommentStoreCommentRow(b, u, topic, f, newId, now, k);
        }
      }
    }
  }

  /** Storing a comment keeps every topic's count equal to its live comments. */
  lemma CommentStoreTopicRow(b: Board, u: User, topic: string, f: NewComment, newId: string, now: int, k: string)
    requires newId !in b.comments && Bound(b, topic) && ParentRuleOk(b, topic, f.parentId)
    requires k in b.topics && TopicRowOk(b, k) && TopicRowOk(b, topic)
    ensures TopicRowOk(CommentStored(b, u, topic, f, newId, now).0, k)
  {
    var c := CommentStored(b, u, topic, f, newId, now).0.comments[newId];
    assert newId !in LiveComments(b.comments, topic);
    LiveCommentsAdded(b.comments, c, k);
  }

  /** Storing a comment leaves every other comment row as it was. */
  lemma CommentStoreCommentRow(b: Board, u: User, topic: string, f: NewComment, newId: string, now: int, k: string)
    requires newId !in b.comments && Bound(b, topic) && ParentRuleOk(b, topic, f.parentId)
    requires k in b.comments && CommentRowOk(b, k)
    ensures CommentRowOk(CommentStored(b, u, topic, f, newId, now).0, k)
  {
  }

  /** Destroying a comment keeps the board well formed; the count it lowers
      was at least one, so it never goes negative. */
  lemma CommentDestroyWellFormed(b: Board, u: User, topic: string, id: string, now: int)
    requires WellFormed(b)
    ensures WellFormed(CommentDestroyed(b, u, topic, id, now).0)
    ensures CommentDestroyed(b, u, topic, id, now).1 == CommentRemoved ==> b.topics[topic].commentsCount >= 1
  {
    if CommentDestroyed(b, u, topic, id, now).1 == CommentRemoved {
      var b' := CommentDestroyed(b, u, topic, id, now).0;
      assert id in LiveComments(b.comments, topic);
      assert TopicRowOk(b, topic);
      forall k | k in b'.topics
        ensures TopicRowOk(b', k)
      {
        CommentDestroyTopicRow(b, u, topic, id, now, k);
      }
      forall k | k in b'.comments
        ensures CommentRowOk(b', k)
      {
        CommentDestroyCommentRow(b, u, topic, id, now, k);
      }
    }
  }

  /** Destroying a comment keeps every topic's count equal to its live comments. */
  lemma CommentDestroyTopicRow(b: Board, u: User, topic: string, id: string, now: int, k: string)
    requires CommentDestroyed(b, u, topic, id, now).1 == CommentRemoved
    requires k in b.topics && TopicRowOk(b, k) && TopicRowOk(b, topic)
    ensures TopicRowOk(CommentDestroyed(b, u, topic, id, now).0, k)
  {
    assert id in LiveComments(b.comments, topic);
    LiveCommentsRemoved(b.comments, id, now, k);
  }

  /** Destroying a comment leaves every comment's own row well formed. */
  lemma CommentDestroyCommentRow(b: Board, u: User, topic: string, id: string, now: int, k: string)
    requires CommentDestroyed(b, u, topic, id, now).1 == CommentRemoved
    requires k in b.comments && CommentRowOk(b, k)
    ensures CommentRowOk(CommentDestroyed(b, u, topic, id, now).0, k)
  {
  }

  // ---------------------------------------------------------------
  // ReportController
  // ---------------------------------------------------------------

  /** A report on a target: 409 when this user already reported it, else one
      pending report appended. `found` says whether the target binds. */
  function Reported(rs: seq<Report>, found: bool, u: User, target: string, motivo: ReportMotivo,
                    descricao: Option<string>, newId: string): (seq<Report>, Response)
  {
    if !found then (rs, NotFound)
    else if HasReported(rs, u.id, target) then (rs, AlreadyReported)
    else (rs + [Report(newId, u.id, target, motivo, descricao, Pending)], ReportSent)
  }

  /** `reportTopic`. */
  function TopicReported(b: Board, u: User, topic: string, motivo: ReportMotivo, descricao: Option<string>, newId: string): (Board, Response)
  {
    var (rs, r) := Reported(b.topicReports, Bound(b, topic), u, topic, motivo, descricao, newId);
    (b.(topicReports := rs), r)
  }

  /** `reportComment`. */
  function CommentReported(b: Board, u: User, comment: string, motivo: ReportMotivo, descricao: Option<string>, newId: string): (Board, Response)
  {
    var (rs, r) := Reported(b.commentReports, Comments.Find(b.comments, comment).Some?, u, comment, motivo, descricao, newId);
    (b.(commentReports := rs), r)
  }

  /** A second report by the same user is a 409 and adds nothing; a first one
      adds exactly one pending report; either way at most one report per
      user and target remains. The report policy is not consulted, so an
      author may report their own topic. */
  lemma ReportOnce(rs: seq<Report>, u: User, target: string, motivo: ReportMotivo, descricao: Option<string>, newId: string)
    requires ReportsUnique(rs)
    ensures var (rs', r) := Reported(rs, true, u, target, motivo, descricao, newId);
      ReportsUnique(rs') && HasReported(rs', u.id, target)
      && (HasReported(rs, u.id, target) ==> r == AlreadyReported && rs' == rs)
      && (!HasReported(rs, u.id, target) ==> r == ReportSent && rs' == rs + [Report(newId, u.id, target, motivo, descricao, Pending)])
    ensures Reported(rs, false, u, target, motivo, descricao, newId) == (rs, NotFound)
  {
    var rs' := Reported(rs, true, u, target, motivo, descricao, newId).0;
    if !HasReported(rs, u.id, target) {
      assert rs'[|rs|].userId == u.id && rs'[|rs|].target == target;
    }
  }

  /** Reporting twice leaves one report and answers 409 the second time. */
  lemma ReportTwice(b: Board, u: User, topic: string, m1: ReportMotivo, m2: ReportMotivo, d1: Option<string>, d2: Option<string>, id1: string, id2: string)
    requires WellFormed(b) && Bound(b, topic)
    ensures var b1 := TopicReported(b, u, topic, m1, d1, id1).0;
      TopicReported(b1, u, topic, m2, d2, id2) == (b1, AlreadyReported)
  {
    ReportOnce(b.topicReports, u, topic, m1, d1, id1);
  }

  /** A stored topic starts with no likes and no comments, so the board
      stays well formed. */
  lemma StoreWellFormed(b: Board, u: User, f: NewTopic, newId: string, now: int)
    requires WellFormed(b) && newId !in b.topics
    ensures WellFormed(Stored(b, u, f, newId, now).0)
  {
    var b' := Stored(b, u, f, newId, now).0;
    NoRowsNoMembers(b.topicLikes, newId);
    forall k | k in b'.topics
      ensures TopicRowOk(b', k)
    {
      if k != newId {
        assert TopicRowOk(b, k);
      } else {
        assert LiveComments(b.comments, newId) == {} by {
          forall c | c in b.comments
            ensures b.comments[c].topicId != newId
          {
            assert CommentRowOk(b, c);
          }
        }
      }
    }
    forall k | k in b'.comments
      ensures CommentRowOk(b', k)
    {
      assert CommentRowOk(b, k);
    }
  }

  /** An update touches neither the id nor the counters of a topic. */
  lemma UpdateWellFormed(b: Board, u: User, id: string, input: Request, now: int, isUrl: string -> bool)
    requires WellFormed(b)
    ensures WellFormed(Updated(b, u, id, input, now, isUrl).0)
  {
    if Updated(b, u, id, input, now, isUrl).1.TopicUpdated? {
      var b' := Updated(b, u, id, input, now, isUrl).0;
      var v := TopicRequests.Resolved(u, b.topics[id], input, now, isUrl).data;
      assert b' == b.(topics := b.topics[id := UpdatedTopic(b.topics[id], v)]);
      UpdateFieldRules(b.topics[id], v);
      forall k | k in b'.topics
        ensures TopicRowOk(b', k)
      {
        assert TopicRowOk(b, k);
      }
      forall k | k in b'.comments
        ensures CommentRowOk(b', k)
      {
        assert CommentRowOk(b, k);
      }
    }
  }

  /** A destroyed topic keeps its row, so the board stays well formed. */
  lemma DestroyWellFormed(b: Board, u: User, id: string, now: int)
    requires WellFormed(b)
    ensures WellFormed(Destroyed(b, u, id, now).0)
  {
    if Destroyed(b, u, id, now).1 == TopicRemoved {
      var b' := Destroyed(b, u, id, now).0;
      forall k | k in b'.topics
        ensures TopicRowOk(b', k)
      {
        assert TopicRowOk(b, k);
      }
      forall k | k in b'.comments
        ensures CommentRowOk(b', k)
      {
        assert CommentRowOk(b, k);
      }
    }
  }

  /** Reports keep the board well formed: the pair stays unique. */
  lemma ReportsWellFormed(b: Board, u: User, target: string, motivo: ReportMotivo, descricao: Option<string>, newId: string)
    requires WellFormed(b)
    ensures WellFormed(TopicReported(b, u, target, motivo, descricao, newId).0)
    ensures WellFormed(CommentReported(b, u, target, motivo, descricao, newId).0)
  {
    ReportOnce(b.topicReports, u, target, motivo, descricao, newId);
    ReportOnce(b.commentReports, u, target, motivo, descricao, newId);
    var b1 := TopicReported(b, u, target, motivo, descricao, newId).0;
    var b2 := CommentReported(b, u, target, motivo, descricao, newId).0;
    forall k | k in b.topics
      ensures TopicRowOk(b1, k) && TopicRowOk(b2, k)
    {
      assert TopicRowOk(b, k);
    }
    forall k | k in b.comments
      ensures CommentRowOk(b1, k) && CommentRowOk(b2, k)
    {
      assert CommentRowOk(b, k);
    }
  }

  // ---------------------------------------------------------------
  // AdminForumController::hideTopic
  // ---------------------------------------------------------------

  /** `motivo`: `required|string|max:500`. */
  predicate MotivoOk(input: Request)
  {
    "motivo" in input && RegisterRequest.RequiredString(input["motivo"]) && |input["motivo"].s| <= 500
  }

  /** `hideTopic`: validation first (422), then the hide policy (403), then
      status Hidden. The reason goes only to the activity log. */
  function TopicHidden(b: Board, u: User, id: string, input: Request): (Board, Response)
  {
    if !Bound(b, id) then (b, NotFound)
    else if !MotivoOk(input) then (b, Invalid({"motivo"}))
    else if !Policies.TopicHide(u, b.topics[id]) then (b, Forbidden)
    else (b.(topics := b.topics[id := b.topics[id].(status := Topics.Hidden)]), TopicHiddenOk)
  }

  /** Hiding succeeds exactly for staff with a reason; a missing reason is a
      422 even for a member, since validation runs before authorisation; a
      hidden topic keeps every other field and disappears from `show` for
      everyone but staff. */
  lemma HideEffect(b: Board, u: User, id: string, input: Request, viewer: Option<User>)
    requires Bound(b, id)
    ensures TopicHidden(b, u, id, input).1 == TopicHiddenOk <==> MotivoOk(input) && IsStaff(u)
    ensures !MotivoOk(input) ==> TopicHidden(b, u, id, input) == (b, Invalid({"motivo"}))
    ensures MotivoOk(input) && !IsStaff(u) ==> TopicHidden(b, u, id, input) == (b, Forbidden)
    ensures TopicHidden(b, u, id, input).1 == TopicHiddenOk ==>
      var b' := TopicHidden(b, u, id, input).0;
      b'.topics[id].(status := b.topics[id].status) == b.topics[id]
      && (forall k :: k in b.topics && k != id ==> b'.topics[k] == b.topics[k])
      && ((viewer.None? || !IsStaff(viewer.value)) ==> Shown(b', viewer, id) == NotFound)
      && (viewer.Some? && IsStaff(viewer.value) ==> Shown(b', viewer, id).TopicShown?)
  {
  }

  lemma HideWellFormed(b: Board, u: User, id: string, input: Request)
    requires WellFormed(b)
    ensures WellFormed(TopicHidden(b, u, id, input).0)
  {
    if TopicHidden(b, u, id, input).1 == TopicHiddenOk {
      var b' := TopicHidden(b, u, id, input).0;
      forall k | k in b'.topics
        ensures TopicRowOk(b', k)
      {
        assert TopicRowOk(b, k);
      }
      forall k | k in b'.comments
        ensures CommentRowOk(b', k)
      {
        assert CommentRowOk(b, k);
      }
    }
  }

  // ---------------------------------------------------------------
  // The board, updated in place
  // ---------------------------------------------------------------

  class ForumBoard {
    var topics: map<string, Topic>
    var comments: map<string, Comment>
    var topicLikes: Pivot
    var saves: Pivot
    var commentLikes: Pivot
    var topicReports: seq<Report>
    var commentReports: seq<Report>

    function State(): Board
      reads this
    {
      Board(topics, comments, topicLikes, saves, commentLikes, topicReports, commentReports)
    }

    ghost predicate Valid()
      reads this
    {
      WellFormed(State())
    }

    constructor ()
      ensures State() == EMPTY_BOARD && Valid()
    {
      topics, comments := map[], map[];
      topicLikes, saves, commentLikes := {}, {}, {};
      topicReports, commentReports := [], [];
    }

    method Store(u: User, f: NewTopic, newId: string, now: int) returns (r: Response)
      requires Valid() && newId !in topics
      modifies this
      ensures Valid()
      ensures (State(), r) == Stored(old(State()), u, f, newId, now)
    {
      StoreWellFormed(State(), u, f, newId, now);
      var isAnon := if f.isAnon.Some? then f.isAnon.value else false;
      var t := Topics.Topic(newId, u.id, f.bairroId, f.titulo, f.texto, f.categoria, f.fotoUrl,
                            isAnon, 0, 0, Topics.Active, now, None);
      topics := topics[newId := t];
      r := TopicCreated(t);
    }

    /** Builds the update step by step, as `$updateData` is built. */
    method Update(u: User, id: string, input: Request, now: int, isUrl: string -> bool) returns (r: Response)
      requires Valid()
      modifies this
      ensures Valid()
      ensures (State(), r) == Updated(old(State()), u, id, input, now, isUrl)
    {
      UpdateWellFormed(State(), u, id, input, now, isUrl);
      r := WriteUpdate(u, id, input, now, isUrl);
    }

    /** The body of `update`, field by field. */
    method WriteUpdate(u: User, id: string, input: Request, now: int, isUrl: string -> bool) returns (r: Response)
      modifies this
      ensures (State(), r) == Updated(old(State()), u, id, input, now, isUrl)
    {
      if !Bound(State(), id) {
        return NotFound;
      }
      var outcome := TopicRequests.Resolved(u, topics[id], input, now, isUrl);
      if outcome.Forbidden? {
        return Forbidden;
      }
      if outcome.Invalid? {
        return Invalid(outcome.errors);
      }
      var v := outcome.data;
      var t := topics[id];
      if "titulo" in v && v["titulo"].JStr? {
        t := t.(titulo := v["titulo"].s);
      }
      if "texto" in v && v["texto"].JStr? {
        t := t.(texto := v["texto"].s);
      }
      if "categoria" in v && v["categoria"].JStr? {
        var c := Topics.CategoryFrom(v["categoria"].s);
        if c.Some? {
          t := t.(categoria := c.value);
        }
      }
      if "fotoUrl" in v {
        t := t.(fotoUrl := if v["fotoUrl"].JStr? then Some(v["fotoUrl"].s) else None);
      }
      topics := topics[id := t];
      r := TopicUpdated(t);
    }

    method Destroy(u: User, id: string, now: int) returns (r: Response)
      requires Valid()
      modifies this
      ensures Valid()
      ensures (State(), r) == Destroyed(old(State()), u, id, now)
    {
      DestroyWellFormed(State(), u, id, now);
      r := SoftDelete(u, id, now);
    }

    /** The body of `destroy` on a topic. */
    method SoftDelete(u: User, id: string, now: int) returns (r: Response)
      modifies this
      ensures (State(), r) == Destroyed(old(State()), u, id, now)
    {
      if !Bound(State(), id) {
        return NotFound;
      }
      if !Policies.TopicDelete(u, topics[id]) {
        return Forbidden;
      }
      topics := topics[id := topics[id].(status := Topics.Deleted, deletedAt := Some(now))];
      r := TopicRemoved;
    }

    method ToggleTopicLike(u: User, id: string) returns (r: Response)
      requires Valid()
      modifies this
      ensures Valid()
      ensures (State(), r) == TopicLikeToggled(old(State()), u, id)
    {
      TopicLikeWellFormed(State(), u, id);
      r := FlipTopicLike(u, id);
    }

    /** The body of `toggle` on a topic like, row by row. */
    method FlipTopicLike(u: User, id: string) returns (r: Response)
      modifies this
      ensures (State(), r) == TopicLikeToggled(old(State()), u, id)
    {
      if !Bound(State(), id) {
        return NotFound;
      }
      var liked := (id, u.id) in topicLikes;
      if liked {
        topicLikes := topicLikes - {(id, u.id)};
        topics := topics[id := Topics.Bumped(topics[id], Topics.Likes, -1)];
      } else {
        topicLikes := topicLikes + {(id, u.id)};
        topics := topics[id := Topics.Bumped(topics[id], Topics.Likes, 1)];
      }
      r := LikeToggled(!liked, topics[id].likesCount);
    }

    method ToggleSave(u: User, id: string) returns (r: Response)
      requires Valid()
      modifies this
      ensures Valid()
      ensures (State(), r) == SaveToggled(old(State()), u, id)
    {
      SaveWellFormed(State(), u, id);
      if !Bound(State(), id) {
        return NotFound;
      }
      var saved := (id, u.id) in saves;
      if saved {
        saves := saves - {(id, u.id)};
      } else {
        saves := saves + {(id, u.id)};
      }
      r := SaveFlipped(!saved);
    }

    method ToggleCommentLike(u: User, id: string) returns (r: Response)
      requires Valid()
      modifies this
      ensures Valid()
      ensures (State(), r) == CommentLikeToggled(old(State()), u, id)
    {
      CommentLikeWellFormed(State(), u, id);
      r := FlipCommentLike(u, id);
    }

    /** The body of `togglelike` on a comment, row by row. */
    method FlipCommentLike(u: User, id: string) returns (r: Response)
      modifies this
      ensures (State(), r) == CommentLikeToggled(old(State()), u, id)
    {
      if Comments.Find(comments, id).None? {
        return NotFound;
      }
      var liked := (id, u.id) in commentLikes;
      if liked {
        commentLikes := commentLikes - {(id, u.id)};
        comments := comments[id := Comments.LikesBumped(comments[id], -1)];
      } else {
        commentLikes := commentLikes + {(id, u.id)};
        comments := comments[id := Comments.LikesBumped(comments[id], 1)];
      }
      r := LikeToggled(!liked, comments[id].likesCount);
    }

    /** `store`: `$depth` starts at 0 and is raised only for a parent that
      resolves. */
    method StoreComment(u: User, topic: string, f: NewComment, newId: string, now: int) returns (r: Response)
      requires Valid() && newId !in comments
      modifies this
      ensures Valid()
      ensures (State(), r) == CommentStored(old(State()), u, topic, f, newId, now)
    {
      CommentStoreWellFormed(State(), u, topic, f, newId, now);
      r := InsertComment(u, topic, f, newId, now);
    }

    /** The body of `store` on a comment. */
    method InsertComment(u: User, topic: string, f: NewComment, newId: string, now: int) returns (r: Response)
      modifies this
      ensures (State(), r) == CommentStored(old(State()), u, topic, f, newId, now)
    {
      if !Bound(State(), topic) {
        return NotFound;
      }
      if !ParentRuleOk(State(), topic, f.parentId) {
        return Invalid({"parentId"});
      }
      var depth := 0;
      if Present(f.parentId) {
        var parent := Comments.Find(comments, f.parentId.value);
        if parent.Some? {
          depth := Min(parent.value.depth + 1, Comments.MAX_DEPTH);
        }
      }
      var isAnon := if f.isAnon.Some? then f.isAnon.value else false;
      var c := Comments.Comment(newId, topic, u.id, f.parentId, f.texto, f.imageUrl, isAnon, depth, 0, now, None);
      comments := comments[newId := c];
      topics := topics[topic := Topics.Bumped(topics[topic], Topics.Comments, 1)];
      r := CommentCreated(c);
    }

    method DestroyComment(u: User, topic: string, id: string, now: int) returns (r: Response)
      requires Valid()
      modifies this
      ensures Valid()
      ensures (State(), r) == CommentDestroyed(old(State()), u, topic, id, now)
    {
      CommentDestroyWellFormed(State(), u, topic, id, now);
      r := SoftDeleteComment(u, topic, id, now);
    }

    /** The body of `destroy` on a comment. */
    method SoftDeleteComment(u: User, topic: string, id: string, now: int) returns (r: Response)
      modifies this
      ensures (State(), r) == CommentDestroyed(old(State()), u, topic, id, now)
    {
      if !Bound(State(), topic) || Comments.Find(comments, id).None? {
        return NotFound;
      }
      if comments[id].topicId != topic {
        return NotFound;
      }
      if !Policies.CommentDelete(u, comments[id]) {
        return Forbidden;
      }
      comments := comments[id := comments[id].(deletedAt := Some(now))];
      topics := topics[topic := Topics.Bumped(topics[topic], Topics.Comments, -1)];
      r := CommentRemoved;
    }

    method ReportTopic(u: User, topic: string, motivo: ReportMotivo, descricao: Option<string>, newId: string) returns (r: Response)
      requires Valid()
      modifies this
      ensures Valid()
      ensures (State(), r) == TopicReported(old(State()), u, topic, motivo, descricao, newId)
    {
      ReportsWellFormed(State(), u, topic, motivo, descricao, newId);
      var (rs, res) := Reported(topicReports, Bound(State(), topic), u, topic, motivo, descricao, newId);
      topicReports := rs;
      r := res;
    }

    method ReportComment(u: User, comment: string, motivo: ReportMotivo, descricao: Option<string>, newId: string) returns (r: Response)
      requires Valid()
      modifies this
      ensures Valid()
      ensures (State(), r) == CommentReported(old(State()), u, comment, motivo, descricao, newId)
    {
      ReportsWellFormed(State(), u, comment, motivo, descricao, newId);
      var (rs, res) := Reported(commentReports, Comments.Find(comments, comment).Some?, u, comment, motivo, descricao, newId);
      commentReports := rs;
      r := res;
    }

    method HideTopic(u: User, id: string, input: Request) returns (r: Response)
      requires Valid()
      modifies this
      ensures Valid()
      ensures (State(), r) == TopicHidden(old(State()), u, id, input)
    {
      HideWellFormed(State(), u, id, input);
      r := WriteHidden(u, id, input);
    }

    /** The body of `hideTopic`. */
    method WriteHidden(u: User, id: string, input: Request) returns (r: Response)
      modifies this
      ensures (State(), r) == TopicHidden(old(State()), u, id, input)
    {
      if !Bound(State(), id) {
        return NotFound;
      }
      if !MotivoOk(input) {
        return Invalid({"motivo"});
      }
      if !Policies.TopicHide(u, topics[id]) {
        return Forbidden;
      }
      topics := topics[id := topics[id].(status := Topics.Hidden)];
      r := TopicHiddenOk;
    }
  }
}
