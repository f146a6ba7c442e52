/** A forum comment: replies nest at most two levels deep, a soft-deleted
    comment stays in the table, and the like counter is updated in place. */
module Comments {
  import opened Common

  /** `Comment::MAX_DEPTH`. */
  const MAX_DEPTH: int := 2

  /** A row of `comments`. */
  datatype Comment = Comment(
    id: string,
    topicId: string,
    userId: string,
    parentId: Option<string>,
    texto: string,
    imageUrl: Option<string>,
    isAnon: bool,
    depth: int,
    likesCount: int,
    createdAt: int,
    deletedAt: Option<int>)

  /** `Comment::find($id)` and the `parent` relation: the row with this id,
      unless it is soft-deleted. */
  function Find(rows: map<string, Comment>, id: string): (c: Option<Comment>)
    ensures c.Some? <==> id in rows && rows[id].deletedAt.None?
    ensures c.Some? ==> c.value == rows[id]
  {
    if id in rows && rows[id].deletedAt.None? then Some(rows[id]) else None
  }

  /** `calculateDepth`: 0 without a (truthy) parent id, otherwise one more
      than the parent's depth, capped at MAX_DEPTH; a parent that does not
      resolve counts as depth 0. */
  function CalculateDepth(c: Comment, rows: map<string, Comment>): int
  {
    if !Present(c.parentId) then 0
    else
      var parentDepth := match Find(rows, c.parentId.value)
        case Some(p) => p.depth
        case None => 0;
      Min(parentDepth + 1, MAX_DEPTH)
  }

  /** Every stored depth lies in [0, MAX_DEPTH]. */
  predicate DepthsInRange(rows: map<string, Comment>)
  {
    forall id :: id in rows ==> 0 <= rows[id].depth <= MAX_DEPTH
  }

  /** The cases of `calculateDepth`: no parent gives 0, an unresolved parent
      gives 1, a resolved one its depth plus one up to 2; with stored depths in
      range the result is in range too. */
  lemma DepthCases(c: Comment, rows: map<string, Comment>)
    ensures !Present(c.parentId) ==> CalculateDepth(c, rows) == 0
    ensures Present(c.parentId) && Find(rows, c.parentId.value).None? ==> CalculateDepth(c, rows) == 1
    ensures Present(c.parentId) && Find(rows, c.parentId.value).Some? ==>
      CalculateDepth(c, rows) == Min(rows[c.parentId.value].depth + 1, MAX_DEPTH)
    ensures DepthsInRange(rows) ==> 0 <= CalculateDepth(c, rows) <= MAX_DEPTH
  {
  }

  /** A reply to a comment at the maximum depth stays at the maximum depth. */
  lemma DeepRepliesStayAtMax(c: Comment, rows: map<string, Comment>)
    requires Present(c.parentId) && c.parentId.value in rows
    requires rows[c.parentId.value].deletedAt.None? && rows[c.parentId.value].depth == MAX_DEPTH
    ensures CalculateDepth(c, rows) == MAX_DEPTH
  {
  }

  /** `scopeRoot`: no parent id at all. */
  predicate IsRoot(c: Comment)
  {
    c.parentId.None?
  }

  /** `increment`/`decrement` of `likes_count` by `delta`; nothing else
      changes. */
  function LikesBumped(c: Comment, delta: int): (c': Comment)
    ensures c'.likesCount == c.likesCount + delta
    ensures c'.(likesCount := c.likesCount) == c
  {
    c.(likesCount := c.likesCount + delta)
  }

  /** One comment row, with the like-counter updates of the Comment model. */
  class CommentRecord {
    var row: Comment

    constructor (c: Comment)
      ensures row == c
    {
      row := c;
    }

    method IncrementLikes()
      modifies this
      ensures row == LikesBumped(old(row), 1)
    {
      row := row.(likesCount := row.likesCount + 1);
    }

    method DecrementLikes()
      modifies this
      ensures row == LikesBumped(old(row), -1)
    {
      row := row.(likesCount := row.likesCount - 1);
    }
  }
}
