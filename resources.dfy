/** The JSON shapes of topics and comments: the viewer-dependent `liked` and
    `isSaved` flags, the author block that anonymity masks, and the text of a
    removed comment. */
module Resources {
  import opened Common
  import opened Users
  import Topics
  import Comments

  const ANONYMOUS_NAME: string := "Anônimo"
  const FALLBACK_NAME: string := "Usuário"
  const REMOVED_TEXT: string := "Comentário removido"

  /** The `autor` block: id, name and avatar. */
  datatype Autor = Autor(id: Option<string>, nome: string, avatarUrl: Option<string>)

  const ANONYMOUS_AUTOR: Autor := Autor(None, ANONYMOUS_NAME, None)

  /** The author's own row, when it still exists, with its avatar. */
  datatype Author = Author(user: User, avatarUrl: Option<string>)

  /** Who may see through anonymity: the author and staff. */
  predicate CanSeeAuthor(viewer: Option<User>, ownerId: string)
  {
    viewer.Some? && (viewer.value.id == ownerId || IsStaff(viewer.value))
  }

  /** `getAutor`, shared by both resources. */
  function AutorOf(viewer: Option<User>, ownerId: string, isAnon: bool, author: Option<Author>): (a: Autor)
    ensures isAnon && !CanSeeAuthor(viewer, ownerId) ==> a == ANONYMOUS_AUTOR
  {
    if isAnon && !CanSeeAuthor(viewer, ownerId) then ANONYMOUS_AUTOR
    else match author
      case None => Autor(None, FALLBACK_NAME, None)
      case Some(w) => Autor(Some(w.user.id), w.user.nome.GetOr(FALLBACK_NAME), w.avatarUrl)
  }

  /** Masking hides the author completely: a masked block is the same
      whoever wrote the content. A block that is not masked carries the
      author's id and avatar, with the name falling back to 'Usuário'. */
  lemma AutorMasking(viewer: Option<User>, ownerId: string, isAnon: bool, author: Option<Author>, other: Option<Author>)
    ensures isAnon && !CanSeeAuthor(viewer, ownerId) ==> AutorOf(viewer, ownerId, isAnon, author) == AutorOf(viewer, ownerId, isAnon, other)
    ensures (!isAnon || CanSeeAuthor(viewer, ownerId)) && author.Some? ==>
      var a := AutorOf(viewer, ownerId, isAnon, author);
      a.id == Some(author.value.user.id) && a.avatarUrl == author.value.avatarUrl
      && (author.value.user.nome.None? ==> a.nome == FALLBACK_NAME)
      && (author.value.user.nome.Some? ==> a.nome == author.value.user.nome.value)
    ensures (!isAnon || CanSeeAuthor(viewer, ownerId)) && author.None? ==> AutorOf(viewer, ownerId, isAnon, author) == Autor(None, FALLBACK_NAME, None)
  {
  }

  /** Guests and other members never see who wrote anonymous content, while
      the author and staff always do; content that is not anonymous shows its
      author to everyone. */
  lemma WhoSeesTheAuthor(viewer: Option<User>, ownerId: string, isAnon: bool, author: Option<Author>)
    requires author.Some? && author.value.user.id == ownerId
    ensures viewer.None? && isAnon ==> AutorOf(viewer, ownerId, isAnon, author).id.None?
    ensures viewer.Some? && !IsStaff(viewer.value) && viewer.value.id != ownerId && isAnon ==>
      AutorOf(viewer, ownerId, isAnon, author).id.None?
    ensures CanSeeAuthor(viewer, ownerId) || !isAnon ==> AutorOf(viewer, ownerId, isAnon, author).id == Some(ownerId)
  {
  }

  /** The topic's JSON, with the fields the viewer changes. */
  datatype TopicJson = TopicJson(
    id: string, titulo: string, texto: string, categoria: string, categoriaLabel: string, categoriaColor: string,
    bairroId: string, isAnon: bool, fotoUrl: Option<string>, likesCount: int, commentsCount: int, status: string,
    liked: bool, isSaved: bool, autor: Autor)

  /** `TopicCategory::label`. */
  function CategoryLabel(c: Topics.TopicCategory): string
  {
    match c
    case Reclamacao => "Reclamação"
    case Sugestao => "Sugestão"
    case Duvida => "Dúvida"
    case Alerta => "Alerta"
    case Elogio => "Elogio"
    case Outros => "Outros"
  }

  /** `TopicCategory::color`. */
  function CategoryColor(c: Topics.TopicCategory): string
  {
    match c
    case Reclamacao => "#EF4444"
    case Sugestao => "#3B82F6"
    case Duvida => "#8B5CF6"
    case Alerta => "#F97316"
    case Elogio => "#22C55E"
    case Outros => "#6B7280"
  }

  /** `TopicResource::toArray`; `liked` and `saved` are the viewer's pivot
      rows, read only when there is a viewer. */
  function TopicView(t: Topics.Topic, viewer: Option<User>, liked: bool, saved: bool, author: Option<Author>): (j: TopicJson)
    ensures viewer.None? ==> !j.liked && !j.isSaved
    ensures viewer.Some? ==> j.liked == liked && j.isSaved == saved
    ensures j.autor == AutorOf(viewer, t.userId, t.isAnon, author)
  {
    TopicJson(t.id, t.titulo, t.texto, Topics.CategoryValue(t.categoria), CategoryLabel(t.categoria), CategoryColor(t.categoria),
              t.bairroId, t.isAnon, t.fotoUrl, t.likesCount, t.commentsCount, Topics.StatusValue(t.status),
              viewer.Some? && liked, viewer.Some? && saved, AutorOf(viewer, t.userId, t.isAnon, author))
  }

  /** The comment's JSON. */
  datatype CommentJson = CommentJson(
    id: string, topicId: string, parentId: Option<string>, texto: string, imageUrl: Option<string>,
    isAnon: bool, likesCount: int, depth: int, liked: bool, autor: Autor)

  /** `CommentResource::toArray`: a removed comment keeps its place in the
      thread but shows a fixed text and no image. */
  function CommentView(c: Comments.Comment, viewer: Option<User>, liked: bool, author: Option<Author>): (j: CommentJson)
    ensures viewer.None? ==> !j.liked
    ensures viewer.Some? ==> j.liked == liked
    ensures c.deletedAt.Some? ==> j.texto == REMOVED_TEXT && j.imageUrl.None?
    ensures c.deletedAt.None? ==> j.texto == c.texto && j.imageUrl == c.imageUrl
    ensures j.autor == AutorOf(viewer, c.userId, c.isAnon, author)
  {
    CommentJson(c.id, c.topicId, c.parentId,
                if c.deletedAt.Some? then REMOVED_TEXT else c.texto,
                if c.deletedAt.Some? then None else c.imageUrl,
                c.isAnon, c.likesCount, c.depth, viewer.Some? && liked, AutorOf(viewer, c.userId, c.isAnon, author))
  }

  /** What a removed comment shows does not depend on what it said: two
      removed comments that differ only in text and image look the same. The
      author block is still shown, masked only by anonymity. */
  lemma RemovedCommentHidesContent(c: Comments.Comment, texto: string, image: Option<string>, viewer: Option<User>, liked: bool, author: Option<Author>)
    requires c.deletedAt.Some?
    ensures CommentView(c, viewer, liked, author) == CommentView(c.(texto := texto, imageUrl := image), viewer, liked, author)
    ensures !c.isAnon && author.Some? ==> CommentView(c, viewer, liked, author).autor.id == Some(author.value.user.id)
  {
  }

  /** The anonymous topic's JSON is the same for a guest whoever wrote it. */
  lemma AnonymousTopicHidesAuthor(t: Topics.Topic, a1: Option<Author>, a2: Option<Author>, liked: bool, saved: bool)
    requires t.isAnon
    ensures TopicView(t, None, liked, saved, a1) == TopicView(t, None, liked, saved, a2)
  {
  }
}
