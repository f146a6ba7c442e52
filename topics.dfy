/** A forum topic: its status and category enums, the edit window, the
    hot-score ordering, the period filter and the counters the Topic model
    increments and decrements in place. */
module Topics {
  import opened Common

  datatype TopicStatus = Active | Hidden | Deleted

  function StatusValue(s: TopicStatus): string
  {
    match s
    case Active => "active"
    case Hidden => "hidden"
    case Deleted => "deleted"
  }

  datatype TopicCategory = Reclamacao | Sugestao | Duvida | Alerta | Elogio | Outros

  /** The stored value of a category. */
  function CategoryValue(c: TopicCategory): string
  {
    match c
    case Reclamacao => "reclamacao"
    case Sugestao => "sugestao"
    case Duvida => "duvida"
    case Alerta => "alerta"
    case Elogio => "elogio"
    case Outros => "outros"
  }

  /** `TopicCategory::tryFrom`: the category stored as `s`, if any. */
  function CategoryFrom(s: string): (c: Option<TopicCategory>)
    ensures c.Some? ==> CategoryValue(c.value) == s
    ensures c.None? ==> forall k :: CategoryValue(k) != s
  {
    if s == "reclamacao" then Some(Reclamacao)
    else if s == "sugestao" then Some(Sugestao)
    else if s == "duvida" then Some(Duvida)
    else if s == "alerta" then Some(Alerta)
    else if s == "elogio" then Some(Elogio)
    else if s == "outros" then Some(Outros)
    else None
  }

  /** Every category is read back from its stored value. */
  lemma CategoryRoundTrip(c: TopicCategory)
    ensures CategoryFrom(CategoryValue(c)) == Some(c)
  {
  }

  /** A row of `topics`. The counters are unsigned columns. */
  datatype Topic = Topic(
    id: string,
    userId: string,
    bairroId: string,
    titulo: string,
    texto: string,
    categoria: TopicCategory,
    fotoUrl: Option<string>,
    isAnon: bool,
    likesCount: int,
    commentsCount: int,
    status: TopicStatus,
    createdAt: int,
    deletedAt: Option<int>)

  /** `scopeActive`. */
  predicate IsActive(t: Topic)
  {
    t.status == Active
  }

  /** `isEditableByAuthor`: the hours since creation, as the fractional and
      signed difference Carbon 3 returns, are at most 24. */
  predicate IsEditableByAuthor(t: Topic, now: int)
  {
    (now - t.createdAt) as real / 3600.0 <= 24.0
  }

  /** The edit window is the first 86400 seconds after creation, boundary
      included; a creation time in the future is always inside it. */
  lemma EditWindow(t: Topic, now: int)
    ensures IsEditableByAuthor(t, now) <==> now - t.createdAt <= 24 * HOUR
    ensures now <= t.createdAt ==> IsEditableByAuthor(t, now)
  {
  }

  /** Integer division truncating toward zero, as MySQL's TIMESTAMPDIFF
      counts whole units. */
  function TruncDiv(a: int, b: int): (q: int)
    requires b > 0
    ensures a >= 0 ==> q >= 0 && q * b <= a < q * b + b
    ensures a < 0 ==> q <= 0 && a <= q * b < a + b
  {
    if a >= 0 then a / b else -((-a) / b)
  }

  /** `TIMESTAMPDIFF(HOUR, created_at, NOW())`. */
  function HoursSince(t: Topic, now: int): int
  {
    TruncDiv(now - t.createdAt, HOUR)
  }

  /** `GREATEST(0, 100 - TIMESTAMPDIFF(HOUR, created_at, NOW()))`. */
  function RecencyBonus(t: Topic, now: int): int
  {
    Max(0, 100 - HoursSince(t, now))
  }

  /** The hot-score ordering key: two points a like, three a comment, plus
      the recency bonus. */
  function HotScore(t: Topic, now: int): int
  {
    2 * t.likesCount + 3 * t.commentsCount + RecencyBonus(t, now)
  }

  /** For a topic created no later than now the bonus lies in [0, 100]: it is
      100 during the first hour and 0 from the hundredth hour on. */
  lemma RecencyBonusBounds(t: Topic, now: int)
    requires t.createdAt <= now
    ensures 0 <= RecencyBonus(t, now) <= 100
    ensures RecencyBonus(t, now) == 100 <==> now - t.createdAt < HOUR
    ensures RecencyBonus(t, now) == 0 <==> now - t.createdAt >= 100 * HOUR
  {
  }

  /** A creation time more than an hour in the future yields a bonus above
      100: the bound needs `created_at <= NOW()`. */
  lemma FutureTopicExceedsBonus(t: Topic, now: int)
    requires t.createdAt > now + HOUR
    ensures RecencyBonus(t, now) > 100
  {
  }

  /** Of two topics, the older one never has the larger bonus. */
  lemma RecencyBonusDecays(t: Topic, u: Topic, now: int)
    requires t.createdAt <= u.createdAt
    ensures RecencyBonus(t, now) <= RecencyBonus(u, now)
  {
    var a, b := now - t.createdAt, now - u.createdAt;
    var qa, qb := TruncDiv(a, HOUR), TruncDiv(b, HOUR);
    assert qb <= qa;
  }

  /** The score rises by exactly two per like and three per comment, so it
      is monotone in both counters. */
  lemma HotScoreCounters(t: Topic, now: int, likes: int, comments: int)
    ensures HotScore(t.(likesCount := t.likesCount + likes, commentsCount := t.commentsCount + comments), now)
      == HotScore(t, now) + 2 * likes + 3 * comments
    ensures likes >= 0 && comments >= 0 ==>
      HotScore(t.(likesCount := t.likesCount + likes, commentsCount := t.commentsCount + comments), now) >= HotScore(t, now)
  {
  }

  /** `scopeInPeriod`: 'hoje' keeps topics created on today's date (days
      counted from the epoch), '7dias' and '30dias' those created at most 7
      or 30 days ago, and any other value filters nothing. */
  predicate InPeriod(t: Topic, periodo: string, now: int)
  {
    if periodo == "hoje" then t.createdAt / DAY == now / DAY
    else if periodo == "7dias" then t.createdAt >= now - 7 * DAY
    else if periodo == "30dias" then t.createdAt >= now - 30 * DAY
    else true
  }

  /** The periods nest: today's topics are within the last 7 days, and those
      within the last 30. */
  lemma {:induction false} PeriodsNest(t: Topic, now: int)
    ensures InPeriod(t, "hoje", now) ==> InPeriod(t, "7dias", now)
    ensures InPeriod(t, "7dias", now) ==> InPeriod(t, "30dias", now)
  {
    assert "hoje"[0] != "7dias"[0] && "hoje"[0] != "30dias"[0] && "7dias"[0] != "30dias"[0];
    if t.createdAt / DAY == now / DAY {
      var d := now / DAY;
      assert d * DAY <= t.createdAt by { DivFloor(t.createdAt, DAY); }
      assert now < d * DAY + DAY by { DivFloor(now, DAY); }
    }
  }

  lemma DivFloor(x: int, d: int)
    requires d > 0
    ensures (x / d) * d <= x < (x / d) * d + d
  {
  }

  /** An unknown period filters nothing. */
  lemma UnknownPeriodKeepsAll(t: Topic, periodo: string, now: int)
    requires periodo != "hoje" && periodo != "7dias" && periodo != "30dias"
    ensures InPeriod(t, periodo, now)
  {
  }

  /** The counters of a topic. */
  datatype Counter = Likes | Comments

  /** `increment`/`decrement` of one counter by `delta`; no other field
      changes. */
  function Bumped(t: Topic, c: Counter, delta: int): (t': Topic)
    ensures c == Likes ==> t'.likesCount == t.likesCount + delta && t'.commentsCount == t.commentsCount
    ensures c == Comments ==> t'.commentsCount == t.commentsCount + delta && t'.likesCount == t.likesCount
    ensures t'.(likesCount := t.likesCount, commentsCount := t.commentsCount) == t
  {
    match c
    case Likes => t.(likesCount := t.likesCount + delta)
    case Comments => t.(commentsCount := t.commentsCount + delta)
  }

  /** An increment followed by a decrement of the same counter restores the
      topic. */
  lemma BumpUndone(t: Topic, c: Counter)
    ensures Bumped(Bumped(t, c, 1), c, -1) == t
    ensures Bumped(Bumped(t, c, -1), c, 1) == t
  {
  }

  /** One topic row, with the counter updates of the Topic model. */
  class TopicRecord {
    var row: Topic

    constructor (t: Topic)
      ensures row == t
    {
      row := t;
    }

    method IncrementLikes()
      modifies this
      ensures row == Bumped(old(row), Likes, 1)
    {
      row := row.(likesCount := row.likesCount + 1);
    }

    method DecrementLikes()
      modifies this
      ensures row == Bumped(old(row), Likes, -1)
    {
      row := row.(likesCount := row.likesCount - 1);
    }

    method IncrementComments()
      modifies this
      ensures row == Bumped(old(row), Comments, 1)
    {
      row := row.(commentsCount := row.commentsCount + 1);
    }

    method DecrementComments()
      modifies this
      ensures row == Bumped(old(row), Comments, -1)
    {
      row := row.(commentsCount := row.commentsCount - 1);
    }
  }
}
