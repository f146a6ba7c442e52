/** Personal access tokens and the refresh-token rotation of the auth
    controller (`refresh` and `logout`).

    The token store maps a token id to its owner, name, abilities, secret and
    optional expiry; a plaintext handed to a client is "id|secret", modelled as
    `Plaintext(id, secret)` (the stored hash is taken to be injective, so a
    lookup is an id lookup plus a secret comparison). The grace cache keys a
    rotation's response by the presented plaintext (standing for its md5) for
    20 seconds; the locks map a token id to the owner and expiry of the
    `refresh_lock:<id>` cache lock.

    A refresh is split into its three phases so that two requests can be
    interleaved: `Begin` (grace check, token checks, lock attempt), then either
    `Rotate` (the lock holder) or `AfterWait` (a request that found the lock
    taken re-reads the grace cache one second later). `Refresh` runs them in
    sequence, as one request does. */
module Sessions {
  import opened Common

  type UserId = string

  const WILDCARD: string := "*"
  const REFRESH_ABILITY: string := "refresh"
  const ACCESS_NAME: string := "app"
  const REFRESH_NAME: string := "refresh"
  /** Refresh tokens live 30 days. */
  const REFRESH_LIFETIME: int := 30 * DAY
  /** A rotation's response is replayed for 20 seconds. */
  const GRACE_SECONDS: int := 20
  /** The rotation lock expires after 5 seconds. */
  const LOCK_SECONDS: int := 5
  /** A request that finds the lock taken sleeps one second. */
  const WAIT_SECONDS: int := 1

  datatype Plaintext = Plaintext(id: nat, secret: string)

  datatype Token = Token(
    user: UserId,
    name: string,
    abilities: set<string>,
    secret: string,
    expiresAt: Option<int>)

  /** The JSON body a rotation returns and the grace cache replays. */
  datatype TokenPair = TokenPair(token: Plaintext, refreshToken: Plaintext, expiresIn: int)

  datatype GraceEntry = GraceEntry(response: TokenPair, expiresAt: int)

  datatype Lock = Lock(owner: nat, expiresAt: int)

  datatype SessionState = SessionState(
    tokens: map<nat, Token>,
    nextId: nat,
    grace: map<Plaintext, GraceEntry>,
    locks: map<nat, Lock>)

  /** 200 with a token pair; 401 INVALID_REFRESH_TOKEN; 429 "Tente novamente". */
  datatype RefreshResponse = Issued(pair: TokenPair) | InvalidRefreshToken | TryAgain

  /** Where the first phase of a refresh left the request. */
  datatype Phase = Answered(response: RefreshResponse) | Acquired(id: nat, user: UserId) | Contended(id: nat)

  /** Token ids are issued from a counter and never reused. */
  predicate WellFormed(s: SessionState)
  {
    forall id :: id in s.tokens ==> id < s.nextId
  }

  // ---------------------------------------------------------------------
  // Token store
  // ---------------------------------------------------------------------

  /** Sanctum's `can`: the wildcard grants every ability. */
  predicate Can(t: Token, ability: string)
  {
    WILDCARD in t.abilities || ability in t.abilities
  }

  /** `expires_at?->isPast()`: a token without expiry never lapses. */
  predicate IsPast(expiresAt: Option<int>, now: int)
  {
    expiresAt.Some? && expiresAt.value < now
  }

  /** `PersonalAccessToken::findToken` on an "id|secret" plaintext. */
  function FindToken(tokens: map<nat, Token>, p: Plaintext): (r: Option<nat>)
    ensures r.Some? <==> p.id in tokens && tokens[p.id].secret == p.secret
    ensures r.Some? ==> r.value == p.id
  {
    if p.id in tokens && tokens[p.id].secret == p.secret then Some(p.id) else None
  }

  /** `createToken($name, $abilities, $expiresAt)`: a new row under the next id. */
  function TokenCreated(s: SessionState, user: UserId, name: string, abilities: set<string>,
                       expiresAt: Option<int>, secret: string): (SessionState, Plaintext)
  {
    var t := Token(user, name, abilities, secret, expiresAt);
    (s.(tokens := s.tokens[s.nextId := t], nextId := s.nextId + 1), Plaintext(s.nextId, secret))
  }

  /** The access/refresh pair every login path mints. */
  function MintPair(s: SessionState, user: UserId, accessExpiry: Option<int>, now: int,
                    accessSecret: string, refreshSecret: string): (SessionState, Plaintext, Plaintext)
  {
    var (s1, access) := TokenCreated(s, user, ACCESS_NAME, {WILDCARD}, accessExpiry, accessSecret);
    var (s2, refresh) := TokenCreated(s1, user, REFRESH_NAME, {REFRESH_ABILITY}, Some(now + REFRESH_LIFETIME), refreshSecret);
    (s2, access, refresh)
  }

  // ---------------------------------------------------------------------
  // Cache: grace entries and locks
  // ---------------------------------------------------------------------

  /** `Cache::get('refresh_grace:' . md5($plain))` while the entry is alive. */
  function GraceLookup(s: SessionState, p: Plaintext, now: int): Option<TokenPair>
  {
    if p in s.grace && now < s.grace[p].expiresAt then Some(s.grace[p].response) else None
  }

  /** A lock can be taken when no live lock sits under its name. */
  predicate LockFree(s: SessionState, id: nat, now: int)
  {
    id !in s.locks || s.locks[id].expiresAt <= now
  }

  /** `$lock->release()`: deletes the lock only when this owner holds it. */
  function Release(s: SessionState, id: nat, owner: nat): SessionState
  {
    if id in s.locks && s.locks[id].owner == owner then s.(locks := s.locks - {id}) else s
  }

  // ---------------------------------------------------------------------
  // The phases of a refresh
  // ---------------------------------------------------------------------

  /** Steps 1 to 3: replay a live grace entry; reject an unknown, non-refresh
      or lapsed token; otherwise try to take the token's lock. */
  function Begin(s: SessionState, p: Plaintext, now: int, owner: nat): (SessionState, Phase)
  {
    match GraceLookup(s, p, now)
    case Some(pair) => (s, Answered(Issued(pair)))
    case None =>
      match FindToken(s.tokens, p)
      case None => (s, Answered(InvalidRefreshToken))
      case Some(id) =>
        var tok := s.tokens[id];
        if !Can(tok, REFRESH_ABILITY) || IsPast(tok.expiresAt, now) then (s, Answered(InvalidRefreshToken))
        else if LockFree(s, id, now) then (s.(locks := s.locks[id := Lock(owner, now + LOCK_SECONDS)]), Acquired(id, tok.user))
        else (s, Contended(id))
  }

  /** Steps 4 and 5 for the lock holder: delete the presented token, mint a new
      pair for its user, cache the response for the grace period, release. */
  function Rotate(s: SessionState, p: Plaintext, id: nat, user: UserId, owner: nat, now: int,
                  expiresIn: int, accessSecret: string, refreshSecret: string): (SessionState, RefreshResponse)
  {
    var s1 := s.(tokens := s.tokens - {id});
    var (s2, access, refresh) := MintPair(s1, user, None, now, accessSecret, refreshSecret);
    var pair := TokenPair(access, refresh, expiresIn);
    var s3 := s2.(grace := s2.grace[p := GraceEntry(pair, now + GRACE_SECONDS)]);
    (Release(s3, id, owner), Issued(pair))
  }

  /** The contended path after its one-second sleep: the grace entry if one
      now exists, otherwise 429; the `finally` release finds no lock of its own. */
  function AfterWait(s: SessionState, p: Plaintext, id: nat, owner: nat, now: int): (SessionState, RefreshResponse)
  {
    match GraceLookup(s, p, now)
    case Some(pair) => (Release(s, id, owner), Issued(pair))
    case None => (Release(s, id, owner), TryAgain)
  }

  /** One request to `refresh`, start to finish. */
  function Refreshed(s: SessionState, p: Plaintext, now: int, owner: nat, expiresIn: int,
                   accessSecret: string, refreshSecret: string): (SessionState, RefreshResponse)
  {
    var (s1, phase) := Begin(s, p, now, owner);
    match phase
    case Answered(r) => (s1, r)
    case Acquired(id, user) => Rotate(s1, p, id, user, owner, now, expiresIn, accessSecret, refreshSecret)
    case Contended(id) => AfterWait(s1, p, id, owner, now + WAIT_SECONDS)
  }

  /** `logout`: every token of the user, or only the token of this request. */
  function LoggedOut(s: SessionState, user: UserId, current: nat, allDevices: bool): SessionState
  {
    if allDevices then s.(tokens := map id | id in s.tokens && s.tokens[id].user != user :: s.tokens[id])
    else s.(tokens := s.tokens - {current})
  }

  // ---------------------------------------------------------------------
  // Properties
  // ---------------------------------------------------------------------

  lemma CreateTokenWellFormed(s: SessionState, user: UserId, name: string, abilities: set<string>,
                              expiresAt: Option<int>, secret: string)
    requires WellFormed(s)
    ensures var (s', p) := TokenCreated(s, user, name, abilities, expiresAt, secret);
      && WellFormed(s') && s.nextId !in s.tokens && p.id == s.nextId
      && s'.tokens == s.tokens[p.id := Token(user, name, abilities, secret, expiresAt)]
      && FindToken(s'.tokens, p) == Some(p.id)
  {
  }

  lemma RefreshWellFormed(s: SessionState, p: Plaintext, now: int, owner: nat, expiresIn: int, a: string, b: string)
    requires WellFormed(s)
    ensures WellFormed(Refreshed(s, p, now, owner, expiresIn, a, b).0)
  {
  }

  /** A live grace entry is returned verbatim and nothing changes. */
  lemma GraceReplays(s: SessionState, p: Plaintext, now: int, owner: nat, expiresIn: int, a: string, b: string)
    requires GraceLookup(s, p, now).Some?
    ensures Refreshed(s, p, now, owner, expiresIn, a, b) == (s, Issued(GraceLookup(s, p, now).value))
  {
  }

  /** Without a grace entry, an unknown token, one without the refresh ability
      or one past its expiry gets 401 and nothing changes. */
  lemma InvalidTokenRejected(s: SessionState, p: Plaintext, now: int, owner: nat, expiresIn: int, a: string, b: string)
    requires GraceLookup(s, p, now).None?
    ensures (FindToken(s.tokens, p).None? || !Can(s.tokens[p.id], REFRESH_ABILITY) || IsPast(s.tokens[p.id].expiresAt, now))
      <==> Refreshed(s, p, now, owner, expiresIn, a, b) == (s, InvalidRefreshToken)
  {
  }

  /** The request that finds the lock taken never deletes or mints a token: it
      answers with the grace entry present after its wait, or 429. */
  lemma ContendedNeverRotates(s: SessionState, p: Plaintext, now: int, owner: nat, other: nat, expiresIn: int, a: string, b: string)
    requires GraceLookup(s, p, now).None?
    requires FindToken(s.tokens, p).Some?
    requires Can(s.tokens[p.id], REFRESH_ABILITY) && !IsPast(s.tokens[p.id].expiresAt, now)
    requires p.id in s.locks && s.locks[p.id] == Lock(other, s.locks[p.id].expiresAt) && now < s.locks[p.id].expiresAt
    requires other != owner
    ensures var (s', r) := Refreshed(s, p, now, owner, expiresIn, a, b);
      && s' == s
      && r == match GraceLookup(s, p, now + WAIT_SECONDS) { case Some(pair) => Issued(pair) case None => TryAgain }
  {
  }

  /** Dropping one present key and adding two absent ones raises a map's size by one. */
  lemma {:induction false} SwapOneForTwo(m: map<nat, Token>, id: nat, n: nat, x: Token, y: Token)
    requires id in m && n !in m && n + 1 !in m
    ensures |(m - {id})[n := x][n + 1 := y]| == |m| + 1
  {
    var m1 := m - {id};
    assert m1.Keys == m.Keys - {id};
    assert |m1.Keys| == |m.Keys| - 1;
    assert |m1| == |m1.Keys| && |m| == |m.Keys|;
    assert n !in m1 && n + 1 !in m1[n := x];
  }

  /** A rotation deletes exactly the rotated token, adds one access token and
      one refresh token for the same user under fresh ids (so the count rises
      by one, every other token is kept), caches the response under the grace
      key and releases the lock of its own. */
  lemma {:induction false} RotateEffect(s: SessionState, p: Plaintext, id: nat, user: UserId, owner: nat, now: int,
                                        expiresIn: int, a: string, b: string)
    requires WellFormed(s) && id in s.tokens
    ensures var (s', r) := Rotate(s, p, id, user, owner, now, expiresIn, a, b);
      && r == Issued(TokenPair(Plaintext(s.nextId, a), Plaintext(s.nextId + 1, b), expiresIn))
      && WellFormed(s') && s'.nextId == s.nextId + 2
      && s'.tokens == (s.tokens - {id})[s.nextId := Token(user, ACCESS_NAME, {WILDCARD}, a, None)]
                        [s.nextId + 1 := Token(user, REFRESH_NAME, {REFRESH_ABILITY}, b, Some(now + REFRESH_LIFETIME))]
      && |s'.tokens| == |s.tokens| + 1
      && s'.grace == s.grace[p := GraceEntry(r.pair, now + GRACE_SECONDS)]
      && s'.locks == Release(s, id, owner).locks
  {
    assert s.nextId !in s.tokens && s.nextId + 1 !in s.tokens;
    SwapOneForTwo(s.tokens, id, s.nextId, Token(user, ACCESS_NAME, {WILDCARD}, a, None),
                  Token(user, REFRESH_NAME, {REFRESH_ABILITY}, b, Some(now + REFRESH_LIFETIME)));
  }

  /** A refresh that takes the lock rotates the presented token (see
      `RotateEffect`) and leaves no lock behind on it. */
  lemma {:induction false} RotationEffect(s: SessionState, p: Plaintext, now: int, owner: nat, expiresIn: int, a: string, b: string)
    requires WellFormed(s)
    requires Begin(s, p, now, owner).1.Acquired?
    ensures var (s', r) := Refreshed(s, p, now, owner, expiresIn, a, b);
            var user := s.tokens[p.id].user;
      && r == Issued(TokenPair(Plaintext(s.nextId, a), Plaintext(s.nextId + 1, b), expiresIn))
      && WellFormed(s') && p.id !in s'.tokens
      && s'.tokens[s.nextId] == Token(user, ACCESS_NAME, {WILDCARD}, a, None)
      && s'.tokens[s.nextId + 1] == Token(user, REFRESH_NAME, {REFRESH_ABILITY}, b, Some(now + REFRESH_LIFETIME))
      && (forall id :: id in s.tokens && id != p.id ==> id in s'.tokens && s'.tokens[id] == s.tokens[id])
      && |s'.tokens| == |s.tokens| + 1
      && s'.grace[p] == GraceEntry(r.pair, now + GRACE_SECONDS)
      && s'.locks == s.locks - {p.id}
  {
    var s1 := s.(locks := s.locks[p.id := Lock(owner, now + LOCK_SECONDS)]);
    var user := s.tokens[p.id].user;
    AcquiredRotates(s, p, now, owner, expiresIn, a, b);
    RotateEffect(s1, p, p.id, user, owner, now, expiresIn, a, b);
    var (s', r) := Refreshed(s, p, now, owner, expiresIn, a, b);
    var access := Token(user, ACCESS_NAME, {WILDCARD}, a, None);
    var refresh := Token(user, REFRESH_NAME, {REFRESH_ABILITY}, b, Some(now + REFRESH_LIFETIME));
    assert s'.tokens == (s.tokens - {p.id})[s.nextId := access][s.nextId + 1 := refresh];
    assert s'.locks == s.locks - {p.id} by {
      assert Release(s1, p.id, owner).locks == s.locks - {p.id};
    }
    forall id | id in s.tokens && id != p.id
      ensures id in s'.tokens && s'.tokens[id] == s.tokens[id]
    {
      assert id < s.nextId;
    }
  }

  /** A refresh that takes the lock is the rotation of the presented token,
      from the state with the lock taken. */
  lemma AcquiredRotates(s: SessionState, p: Plaintext, now: int, owner: nat, expiresIn: int, a: string, b: string)
    requires Begin(s, p, now, owner).1.Acquired?
    ensures FindToken(s.tokens, p) == Some(p.id) && p.id in s.tokens
    ensures Refreshed(s, p, now, owner, expiresIn, a, b)
      == Rotate(s.(locks := s.locks[p.id := Lock(owner, now + LOCK_SECONDS)]), p, p.id, s.tokens[p.id].user,
                owner, now, expiresIn, a, b)
  {
  }

  /** The new refresh token is itself accepted by the next refresh, until it
      expires thirty days later. */
  lemma NewRefreshTokenUsable(s: SessionState, p: Plaintext, now: int, owner: nat, expiresIn: int, a: string, b: string, later: int)
    requires WellFormed(s)
    requires Begin(s, p, now, owner).1.Acquired?
    requires now <= later <= now + REFRESH_LIFETIME
    ensures var (s', r) := Refreshed(s, p, now, owner, expiresIn, a, b);
            var q := r.pair.refreshToken;
      && FindToken(s'.tokens, q) == Some(q.id)
      && Can(s'.tokens[q.id], REFRESH_ABILITY) && !IsPast(s'.tokens[q.id].expiresAt, later)
  {
    RotationEffect(s, p, now, owner, expiresIn, a, b);
  }

  /** Repeating a rotated refresh within 20 seconds returns the identical pair
      and changes nothing; after 20 seconds the same plaintext gets 401. */
  lemma {:induction false} RepeatAfterRotation(s: SessionState, p: Plaintext, now: int, owner: nat, expiresIn: int,
                                               a: string, b: string, later: int, owner2: nat, a2: string, b2: string)
    requires WellFormed(s)
    requires Begin(s, p, now, owner).1.Acquired?
    requires now <= later
    ensures var (s1, r1) := Refreshed(s, p, now, owner, expiresIn, a, b);
            var (s2, r2) := Refreshed(s1, p, later, owner2, expiresIn, a2, b2);
      && (later < now + GRACE_SECONDS ==> s2 == s1 && r2 == r1)
      && (later >= now + GRACE_SECONDS ==> s2 == s1 && r2 == InvalidRefreshToken)
  {
    RotationEffect(s, p, now, owner, expiresIn, a, b);
  }

  /** Two overlapping requests with the same refresh token: the first takes the
      lock, the second finds it taken; once the first has rotated, the second's
      re-read of the grace cache returns the identical pair. Only one new pair
      is minted in all. */
  lemma {:induction false} RacingRefreshes(s: SessionState, p: Plaintext, tA: int, tB: int, tR: int,
                                           ownerA: nat, ownerB: nat, expiresIn: int, a: string, b: string)
    requires WellFormed(s) && ownerA != ownerB
    requires Begin(s, p, tA, ownerA).1.Acquired?
    requires tA <= tB < tA + LOCK_SECONDS && !IsPast(s.tokens[p.id].expiresAt, tB)
    requires tB <= tR <= tB + WAIT_SECONDS < tR + GRACE_SECONDS
    ensures var (sA, phaseA) := Begin(s, p, tA, ownerA);
            var (sB, phaseB) := Begin(sA, p, tB, ownerB);
            var (sR, rA) := Rotate(sB, p, phaseA.id, phaseA.user, ownerA, tR, expiresIn, a, b);
            var (sW, rB) := AfterWait(sR, p, phaseB.id, ownerB, tB + WAIT_SECONDS);
      && phaseB == Contended(p.id) && sB == sA
      && rA.Issued? && rB == rA
      && sW.tokens == sR.tokens && sW.nextId == s.nextId + 2
      && |sW.tokens| == |s.tokens| + 1
      && sW.locks == s.locks - {p.id}
  {
    var (sA, phaseA) := Begin(s, p, tA, ownerA);
    assert phaseA == Acquired(p.id, s.tokens[p.id].user);
    assert sA == s.(locks := s.locks[p.id := Lock(ownerA, tA + LOCK_SECONDS)]);
    assert !LockFree(sA, p.id, tB);
    RotateEffect(sA, p, p.id, phaseA.user, ownerA, tR, expiresIn, a, b);
    var (sR, rA) := Rotate(sA, p, phaseA.id, phaseA.user, ownerA, tR, expiresIn, a, b);
    assert GraceLookup(sR, p, tB + WAIT_SECONDS) == Some(rA.pair);
    assert sA.locks[p.id := Lock(ownerA, tA + LOCK_SECONDS)] - {p.id} == s.locks - {p.id};
  }

  /** The `finally` release: whichever path a request takes, it leaves no lock
      of its own behind and never touches a lock held by someone else. */
  lemma LockReleasedOnEveryExit(s: SessionState, p: Plaintext, now: int, owner: nat, expiresIn: int, a: string, b: string)
    requires forall id :: id in s.locks ==> s.locks[id].owner != owner
    ensures var s' := Refreshed(s, p, now, owner, expiresIn, a, b).0;
      && (forall id :: id in s'.locks ==> s'.locks[id].owner != owner)
      && (forall id :: id in s'.locks ==> id in s.locks && s'.locks[id] == s.locks[id])
  {
  }

  /** A deleted token never comes back: later tokens take fresh ids. */
  lemma DeletedStaysDeleted(s: SessionState, p: Plaintext, user: UserId, name: string, abilities: set<string>,
                            expiresAt: Option<int>, secret: string)
    requires WellFormed(s) && p.id !in s.tokens && p.id < s.nextId
    ensures var s' := TokenCreated(s, user, name, abilities, expiresAt, secret).0;
      p.id !in s'.tokens && p.id < s'.nextId && FindToken(s'.tokens, p).None?
  {
  }

  /** `logout`: with `allDevices` every token of the user goes and no other;
      without it only the current token goes. */
  lemma LogoutEffect(s: SessionState, user: UserId, current: nat, allDevices: bool)
    ensures var s' := LoggedOut(s, user, current, allDevices);
      && s'.nextId == s.nextId && s'.grace == s.grace && s'.locks == s.locks
      && (allDevices ==> forall id :: id in s'.tokens <==> id in s.tokens && s.tokens[id].user != user)
      && (!allDevices ==> s'.tokens == s.tokens - {current})
      && forall id :: id in s'.tokens ==> s'.tokens[id] == s.tokens[id]
  {
  }

  /** After logging out of all devices, none of the user's refresh tokens can
      mint anything: a refresh returns a still-live grace entry (whose tokens
      were revoked too) or 401. */
  lemma {:induction false} LogoutAllStopsRefresh(s: SessionState, user: UserId, current: nat, p: Plaintext,
                                                 now: int, owner: nat, expiresIn: int, a: string, b: string)
    requires p.id in s.tokens && s.tokens[p.id].user == user
    ensures var s1 := LoggedOut(s, user, current, true);
            var (s2, r) := Refreshed(s1, p, now, owner, expiresIn, a, b);
      && s2 == s1
      && (r == InvalidRefreshToken || r == Issued(GraceLookup(s1, p, now).value))
  {
    var s1 := LoggedOut(s, user, current, true);
    assert p.id !in s1.tokens;
  }

  /** Sanctum's wildcard: an access token (abilities `*`, no expiry) passes the
      `can('refresh')` check, so presenting it to `refresh` rotates it. */
  lemma {:induction false} AccessTokenPassesRefreshCheck(s: SessionState, user: UserId, now: int, accessExpiry: Option<int>,
                                                         a: string, b: string, later: int, owner: nat)
    requires WellFormed(s) && s.locks == map[] && s.grace == map[]
    requires accessExpiry.None?
    ensures var (s1, access, _) := MintPair(s, user, accessExpiry, now, a, b);
      Begin(s1, access, later, owner).1 == Acquired(access.id, user)
  {
    var (s1, access, _) := MintPair(s, user, accessExpiry, now, a, b);
    assert s1.tokens[access.id].abilities == {WILDCARD};
    assert access.id !in s1.locks;
  }

  // ---------------------------------------------------------------------
  // The store object
  // ---------------------------------------------------------------------

  class SessionStore {
    var tokens: map<nat, Token>
    var nextId: nat
    var grace: map<Plaintext, GraceEntry>
    var locks: map<nat, Lock>
    /** `config('sanctum.expiration', 3600)`, fixed when the store is made. */
    const expiresIn: int

    function State(): SessionState
      reads this
    {
      SessionState(tokens, nextId, grace, locks)
    }

    ghost predicate Valid()
      reads this
    {
      WellFormed(State())
    }

    constructor (expiresIn: int)
      ensures Valid() && State() == SessionState(map[], 1, map[], map[]) && this.expiresIn == expiresIn
    {
      tokens := map[];
      nextId := 1;
      grace := map[];
      locks := map[];
      this.expiresIn := expiresIn;
    }

    method CreateToken(user: UserId, name: string, abilities: set<string>, expiresAt: Option<int>, secret: string)
      returns (plain: Plaintext)
      requires Valid()
      modifies this`tokens, this`nextId
      ensures Valid()
      ensures (State(), plain) == TokenCreated(old(State()), user, name, abilities, expiresAt, secret)
    {
      plain := Plaintext(nextId, secret);
      tokens := tokens[nextId := Token(user, name, abilities, secret, expiresAt)];
      nextId := nextId + 1;
    }

    method BeginRefresh(p: Plaintext, now: int, owner: nat) returns (phase: Phase)
      modifies this`locks
      ensures (State(), phase) == Begin(old(State()), p, now, owner)
    {
      var cached := GraceLookup(State(), p, now);
      if cached.Some? {
        return Answered(Issued(cached.value));
      }
      var found := FindToken(tokens, p);
      if found.None? || !Can(tokens[found.value], REFRESH_ABILITY) || IsPast(tokens[found.value].expiresAt, now) {
        return Answered(InvalidRefreshToken);
      }
      var id := found.value;
      if LockFree(State(), id, now) {
        locks := locks[id := Lock(owner, now + LOCK_SECONDS)];
        return Acquired(id, tokens[id].user);
      }
      return Contended(id);
    }

    method FinishRotation(p: Plaintext, id: nat, user: UserId, owner: nat, now: int, accessSecret: string, refreshSecret: string)
      returns (r: RefreshResponse)
      requires Valid()
      modifies this
      ensures Valid()
      ensures (State(), r) == Rotate(old(State()), p, id, user, owner, now, expiresIn, accessSecret, refreshSecret)
    {
      tokens := tokens - {id};
      var access := CreateToken(user, ACCESS_NAME, {WILDCARD}, None, accessSecret);
      var refresh := CreateToken(user, REFRESH_NAME, {REFRESH_ABILITY}, Some(now + REFRESH_LIFETIME), refreshSecret);
      var pair := TokenPair(access, refresh, expiresIn);
      grace := grace[p := GraceEntry(pair, now + GRACE_SECONDS)];
      ReleaseLock(id, owner);
      r := Issued(pair);
    }

    method FinishWaiting(p: Plaintext, id: nat, owner: nat, now: int) returns (r: RefreshResponse)
      modifies this`locks
      ensures (State(), r) == AfterWait(old(State()), p, id, owner, now)
    {
      var cached := GraceLookup(State(), p, now);
      r := if cached.Some? then Issued(cached.value) else TryAgain;
      ReleaseLock(id, owner);
    }

    method ReleaseLock(id: nat, owner: nat)
      modifies this`locks
      ensures State() == Release(old(State()), id, owner)
    {
      if id in locks && locks[id].owner == owner {
        locks := locks - {id};
      }
    }

    method Refresh(p: Plaintext, now: int, owner: nat, accessSecret: string, refreshSecret: string)
      returns (r: RefreshResponse)
      requires Valid()
      modifies this
      ensures Valid()
      ensures (State(), r) == Refreshed(old(State()), p, now, owner, expiresIn, accessSecret, refreshSecret)
    {
      var phase := BeginRefresh(p, now, owner);
      match phase
      case Answered(resp) =>
        r := resp;
      case Acquired(id, user) =>
        r := FinishRotation(p, id, user, owner, now, accessSecret, refreshSecret);
      case Contended(id) =>
        r := FinishWaiting(p, id, owner, now + WAIT_SECONDS);
    }

    method Logout(user: UserId, current: nat, allDevices: bool) returns (success: bool)
      requires Valid()
      modifies this`tokens
      ensures Valid() && success
      ensures State() == LoggedOut(old(State()), user, current, allDevices)
    {
      if allDevices {
        tokens := map id | id in tokens && tokens[id].user != user :: tokens[id];
      } else {
        tokens := tokens - {current};
      }
      success := true;
    }
  }
}
