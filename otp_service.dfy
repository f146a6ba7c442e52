/** OtpService: issuing, verifying and rate-limiting one-time codes.

    The state is the `otp_codes` table (rows in insertion order, ids from an
    auto-increment counter) and the cache entries the service owns. Under the
    key `otp_rate_limit:<phone>` it keeps a send counter, and under the same
    key with `:ttl` appended the moment that counter lapses; both are written
    together with the same time-to-live, so they are modelled as one
    `RateWindow(count, windowEnd)`, alive while `now < windowEnd`. */
module OtpService {
  import opened Common
  import opened OtpCodes

  const EXPIRATION_MINUTES: int := 5
  const MAX_ATTEMPTS: int := 5
  const RATE_LIMIT_MAX: int := 3
  const RATE_LIMIT_WINDOW: int := 5

  /** Lifetime of a code and of a rate-limit window, in seconds. */
  const OTP_TTL: int := EXPIRATION_MINUTES * MINUTE
  const WINDOW_SECONDS: int := RATE_LIMIT_WINDOW * MINUTE
  /** `cleanup` removes rows that expired more than a day ago. */
  const CLEANUP_AGE: int := 24 * HOUR

  const RATE_LIMIT_PREFIX: string := "otp_rate_limit:"

  datatype RateWindow = RateWindow(count: int, windowEnd: int)

  type RateCache = map<string, RateWindow>

  // ---------------------------------------------------------------------
  // Codes
  // ---------------------------------------------------------------------

  function DigitChar(d: int): (c: char)
    requires 0 <= d <= 9
    ensures IsDigit(c) && c as int - '0' as int == d
  {
    ('0' as int + d) as char
  }

  /** `(string) $n` for a natural number. */
  function DecimalString(n: nat): (s: string)
    ensures |s| >= 1 && AllDigits(s)
    decreases n
  {
    if n < 10 then [DigitChar(n)] else DecimalString(n / 10) + [DigitChar(n % 10)]
  }

  /** The number a string of decimal digits denotes (leading zeros allowed). */
  function DecimalValue(s: string): nat
    requires AllDigits(s)
  {
    if s == [] then 0
    else DecimalValue(s[..|s| - 1]) * 10 + (s[|s| - 1] as int - '0' as int)
  }

  /** `str_pad($s, $width, $c, STR_PAD_LEFT)`. */
  function PadLeft(s: string, width: nat, c: char): (r: string)
    ensures |r| == Max(|s|, width)
  {
    if |s| >= width then s else seq(width - |s|, _ => c) + s
  }

  /** The padded string is the fill characters followed by the original. */
  lemma PadLeftShape(s: string, width: nat, c: char)
    ensures var r := PadLeft(s, width, c);
      r[|r| - |s|..] == s && forall i :: 0 <= i < |r| - |s| ==> r[i] == c
  {
  }

  lemma {:induction false} DecimalStringValue(n: nat)
    ensures DecimalValue(DecimalString(n)) == n
    decreases n
  {
    if n >= 10 {
      var s := DecimalString(n);
      assert s[..|s| - 1] == DecimalString(n / 10);
      DecimalStringValue(n / 10);
    }
  }

  lemma {:induction false} DecimalStringLength(n: nat, k: nat)
    requires n < Pow10(k)
    ensures |DecimalString(n)| <= Max(k, 1)
    decreases n
  {
    if n >= 10 {
      assert k >= 2 by { if k < 2 { Pow10Small(k); } }
      DecimalStringLength(n / 10, k - 1);
    }
  }

  function Pow10(k: nat): nat { if k == 0 then 1 else 10 * Pow10(k - 1) }

  lemma Pow10Small(k: nat)
    requires k < 2
    ensures Pow10(k) <= 10
  {
  }

  /** Leading zeros do not change the value of a digit string. */
  lemma {:induction false} LeadingZerosValue(z: string, s: string)
    requires AllDigits(s)
    requires forall i :: 0 <= i < |z| ==> z[i] == '0'
    ensures AllDigits(z + s) && DecimalValue(z + s) == DecimalValue(s)
    decreases |s|
  {
    var zs := z + s;
    assert AllDigits(zs) by {
      forall i | 0 <= i < |zs| ensures IsDigit(zs[i]) {
        if i < |z| { assert zs[i] == z[i]; } else { assert zs[i] == s[i - |z|]; }
      }
    }
    if s == [] {
      assert zs == z;
      AllZerosValue(z);
    } else {
      var s' := s[..|s| - 1];
      assert zs[..|zs| - 1] == z + s';
      assert zs[|zs| - 1] == s[|s| - 1];
      LeadingZerosValue(z, s');
    }
  }

  lemma {:induction false} AllZerosValue(z: string)
    requires forall i :: 0 <= i < |z| ==> z[i] == '0'
    ensures AllDigits(z) && DecimalValue(z) == 0
    decreases |z|
  {
    if z != [] {
      AllZerosValue(z[..|z| - 1]);
    }
  }

  /** `generateCode`: the draw of `random_int(0, 999999)`, as six decimal
      digits, left-padded with zeros. */
  function GenerateCode(draw: int): (code: string)
    requires 0 <= draw <= 999999
    ensures |code| == 6 && AllDigits(code)
  {
    DecimalStringLength(draw, 6);
    PadLeft(DecimalString(draw), 6, '0')
  }

  /** The six digits spell the draw: the code is `str_pad` of `(string) $draw`
      and reading it back as a number gives the draw. */
  lemma GenerateCodeValue(draw: int)
    requires 0 <= draw <= 999999
    ensures DecimalValue(GenerateCode(draw)) == draw
  {
    var s := DecimalString(draw);
    var code := GenerateCode(draw);
    DecimalStringLength(draw, 6);
    PadLeftShape(s, 6, '0');
    assert code == code[..|code| - |s|] + s;
    LeadingZerosValue(code[..|code| - |s|], s);
    DecimalStringValue(draw);
  }

  /** Different draws give different codes. */
  lemma GenerateCodeInjective(a: int, b: int)
    requires 0 <= a <= 999999 && 0 <= b <= 999999
    ensures GenerateCode(a) == GenerateCode(b) <==> a == b
  {
    GenerateCodeValue(a);
    GenerateCodeValue(b);
  }

  // ---------------------------------------------------------------------
  // Rate-limit cache
  // ---------------------------------------------------------------------

  /** `getRateLimitKey`: one key per phone, whatever the purpose of the code. */
  function RateLimitKey(phone: string): (key: string)
    ensures |key| == |RATE_LIMIT_PREFIX| + |phone|
    ensures key[..|RATE_LIMIT_PREFIX|] == RATE_LIMIT_PREFIX
    ensures key[|RATE_LIMIT_PREFIX|..] == phone
  {
    RATE_LIMIT_PREFIX + phone
  }

  lemma RateLimitKeyInjective(a: string, b: string)
    ensures RateLimitKey(a) == RateLimitKey(b) <==> a == b
  {
    if RateLimitKey(a) == RateLimitKey(b) {
      assert a == RateLimitKey(a)[|RATE_LIMIT_PREFIX|..];
    }
  }

  /** `Cache::get($key, 0)`: the live counter, or 0. */
  function Counter(cache: RateCache, phone: string, now: int): int
  {
    var k := RateLimitKey(phone);
    if k in cache && now < cache[k].windowEnd then cache[k].count else 0
  }

  /** `isRateLimited`. */
  predicate IsRateLimited(cache: RateCache, phone: string, now: int)
  {
    Counter(cache, phone, now) >= RATE_LIMIT_MAX
  }

  /** `getRetryAfter`: seconds until the window marker lapses, 0 without a (truthy) marker. */
  function RetryAfter(cache: RateCache, phone: string, now: int): (s: int)
    ensures s >= 0
    ensures s > 0 ==> RateLimitKey(phone) in cache && now < cache[RateLimitKey(phone)].windowEnd
    ensures RateLimitKey(phone) in cache && now < cache[RateLimitKey(phone)].windowEnd
            && cache[RateLimitKey(phone)].windowEnd != 0
            ==> s == cache[RateLimitKey(phone)].windowEnd - now
  {
    var k := RateLimitKey(phone);
    if k in cache && now < cache[k].windowEnd && cache[k].windowEnd != 0
    then Max(0, cache[k].windowEnd - now)
    else 0
  }

  /** `getRateLimitRemaining`. */
  function RateLimitRemaining(cache: RateCache, phone: string, now: int): (n: int)
    ensures n >= 0 && (Counter(cache, phone, now) >= 0 ==> n <= RATE_LIMIT_MAX)
    ensures n == 0 <==> IsRateLimited(cache, phone, now)
    ensures Counter(cache, phone, now) >= 0 ==> n == Max(0, RATE_LIMIT_MAX - Counter(cache, phone, now))
  {
    Max(0, RATE_LIMIT_MAX - Counter(cache, phone, now))
  }

  /** The cache after `trackRateLimit`: counter plus one, window restarted. */
  function Tracked(cache: RateCache, phone: string, now: int): RateCache
  {
    cache[RateLimitKey(phone) := RateWindow(Counter(cache, phone, now) + 1, now + WINDOW_SECONDS)]
  }

  /** The cache after `clearRateLimit`. */
  function Cleared(cache: RateCache, phone: string): RateCache
  {
    cache - {RateLimitKey(phone)}
  }

  /** Each send raises this phone's counter by one for a fresh 300 s window and
      leaves every other phone's counter alone. */
  lemma TrackedCounter(cache: RateCache, phone: string, now: int, later: int, other: string)
    requires 0 <= now <= later
    ensures later < now + WINDOW_SECONDS ==>
              Counter(Tracked(cache, phone, now), phone, later) == Counter(cache, phone, now) + 1
              && RetryAfter(Tracked(cache, phone, now), phone, later) == now + WINDOW_SECONDS - later
    ensures later >= now + WINDOW_SECONDS ==> Counter(Tracked(cache, phone, now), phone, later) == 0
    ensures other != phone ==> Counter(Tracked(cache, phone, now), other, later) == Counter(cache, other, later)
  {
    if other != phone {
      RateLimitKeyInjective(phone, other);
    }
  }

  /** After a clear the phone has a zero counter and no marker; other phones are untouched. */
  lemma ClearedCounter(cache: RateCache, phone: string, other: string, t: int)
    ensures Counter(Cleared(cache, phone), phone, t) == 0 && RetryAfter(Cleared(cache, phone), phone, t) == 0
    ensures !IsRateLimited(Cleared(cache, phone), phone, t)
    ensures other != phone ==> Counter(Cleared(cache, phone), other, t) == Counter(cache, other, t)
  {
    if other != phone {
      RateLimitKeyInjective(phone, other);
    }
  }

  /** Starting from no live counter, three sends that each follow the previous
      one within the window are allowed, and a fourth inside the last window is
      refused with a positive retry-after. The window restarts at every send,
      so it is measured from the latest send, not the first. */
  lemma {:induction false} FourthSendLimited(cache: RateCache, phone: string, t1: int, t2: int, t3: int, t4: int)
    requires Counter(cache, phone, t1) == 0
    requires 0 <= t1 <= t2 < t1 + WINDOW_SECONDS
    requires t2 <= t3 < t2 + WINDOW_SECONDS
    requires t3 <= t4 < t3 + WINDOW_SECONDS
    ensures !IsRateLimited(cache, phone, t1)
    ensures !IsRateLimited(Tracked(cache, phone, t1), phone, t2)
    ensures !IsRateLimited(Tracked(Tracked(cache, phone, t1), phone, t2), phone, t3)
    ensures IsRateLimited(Tracked(Tracked(Tracked(cache, phone, t1), phone, t2), phone, t3), phone, t4)
    ensures RetryAfter(Tracked(Tracked(Tracked(cache, phone, t1), phone, t2), phone, t3), phone, t4) > 0
  {
    var c1 := Tracked(cache, phone, t1);
    TrackedCounter(cache, phone, t1, t2, phone);
    var c2 := Tracked(c1, phone, t2);
    TrackedCounter(c1, phone, t2, t3, phone);
    TrackedCounter(c2, phone, t3, t4, phone);
  }

  // ---------------------------------------------------------------------
  // Table queries
  // ---------------------------------------------------------------------

  predicate Matches(r: OtpRecord, phone: string, t: OtpType, code: string, now: int)
  {
    Selects(r, phone, Some(t), now) && r.code == code
  }

  /** `forPhone()->ofType()->valid()->where('code', ...)->first()`; rows come
      back in insertion order, so the first match is the lowest index. */
  function FirstMatch(records: seq<OtpRecord>, phone: string, t: OtpType, code: string, now: int): (k: Option<nat>)
    ensures k.Some? ==> k.value < |records| && Matches(records[k.value], phone, t, code, now)
    ensures k.Some? ==> forall j :: 0 <= j < k.value ==> !Matches(records[j], phone, t, code, now)
    ensures k.None? ==> forall j :: 0 <= j < |records| ==> !Matches(records[j], phone, t, code, now)
    decreases |records|
  {
    if records == [] then None
    else if Matches(records[0], phone, t, code, now) then Some(0)
    else match FirstMatch(records[1..], phone, t, code, now)
      case None => None
      case Some(k) => Some(k + 1)
  }

  /** `...->valid()->latest()->first()`: the most recently inserted row that
      the filter selects (no type filter when `t` is None). */
  function LatestMatch(records: seq<OtpRecord>, phone: string, t: Option<OtpType>, now: int): (k: Option<nat>)
    ensures k.Some? ==> k.value < |records| && Selects(records[k.value], phone, t, now)
    ensures k.Some? ==> forall j :: k.value < j < |records| ==> !Selects(records[j], phone, t, now)
    ensures k.None? ==> forall j :: 0 <= j < |records| ==> !Selects(records[j], phone, t, now)
    ensures k.Some? && CreatedOrdered(records) ==>
      forall j :: 0 <= j < |records| && Selects(records[j], phone, t, now) ==> records[j].createdAt <= records[k.value].createdAt
    decreases |records|
  {
    if records == [] then None
    else if Selects(records[|records| - 1], phone, t, now) then Some(|records| - 1)
    else LatestMatch(records[..|records| - 1], phone, t, now)
  }

  /** `getLatestOtp`: a valid row of the phone and type with the newest
      `created_at` when the table is in creation order. */
  function GetLatestOtp(records: seq<OtpRecord>, phone: string, t: OtpType, now: int): (o: Option<OtpRecord>)
    ensures o.Some? ==> o.value in records && Selects(o.value, phone, Some(t), now)
    ensures o.None? ==> forall r :: r in records ==> !Selects(r, phone, Some(t), now)
    ensures o.Some? && CreatedOrdered(records) ==>
      forall r :: r in records && Selects(r, phone, Some(t), now) ==> r.createdAt <= o.value.createdAt
  {
    match LatestMatch(records, phone, Some(t), now)
    case None => None
    case Some(k) => Some(records[k])
  }

  /** The bulk update at the start of `generate`: every row of this phone and
      purpose that is still valid gets `verified_at = now`. */
  function Supersede(records: seq<OtpRecord>, phone: string, t: OtpType, now: int): (out: seq<OtpRecord>)
    ensures |out| == |records|
  {
    seq(|records|, i requires 0 <= i < |records| =>
      if Selects(records[i], phone, Some(t), now) then MarkAsVerified(records[i], now) else records[i])
  }

  /** `incrementFailedAttempt`: charge the latest valid row of the phone, of any type. */
  function ChargeFailure(records: seq<OtpRecord>, phone: string, now: int): (out: seq<OtpRecord>)
    ensures |out| == |records|
  {
    match LatestMatch(records, phone, None, now)
    case None => records
    case Some(j) => records[j := IncrementAttempts(records[j])]
  }

  /** The rows `cleanup` keeps: `expires_at` not before the cutoff. */
  function KeepRecent(records: seq<OtpRecord>, cutoff: int): (out: seq<OtpRecord>)
    ensures |out| <= |records|
    ensures forall r :: r in out <==> r in records && !(r.expiresAt < cutoff)
    decreases |records|
  {
    if records == [] then []
    else if records[0].expiresAt < cutoff then KeepRecent(records[1..], cutoff)
    else [records[0]] + KeepRecent(records[1..], cutoff)
  }

  /** Filtering keeps the relative order of the surviving rows. */
  lemma {:induction false} KeepRecentOrdered(records: seq<OtpRecord>, cutoff: int)
    requires IdsIncreasing(records) && CreatedOrdered(records)
    ensures IdsIncreasing(KeepRecent(records, cutoff)) && CreatedOrdered(KeepRecent(records, cutoff))
    ensures forall i :: 0 <= i < |KeepRecent(records, cutoff)| ==> KeepRecent(records, cutoff)[i] in records
    decreases |records|
  {
    if records != [] {
      var tail := records[1..];
      TailOrdered(records);
      KeepRecentOrdered(tail, cutoff);
      if !(records[0].expiresAt < cutoff) {
        PrependOrdered(records[0], KeepRecent(tail, cutoff), records);
      }
    }
  }

  lemma TailOrdered(records: seq<OtpRecord>)
    requires records != [] && IdsIncreasing(records) && CreatedOrdered(records)
    ensures IdsIncreasing(records[1..]) && CreatedOrdered(records[1..])
  {
    var tail := records[1..];
    forall i, j | 0 <= i < j < |tail| ensures tail[i].id < tail[j].id && tail[i].createdAt <= tail[j].createdAt {
      assert tail[i] == records[i + 1] && tail[j] == records[j + 1];
    }
  }

  lemma PrependOrdered(head: OtpRecord, rest: seq<OtpRecord>, records: seq<OtpRecord>)
    requires records != [] && records[0] == head && IdsIncreasing(records) && CreatedOrdered(records)
    requires IdsIncreasing(rest) && CreatedOrdered(rest)
    requires forall i :: 0 <= i < |rest| ==> rest[i] in records[1..]
    ensures IdsIncreasing([head] + rest) && CreatedOrdered([head] + rest)
  {
    var out := [head] + rest;
    forall i, j | 0 <= i < j < |out| ensures out[i].id < out[j].id && out[i].createdAt <= out[j].createdAt {
      assert out[j] == rest[j - 1];
      if i == 0 {
        var k :| 0 <= k < |records| - 1 && records[1..][k] == rest[j - 1];
        assert records[k + 1] == rest[j - 1];
      } else {
        assert out[i] == rest[i - 1];
      }
    }
  }

  // ---------------------------------------------------------------------
  // The table as a whole
  // ---------------------------------------------------------------------

  /** Row ids are assigned in increasing order. */
  predicate IdsIncreasing(records: seq<OtpRecord>)
  {
    forall i, j :: 0 <= i < j < |records| ==> records[i].id < records[j].id
  }

  /** Rows are inserted with `created_at` the clock of the insert, and the clock
      does not run backwards, so insertion order is `created_at` order. */
  predicate CreatedOrdered(records: seq<OtpRecord>)
  {
    forall i, j :: 0 <= i < j < |records| ==> records[i].createdAt <= records[j].createdAt
  }

  /** No row was created after `now`. */
  predicate CreatedBy(records: seq<OtpRecord>, now: int)
  {
    forall i :: 0 <= i < |records| ==> records[i].createdAt <= now
  }

  datatype OtpTable = OtpTable(records: seq<OtpRecord>, nextId: nat, cache: RateCache)

  predicate WellFormed(s: OtpTable)
  {
    && IdsIncreasing(s.records) && CreatedOrdered(s.records)
    && forall i :: 0 <= i < |s.records| ==> s.records[i].id < s.nextId
  }

  /** `generate` with the code `generateCode` drew: supersede, insert the new
      row, count the send. */
  function Generated(s: OtpTable, phone: string, t: OtpType, now: int, code: string): (OtpTable, OtpRecord)
  {
    var otp := OtpRecord(s.nextId, phone, code, t, 0, now, now + OTP_TTL, None);
    (OtpTable(Supersede(s.records, phone, t, now) + [otp], s.nextId + 1, Tracked(s.cache, phone, now)), otp)
  }

  /** `verify`: the first valid row of this phone and purpose carrying the code;
      none found charges a failure, a row out of attempts refuses, otherwise the
      row is consumed and the phone's rate limit cleared. */
  function Verified(s: OtpTable, phone: string, code: string, t: OtpType, now: int): (OtpTable, Option<OtpRecord>)
  {
    match FirstMatch(s.records, phone, t, code, now)
    case None => (s.(records := ChargeFailure(s.records, phone, now)), None)
    case Some(i) =>
      if HasMaxAttempts(s.records[i], MAX_ATTEMPTS) then (s, None)
      else
        var v := MarkAsVerified(s.records[i], now);
        (s.(records := s.records[i := v], cache := Cleared(s.cache, phone)), Some(v))
  }

  /** `cleanup`: the table without rows expired for more than a day, and how many went. */
  function Cleaned(s: OtpTable, now: int): (OtpTable, int)
  {
    var kept := KeepRecent(s.records, now - CLEANUP_AGE);
    (s.(records := kept), |s.records| - |kept|)
  }

  // ---------------------------------------------------------------------
  // Properties of the table operations
  // ---------------------------------------------------------------------

  lemma GeneratedWellFormed(s: OtpTable, phone: string, t: OtpType, now: int, code: string)
    requires WellFormed(s) && CreatedBy(s.records, now)
    ensures WellFormed(Generated(s, phone, t, now, code).0)
  {
    var (s', otp) := Generated(s, phone, t, now, code);
    var sup := Supersede(s.records, phone, t, now);
    assert s'.records == sup + [otp];
    SupersedeKeepsIds(s.records, phone, t, now);
    AppendKeepsWellFormed(s.records, sup, otp, s.nextId);
  }

  lemma SupersedeKeepsIds(records: seq<OtpRecord>, phone: string, t: OtpType, now: int)
    ensures forall i :: 0 <= i < |records| ==>
      Supersede(records, phone, t, now)[i].id == records[i].id
      && Supersede(records, phone, t, now)[i].createdAt == records[i].createdAt
  {
  }

  lemma AppendKeepsWellFormed(records: seq<OtpRecord>, sup: seq<OtpRecord>, otp: OtpRecord, nextId: nat)
    requires WellFormed(OtpTable(records, nextId, map[])) && CreatedBy(records, otp.createdAt)
    requires |sup| == |records|
    requires forall i :: 0 <= i < |records| ==> sup[i].id == records[i].id && sup[i].createdAt == records[i].createdAt
    requires otp.id == nextId
    ensures WellFormed(OtpTable(sup + [otp], nextId + 1, map[]))
  {
    var out := sup + [otp];
    forall i, j | 0 <= i < j < |out| ensures out[i].id < out[j].id && out[i].createdAt <= out[j].createdAt {
      assert out[i] == sup[i];
      if j < |sup| { assert out[j] == sup[j]; }
    }
  }

  lemma VerifiedWellFormed(s: OtpTable, phone: string, code: string, t: OtpType, now: int)
    requires WellFormed(s)
    ensures WellFormed(Verified(s, phone, code, t, now).0)
  {
    var s' := Verified(s, phone, code, t, now).0;
    forall i | 0 <= i < |s.records|
      ensures i < |s'.records| && s'.records[i].id == s.records[i].id && s'.records[i].createdAt == s.records[i].createdAt
    {
    }
    SameStampsWellFormed(s, s');
  }

  /** Changing rows without touching their ids or creation times keeps the
      table well formed. */
  lemma SameStampsWellFormed(s: OtpTable, s': OtpTable)
    requires WellFormed(s) && s'.nextId == s.nextId && |s'.records| == |s.records|
    requires forall i :: 0 <= i < |s.records| ==>
      s'.records[i].id == s.records[i].id && s'.records[i].createdAt == s.records[i].createdAt
    ensures WellFormed(s')
  {
  }

  lemma CleanedWellFormed(s: OtpTable, now: int)
    requires WellFormed(s)
    ensures WellFormed(Cleaned(s, now).0)
  {
    KeepRecentOrdered(s.records, now - CLEANUP_AGE);
  }

  /** After `generate(phone, t)` the new row is the only valid row of that phone
      and purpose, now and at every later moment; rows of other phones or
      purposes, and rows that were no longer valid, are untouched. */
  lemma {:induction false} GenerateSupersedes(s: OtpTable, phone: string, t: OtpType, now: int, code: string, later: int)
    requires now <= later
    ensures var (s', otp) := Generated(s, phone, t, now, code);
      && |s'.records| == |s.records| + 1
      && s'.records[|s.records|] == otp
      && (forall i :: 0 <= i < |s.records| ==> !Selects(s'.records[i], phone, Some(t), later))
      && (Selects(otp, phone, Some(t), later) <==> later < now + OTP_TTL)
      && (forall i :: 0 <= i < |s.records| && !Selects(s.records[i], phone, Some(t), now) ==> s'.records[i] == s.records[i])
  {
    var (s', otp) := Generated(s, phone, t, now, code);
    var sup := Supersede(s.records, phone, t, now);
    assert s'.records == sup + [otp];
    forall i | 0 <= i < |s.records| ensures !Selects(s'.records[i], phone, Some(t), later) {
      assert s'.records[i] == sup[i];
      if Selects(s.records[i], phone, Some(t), now) {
        assert sup[i] == MarkAsVerified(s.records[i], now);
      } else {
        assert sup[i] == s.records[i];
        ValidityShrinks(s.records[i], now, later);
      }
    }
  }

  /** The new row: six zero-padded digits encoding the draw, no attempts, five minutes of life. */
  lemma GeneratedRow(s: OtpTable, phone: string, t: OtpType, now: int, draw: int)
    requires 0 <= draw <= 999999
    ensures var otp := Generated(s, phone, t, now, GenerateCode(draw)).1;
      && otp.phone == phone && otp.otpType == t
      && |otp.code| == 6 && AllDigits(otp.code) && DecimalValue(otp.code) == draw
      && otp.attempts == 0 && otp.expiresAt == now + 300 && otp.verifiedAt.None?
  {
    GenerateCodeValue(draw);
  }

  /** A wrong code changes nothing but the attempts of the latest valid row of
      the phone, of any purpose. */
  lemma {:induction false} WrongCodeCharges(s: OtpTable, phone: string, code: string, t: OtpType, now: int)
    requires FirstMatch(s.records, phone, t, code, now).None?
    ensures var (s', r) := Verified(s, phone, code, t, now);
      && r.None? && s'.cache == s.cache && s'.nextId == s.nextId && |s'.records| == |s.records|
      && match LatestMatch(s.records, phone, None, now)
         case None => s'.records == s.records
         case Some(j) =>
           s'.records[j].attempts == s.records[j].attempts + 1
           && s'.records[j].(attempts := s.records[j].attempts) == s.records[j]
           && forall i :: 0 <= i < |s.records| && i != j ==> s'.records[i] == s.records[i]
  {
  }

  /** A row out of attempts is refused even with the right code, and nothing changes. */
  lemma LockedOutChangesNothing(s: OtpTable, phone: string, code: string, t: OtpType, now: int)
    requires FirstMatch(s.records, phone, t, code, now).Some?
    requires s.records[FirstMatch(s.records, phone, t, code, now).value].attempts >= MAX_ATTEMPTS
    ensures Verified(s, phone, code, t, now) == (s, None)
  {
  }

  /** Success consumes the row and clears the phone's rate limit. */
  lemma VerifySuccess(s: OtpTable, phone: string, code: string, t: OtpType, now: int)
    requires FirstMatch(s.records, phone, t, code, now).Some?
    requires s.records[FirstMatch(s.records, phone, t, code, now).value].attempts < MAX_ATTEMPTS
    ensures var i := FirstMatch(s.records, phone, t, code, now).value;
            var (s', r) := Verified(s, phone, code, t, now);
      && r == Some(s'.records[i]) && s'.records[i] == MarkAsVerified(s.records[i], now)
      && r.value.phone == phone && r.value.otpType == t && r.value.code == code
      && (forall later :: !Selects(s'.records[i], phone, Some(t), later))
      && Counter(s'.cache, phone, now) == 0
  {
    ClearedCounter(s.cache, phone, phone, now);
  }

  /** A record whose verified_at is set stays set through every operation,
      provided it survives cleanup. */
  predicate Consumed(s: OtpTable, id: nat)
  {
    exists i :: 0 <= i < |s.records| && s.records[i].id == id && s.records[i].verifiedAt.Some?
  }

  /** No verification ever returns a consumed row: each code verifies at most once. */
  lemma {:induction false} ConsumedNeverVerifies(s: OtpTable, id: nat, phone: string, code: string, t: OtpType, now: int)
    requires WellFormed(s) && Consumed(s, id)
    ensures var (s', r) := Verified(s, phone, code, t, now);
      Consumed(s', id) && (r.Some? ==> r.value.id != id)
  {
    var i :| 0 <= i < |s.records| && s.records[i].id == id && s.records[i].verifiedAt.Some?;
    var (s', r) := Verified(s, phone, code, t, now);
    match FirstMatch(s.records, phone, t, code, now)
    case None =>
      assert s'.records[i].id == id && s'.records[i].verifiedAt.Some?;
    case Some(k) =>
      if !HasMaxAttempts(s.records[k], MAX_ATTEMPTS) {
        assert k != i;
        assert s'.records[i] == s.records[i];
        assert r.value.id == s.records[k].id;
      }
  }

  /** A row that reached the attempt limit is never returned by a verification:
      the lockout holds whatever code is presented later. */
  lemma {:induction false} LockoutHolds(s: OtpTable, i: nat, phone: string, code: string, t: OtpType, now: int)
    requires WellFormed(s) && i < |s.records| && s.records[i].attempts >= MAX_ATTEMPTS
    ensures var (s', r) := Verified(s, phone, code, t, now);
      && s'.records[i].id == s.records[i].id && s'.records[i].attempts >= MAX_ATTEMPTS
      && (r.Some? ==> r.value.id != s.records[i].id)
  {
    var (s', r) := Verified(s, phone, code, t, now);
    match FirstMatch(s.records, phone, t, code, now)
    case None =>
    case Some(k) =>
      if !HasMaxAttempts(s.records[k], MAX_ATTEMPTS) {
        assert k != i;
      }
  }

  /** Issuing a second code for the same phone and purpose retires the first:
      presenting the first code afterwards verifies nothing but the second row,
      which happens only when the two codes coincide (and so, by
      `GenerateCodeInjective`, only when the two draws do). */
  lemma {:induction false} SecondCodeRetiresFirst(s: OtpTable, phone: string, t: OtpType, t0: int, t1: int, t2: int, c1: string, c2: string)
    requires t0 <= t1 <= t2
    ensures var (s1, first) := Generated(s, phone, t, t0, c1);
            var (s2, second) := Generated(s1, phone, t, t1, c2);
            var (_, r) := Verified(s2, phone, c1, t, t2);
      r.Some? ==> r.value.id == second.id && c1 == c2
  {
    var (s1, first) := Generated(s, phone, t, t0, c1);
    var (s2, second) := Generated(s1, phone, t, t1, c2);
    GenerateSupersedes(s1, phone, t, t1, c2, t2);
    match FirstMatch(s2.records, phone, t, c1, t2)
    case None =>
    case Some(k) =>
      assert k == |s1.records|;
  }

  /** `cleanup` deletes exactly the rows with `expires_at` more than a day in
      the past and reports how many it deleted. */
  lemma CleanupExact(s: OtpTable, now: int)
    ensures var (s', n) := Cleaned(s, now);
      && (forall r :: r in s'.records <==> r in s.records && r.expiresAt >= now - CLEANUP_AGE)
      && n == |s.records| - |s'.records| && n >= 0
      && s'.cache == s.cache && s'.nextId == s.nextId
  {
  }

  // ---------------------------------------------------------------------
  // The service object
  // ---------------------------------------------------------------------

  class OtpStore {
    var records: seq<OtpRecord>
    var nextId: nat
    var cache: RateCache

    function Table(): OtpTable
      reads this
    {
      OtpTable(records, nextId, cache)
    }

    ghost predicate Valid()
      reads this
    {
      WellFormed(Table())
    }

    constructor ()
      ensures Valid() && Table() == OtpTable([], 1, map[])
    {
      records := [];
      nextId := 1;
      cache := map[];
    }

    method Generate(phone: string, t: OtpType, now: int, draw: int) returns (otp: OtpRecord)
      requires Valid() && CreatedBy(records, now) && 0 <= draw <= 999999
      modifies this
      ensures otp.code == GenerateCode(draw)
      ensures (Table(), otp) == Generated(old(Table()), phone, t, now, otp.code)
      ensures Valid()
    {
      var code := GenerateCode(draw);
      GeneratedWellFormed(Table(), phone, t, now, code);
      records := Supersede(records, phone, t, now);
      otp := OtpRecord(nextId, phone, code, t, 0, now, now + EXPIRATION_MINUTES * MINUTE, None);
      records := records + [otp];
      nextId := nextId + 1;
      TrackRateLimit(phone, now);
    }

    method Verify(phone: string, code: string, t: OtpType, now: int) returns (otp: Option<OtpRecord>)
      requires Valid()
      modifies this
      ensures Valid()
      ensures (Table(), otp) == Verified(old(Table()), phone, code, t, now)
    {
      var found := FirstMatch(records, phone, t, code, now);
      if found.None? {
        IncrementFailedAttempt(phone, now);
        return None;
      }
      var i := found.value;
      if HasMaxAttempts(records[i], MAX_ATTEMPTS) {
        return None;
      }
      var v := MarkAsVerified(records[i], now);
      records := records[i := v];
      ClearRateLimit(phone);
      otp := Some(v);
    }

    method Cleanup(now: int) returns (deleted: int)
      requires Valid()
      modifies this`records
      ensures Valid()
      ensures (Table(), deleted) == Cleaned(old(Table()), now)
    {
      var kept := KeepRecent(records, now - CLEANUP_AGE);
      KeepRecentOrdered(records, now - CLEANUP_AGE);
      deleted := |records| - |kept|;
      records := kept;
    }

    method TrackRateLimit(phone: string, now: int)
      modifies this`cache
      ensures cache == Tracked(old(cache), phone, now)
    {
      var key := RateLimitKey(phone);
      var attempts := Counter(cache, phone, now);
      cache := cache[key := RateWindow(attempts + 1, now + RATE_LIMIT_WINDOW * MINUTE)];
    }

    method IncrementFailedAttempt(phone: string, now: int)
      requires Valid()
      modifies this`records
      ensures Valid()
      ensures records == ChargeFailure(old(records), phone, now)
    {
      var latest := LatestMatch(records, phone, None, now);
      if latest.Some? {
        records := records[latest.value := IncrementAttempts(records[latest.value])];
      }
    }

    method ClearRateLimit(phone: string)
      modifies this`cache
      ensures cache == Cleared(old(cache), phone)
    {
      cache := cache - {RateLimitKey(phone)};
    }
  }
}
