/** Shared vocabulary: optional values, the clock units and the PHP string
    helpers (truthiness, digit stripping, trimming) that several components use. */
module Common {

  datatype Option<T> = None | Some(value: T)
  {
    /** PHP's `??`: the value when present, otherwise the default. */
    function GetOr(default: T): T
    {
      match this
      case Some(v) => v
      case None => default
    }
  }

  /** Clock units: the model's clock counts whole seconds. */
  const MINUTE: int := 60
  const HOUR: int := 3600
  const DAY: int := 86400

  function Max(a: int, b: int): int { if a >= b then a else b }
  function Min(a: int, b: int): int { if a <= b then a else b }

  predicate IsDigit(c: char) { '0' <= c <= '9' }

  predicate AllDigits(s: string)
  {
    forall i :: 0 <= i < |s| ==> IsDigit(s[i])
  }

  /** PHP truthiness of a string: "" and "0" are falsy. */
  predicate Truthy(s: string) { s != "" && s != "0" }

  /** PHP truthiness of a nullable string, as in `if ($x)`: null, "" and "0"
      are falsy. This is not Laravel's `filled`, see `RequestFilled`. */
  predicate Present(o: Option<string>) { o.Some? && Truthy(o.value) }

  /** Laravel's `$request->filled($key)`: the key is present and its value
      is not empty after `trim`, so "0" is filled. */
  predicate RequestFilled(o: Option<string>) { o.Some? && Trim(o.value) != "" }

  /** Laravel's `$request->boolean($key)`: `FILTER_VALIDATE_BOOLEAN` on the
      value, false when the key is absent; "1", "true", "on" and "yes" in
      any case and between white space are true. */
  predicate RequestBoolean(o: Option<string>)
  {
    o.Some? && Lower(Trim(o.value)) in {"1", "true", "on", "yes"}
  }

  /** `needle` occurs in `hay` as a contiguous run. */
  predicate Infix(needle: string, hay: string)
    decreases |hay|
  {
    needle <= hay || (hay != [] && Infix(needle, hay[1..]))
  }

  /** `Infix` holds exactly when some suffix of `hay` starts with `needle`. */
  lemma {:induction false} InfixIff(needle: string, hay: string)
    ensures Infix(needle, hay) <==> exists i :: 0 <= i <= |hay| && needle <= hay[i..]
    decreases |hay|
  {
    if needle <= hay {
      assert hay[0..] == hay;
    } else if hay == [] {
    } else {
      InfixIff(needle, hay[1..]);
      if exists i :: 0 <= i <= |hay| && needle <= hay[i..] {
        var i :| 0 <= i <= |hay| && needle <= hay[i..];
        assert i != 0;
        assert hay[1..][i - 1..] == hay[i..];
      }
      if exists i :: 0 <= i <= |hay[1..]| && needle <= hay[1..][i..] {
        var i :| 0 <= i <= |hay[1..]| && needle <= hay[1..][i..];
        assert hay[1..][i..] == hay[i + 1..];
      }
    }
  }

  /** `preg_replace('/[^0-9]/', '', s)`: keeps the digits of `s`, in order. */
  function DigitsOf(s: string): (r: string)
    ensures AllDigits(r)
    ensures |r| <= |s|
    ensures AllDigits(s) ==> r == s
  {
    if s == [] then []
    else if IsDigit(s[0]) then [s[0]] + DigitsOf(s[1..])
    else DigitsOf(s[1..])
  }

  /** The characters PHP's `trim` strips by default. */
  predicate IsTrimmed(c: char)
  {
    c == ' ' || c == '\t' || c == '\n' || c == '\r' || c == '\0' || c == '\U{000B}'
  }

  function TrimLeft(s: string): (r: string)
    ensures |r| <= |s| && r == s[|s| - |r|..]
    ensures r != [] ==> !IsTrimmed(r[0])
    ensures forall i :: 0 <= i < |s| - |r| ==> IsTrimmed(s[i])
  {
    if s != [] && IsTrimmed(s[0]) then TrimLeft(s[1..]) else s
  }

  function TrimRight(s: string): (r: string)
    ensures |r| <= |s| && r == s[..|r|]
    ensures r != [] ==> !IsTrimmed(r[|r| - 1])
    ensures forall i :: |r| <= i < |s| ==> IsTrimmed(s[i])
  {
    if s != [] && IsTrimmed(s[|s| - 1]) then TrimRight(s[..|s| - 1]) else s
  }

  /** PHP `trim($s)`. */
  function Trim(s: string): (r: string)
    ensures |r| <= |s|
    ensures r != [] ==> !IsTrimmed(r[0]) && !IsTrimmed(r[|r| - 1])
  {
    TrimRight(TrimLeft(s))
  }

  /** PHP `ltrim($s, $c)`: drops every leading `c`. */
  function LTrimChar(s: string, c: char): (r: string)
    ensures |r| <= |s| && r == s[|s| - |r|..]
    ensures r != [] ==> r[0] != c
    ensures forall i :: 0 <= i < |s| - |r| ==> s[i] == c
  {
    if s != [] && s[0] == c then LTrimChar(s[1..], c) else s
  }

  predicate IsUpper(c: char) { 'A' <= c <= 'Z' }
  predicate IsLower(c: char) { 'a' <= c <= 'z' }
  predicate IsLetter(c: char) { IsUpper(c) || IsLower(c) }

  function LowerChar(c: char): (d: char)
    ensures !IsUpper(d)
    ensures IsUpper(c) ==> IsLower(d)
    ensures !IsUpper(c) ==> d == c
  {
    if IsUpper(c) then (c as int + 32) as char else c
  }

  function UpperChar(c: char): (d: char)
    ensures !IsLower(d)
    ensures IsLower(c) ==> IsUpper(d)
    ensures !IsLower(c) ==> d == c
  {
    if IsLower(c) then (c as int - 32) as char else c
  }

  /** `strtolower`, on the ASCII letters (the only ones PHP 8 folds). */
  function Lower(s: string): (r: string)
    ensures |r| == |s|
    ensures forall i :: 0 <= i < |s| ==> r[i] == LowerChar(s[i])
  {
    seq(|s|, i requires 0 <= i < |s| => LowerChar(s[i]))
  }

  /** PHP `implode($sep, $parts)`. */
  function Join(parts: seq<string>, sep: string): string
  {
    if |parts| == 0 then ""
    else if |parts| == 1 then parts[0]
    else parts[0] + sep + Join(parts[1..], sep)
  }

  /** PHP `explode($sep, $s)` on a one-character separator. */
  function Split(s: string, sep: char): (parts: seq<string>)
    ensures |parts| >= 1
    ensures forall i :: 0 <= i < |parts| ==> sep !in parts[i]
    decreases |s|
  {
    if sep !in s then [s]
    else
      var k := IndexOf(s, sep);
      [s[..k]] + Split(s[k + 1..], sep)
  }

  function IndexOf(s: string, c: char): (k: nat)
    requires c in s
    ensures k < |s| && s[k] == c && c !in s[..k]
  {
    if s[0] == c then 0 else 1 + IndexOf(s[1..], c)
  }

  /** A decoded JSON request or response value, as PHP arrays carry it. */
  datatype Json = JNull | JBool(b: bool) | JInt(i: int) | JStr(s: string) | JObj(fields: map<string, Json>)

  /** A decoded request body. */
  type Request = map<string, Json>

  /** `$data[$key] ?? null`: an absent key reads as null. */
  function Get(m: map<string, Json>, key: string): (v: Json)
    ensures key !in m ==> v == JNull
    ensures key in m ==> v == m[key]
  {
    if key in m then m[key] else JNull
  }

  /** `isset($data[$key])`: present and not null. */
  predicate IsSet(m: map<string, Json>, key: string)
  {
    key in m && m[key] != JNull
  }

  /** The UTF-8 encoding of one character, as the bytes PHP strings hold. */
  function Utf8(c: char): (bytes: seq<int>)
    ensures 1 <= |bytes| <= 4
    ensures forall i :: 0 <= i < |bytes| ==> 0 <= bytes[i] < 256
    ensures (c as int < 0x80) <==> |bytes| == 1
    ensures |bytes| == 1 ==> bytes[0] == c as int
    ensures |bytes| > 1 ==> bytes[0] >= 0xC0 && forall k :: 1 <= k < |bytes| ==> 0x80 <= bytes[k] < 0xC0
  {
    var n := c as int;
    if n < 0x80 then [n]
    else if n < 0x800 then [0xC0 + n / 64, 0x80 + n % 64]
    else if n < 0x10000 then [0xE0 + n / 4096, 0x80 + (n / 64) % 64, 0x80 + n % 64]
    else [0xF0 + n / 262144, 0x80 + (n / 4096) % 64, 0x80 + (n / 64) % 64, 0x80 + n % 64]
  }

  /** The UTF-8 encoding of a string. */
  function Utf8Of(s: string): (bytes: seq<int>)
    ensures |bytes| >= |s|
    decreases |s|
  {
    if s == [] then [] else Utf8(s[0]) + Utf8Of(s[1..])
  }

  /** Well-formed UTF-8 as far as lead bytes go: each byte from 0xC0 up is
      followed by a continuation byte. */
  predicate LeadBytesContinued(bytes: seq<int>)
  {
    forall i :: 0 <= i < |bytes| && bytes[i] >= 0xC0 ==> i + 1 < |bytes| && 0x80 <= bytes[i + 1] < 0xC0
  }

  /** Every encoded string is well formed in that sense. */
  lemma {:induction false} EncodingContinuesLeads(s: string)
    ensures LeadBytesContinued(Utf8Of(s))
    decreases |s|
  {
    if s != [] {
      EncodingContinuesLeads(s[1..]);
      var head, tail := Utf8(s[0]), Utf8Of(s[1..]);
      assert Utf8Of(s) == head + tail;
      forall i | 0 <= i < |head + tail| && (head + tail)[i] >= 0xC0
        ensures i + 1 < |head + tail| && 0x80 <= (head + tail)[i + 1] < 0xC0
      {
        if i >= |head| {
          assert (head + tail)[i] == tail[i - |head|];
        } else {
          assert i == 0 && |head| > 1;
        }
      }
    }
  }
}
