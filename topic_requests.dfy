/** The form request that guards topic edits: authorisation through the
    topic policy, the field rules, and the after-validation check of the
    24-hour edit window. */
module TopicRequests {
  import opened Common
  import opened Users
  import Topics
  import Policies

  // ---------------------------------------------------------------
  // The title pattern `[a-zA-ZÀ-ÿ]+`
  // ---------------------------------------------------------------

  /** The byte class the pattern denotes when PCRE reads it without the `u`
      modifier: the ASCII letters, the range from byte 0x80 (the second byte
      of 'À') to byte 0xC3 (the first byte of 'ÿ'), and byte 0xBF. */
  predicate InByteClass(b: int)
  {
    (0x41 <= b <= 0x5A) || (0x61 <= b <= 0x7A) || (0x80 <= b <= 0xC3) || b == 0xBF
  }

  /** The title rule as written: some byte of the UTF-8 title falls in the
      class. */
  predicate TitleHasLetterAsWritten(s: string)
  {
    exists i, j :: 0 <= i < |s| && 0 <= j < |Utf8(s[i])| && InByteClass(Utf8(s[i])[j])
  }

  /** A character matches the byte-wise pattern exactly when it is an ASCII
      letter or any character outside ASCII. */
  lemma CharMatchesBytewise(c: char)
    ensures (exists j :: 0 <= j < |Utf8(c)| && InByteClass(Utf8(c)[j])) <==> IsLetter(c) || c as int >= 0x80
  {
    var bytes := Utf8(c);
    if c as int >= 0x80 {
      assert InByteClass(bytes[|bytes| - 1]);
    } else {
      assert |bytes| == 1 && bytes[0] == c as int;
    }
  }

  /** So the title rule as written accepts every title holding an ASCII
      letter or any non-ASCII character at all, emoji included. */
  lemma TitleRuleAsWrittenReading(s: string)
    ensures TitleHasLetterAsWritten(s) <==> exists i :: 0 <= i < |s| && (IsLetter(s[i]) || s[i] as int >= 0x80)
  {
    forall i | 0 <= i < |s|
      ensures (exists j :: 0 <= j < |Utf8(s[i])| && InByteClass(Utf8(s[i])[j])) <==> IsLetter(s[i]) || s[i] as int >= 0x80
    {
      CharMatchesBytewise(s[i]);
    }
  }

  /** The rule as intended (a letter, "not just emojis"): an ASCII letter
      or a character from 'À' (U+00C0) to 'ÿ' (U+00FF). */
  predicate TitleHasLetter(s: string)
  {
    exists i :: 0 <= i < |s| && (IsLetter(s[i]) || 0xC0 <= s[i] as int <= 0xFF)
  }

  /** Every title the intended rule accepts, the written one accepts too. */
  lemma IntendedIsStricter(s: string)
    ensures TitleHasLetter(s) ==> TitleHasLetterAsWritten(s)
  {
    TitleRuleAsWrittenReading(s);
  }

  /** A title of five emoji passes the rule as written, and fails the rule
      as intended. */
  lemma EmojiTitlePasses()
    ensures TitleHasLetterAsWritten(EMOJI_TITLE) && !TitleHasLetter(EMOJI_TITLE)
  {
    TitleRuleAsWrittenReading(EMOJI_TITLE);
    assert EMOJI_TITLE[0] as int >= 0x80;
  }

  const EMOJI_TITLE: string := "\U{1F600}\U{1F600}\U{1F600}\U{1F600}\U{1F600}"

  // ---------------------------------------------------------------
  // The rules
  // ---------------------------------------------------------------

  /** The fields the rules name, in the order they are declared. */
  const RULE_KEYS: seq<string> := ["titulo", "texto", "categoria", "fotoUrl"]

  /** `sometimes|string|min:5|max:150|regex:…`, with the pattern read
      byte-wise, as PCRE reads it without the `u` modifier. */
  predicate TituloOk(input: Request)
  {
    "titulo" !in input ||
    (input["titulo"].JStr? && 5 <= |input["titulo"].s| <= 150 && TitleHasLetterAsWritten(input["titulo"].s))
  }

  /** `sometimes|string|min:10|max:5000`. */
  predicate TextoOk(input: Request)
  {
    "texto" !in input || (input["texto"].JStr? && 10 <= |input["texto"].s| <= 5000)
  }

  /** `sometimes|string|in:<category values>`. */
  predicate CategoriaOk(input: Request)
  {
    "categoria" !in input || (input["categoria"].JStr? && Topics.CategoryFrom(input["categoria"].s).Some?)
  }

  /** `nullable|string|url|max:500`; `isUrl` stands for the URL rule. */
  predicate FotoUrlOk(input: Request, isUrl: string -> bool)
  {
    "fotoUrl" !in input || input["fotoUrl"].JNull? ||
    (input["fotoUrl"].JStr? && isUrl(input["fotoUrl"].s) && |input["fotoUrl"].s| <= 500)
  }

  /** The fields whose rules fail. */
  function RuleFailures(input: Request, isUrl: string -> bool): (errs: set<string>)
    ensures "titulo" in errs <==> !TituloOk(input)
    ensures "texto" in errs <==> !TextoOk(input)
    ensures "categoria" in errs <==> !CategoriaOk(input)
    ensures "fotoUrl" in errs <==> !FotoUrlOk(input, isUrl)
    ensures errs <= {"titulo", "texto", "categoria", "fotoUrl"}
  {
    (if TituloOk(input) then {} else {"titulo"})
    + (if TextoOk(input) then {} else {"texto"})
    + (if CategoriaOk(input) then {} else {"categoria"})
    + (if FotoUrlOk(input, isUrl) then {} else {"fotoUrl"})
  }

  /** `validated()`: the input keys the rules name, and no other. */
  function Validated(input: Request): (v: Request)
    ensures forall k :: k in v <==> k in input && k in RULE_KEYS
    ensures forall k :: k in v ==> v[k] == input[k]
  {
    map k | k in input && k in RULE_KEYS :: input[k]
  }

  /** The after-validation hook: a 'topic' error for anyone without a staff
      role once the edit window has closed. */
  predicate EditWindowError(u: User, t: Topics.Topic, now: int)
  {
    !IsStaff(u) && !Topics.IsEditableByAuthor(t, now)
  }

  /** The outcome of resolving the request. */
  datatype RequestOutcome = Forbidden | Invalid(errors: set<string>) | Accepted(data: Request)

  /** Resolving the form request: authorisation first (a refusal is a 403),
      then the rules together with the after-validation hook (a 422 listing
      every failing field), then the validated data. */
  function Resolved(u: User, t: Topics.Topic, input: Request, now: int, isUrl: string -> bool): RequestOutcome
  {
    if !Policies.TopicUpdate(u, t, now) then Forbidden
    else
      var errs := RuleFailures(input, isUrl) + (if EditWindowError(u, t, now) then {"topic"} else {});
      if errs != {} then Invalid(errs) else Accepted(Validated(input))
  }

  /** `authorize` is exactly the topic policy's `update`. */
  lemma AuthorizeIsUpdatePolicy(u: User, t: Topics.Topic, input: Request, now: int, isUrl: string -> bool)
    ensures Resolved(u, t, input, now, isUrl).Forbidden? <==> !Policies.TopicUpdate(u, t, now)
  {
  }

  /** Staff never get the edit-window error. */
  lemma StaffHaveNoEditWindow(u: User, t: Topics.Topic, now: int)
    requires IsStaff(u)
    ensures !EditWindowError(u, t, now)
  {
  }

  /** Authorisation runs before validation and already demands the edit
      window of anyone without a staff role, so an author past 24 hours is
      refused with a 403 and the 'topic' error is never reported. */
  lemma EditWindowErrorUnreachable(u: User, t: Topics.Topic, input: Request, now: int, isUrl: string -> bool)
    ensures !IsStaff(u) && now - t.createdAt > 24 * HOUR ==> Resolved(u, t, input, now, isUrl).Forbidden?
    ensures Resolved(u, t, input, now, isUrl).Invalid? ==> "topic" !in Resolved(u, t, input, now, isUrl).errors
  {
    Topics.EditWindow(t, now);
  }

  /** Accepted data carries only fields that passed their rules: a title of
      5 to 150 characters holding an ASCII letter or some non-ASCII
      character, a text of 10 to 5000 characters and a known category, each
      when supplied. */
  lemma AcceptedFields(u: User, t: Topics.Topic, input: Request, now: int, isUrl: string -> bool)
    requires Resolved(u, t, input, now, isUrl).Accepted?
    ensures var v := Resolved(u, t, input, now, isUrl).data;
      ("titulo" in v ==> v["titulo"].JStr? && 5 <= |v["titulo"].s| <= 150
                         && exists i :: 0 <= i < |v["titulo"].s| && (IsLetter(v["titulo"].s[i]) || v["titulo"].s[i] as int >= 0x80))
      && ("texto" in v ==> v["texto"].JStr? && 10 <= |v["texto"].s| <= 5000)
      && ("categoria" in v ==> v["categoria"].JStr? && Topics.CategoryFrom(v["categoria"].s).Some?)
      && ("fotoUrl" in v ==> v["fotoUrl"].JNull? || v["fotoUrl"].JStr?)
      && (forall k :: k in v <==> k in input && k in RULE_KEYS)
  {
    if "titulo" in input {
      TitleRuleAsWrittenReading(input["titulo"].s);
    }
  }

  /** The edit form accepts a title of five emoji: with the other fields
      absent, a title of only emoji reaches the topic. */
  lemma EmojiTitleAccepted(u: User, t: Topics.Topic, now: int, isUrl: string -> bool)
    requires Policies.TopicUpdate(u, t, now) && !EditWindowError(u, t, now)
    ensures Resolved(u, t, map["titulo" := JStr(EMOJI_TITLE)], now, isUrl) == Accepted(map["titulo" := JStr(EMOJI_TITLE)])
  {
    var input := map["titulo" := JStr(EMOJI_TITLE)];
    EmojiTitlePasses();
    assert TituloOk(input);
    assert RuleFailures(input, isUrl) == {};
    assert Validated(input) == input;
  }
}
