/** The neighbourhood service: a name is trimmed, its common abbreviations
    are spelled out and it is title-cased; `ensureExists` returns the bairro
    of that name or creates it, and `findOrCreate` resolves an id first and a
    name second. */
module Neighborhoods {
  import opened Common

  /** A bairro: a row of `bairros` (uuid key, name, unique slug, active
      flag defaulting to true, timestamps left out) or the model instance
      the service returns. `active` is None on an instance built by
      `create`, which holds only the attributes it was given. */
  datatype Bairro = Bairro(id: string, nome: string, slug: string, active: Option<bool>)

  // ---------------------------------------------------------------
  // The abbreviation patterns
  // ---------------------------------------------------------------

  /** PCRE's word characters when the pattern has no `u` modifier: every
      byte of a character outside ASCII is a non-word byte, so such a
      character is a non-word character. */
  predicate IsWordChar(c: char)
  {
    IsLetter(c) || IsDigit(c) || c == '_'
  }

  predicate WordAt(s: string, j: int)
  {
    0 <= j < |s| && IsWordChar(s[j])
  }

  /** `\b` at position `k`: a word character on exactly one side. */
  predicate BoundaryAt(s: string, k: int)
  {
    WordAt(s, k - 1) != WordAt(s, k)
  }

  /** An abbreviation, written in lower case, as the patterns name it. */
  predicate IsAbbreviation(abbr: string)
  {
    abbr != [] && forall i :: 0 <= i < |abbr| ==> IsLower(abbr[i])
  }

  /** `\bAbbr` under the `i` modifier at position `k`. */
  predicate AbbrevAt(s: string, abbr: string, k: nat)
  {
    k + |abbr| <= |s| && BoundaryAt(s, k) && Lower(s[k..k + |abbr|]) == abbr
  }

  /** The pattern as written, `\bAbbr\.?\b`, where the closing boundary
      comes after the optional dot; and the pattern as intended,
      `\bAbbr\b\.?`, where the dot is taken whenever it follows a complete
      abbreviation. */
  datatype Pattern = Written | Intended

  /** The length of the leftmost match of the pattern at `k`, 0 for none.
      The written pattern tries the dot first and falls back to the bare
      abbreviation when no boundary follows the dot. */
  function MatchLen(p: Pattern, s: string, abbr: string, k: nat): (n: nat)
    ensures n <= |s| - k || k > |s|
    ensures n > 0 ==> AbbrevAt(s, abbr, k)
    ensures n == 0 || n == |abbr| || (n == |abbr| + 1 && s[k + |abbr|] == '.')
  {
    if !AbbrevAt(s, abbr, k) then 0
    else
      var e := k + |abbr|;
      match p
      case Written =>
        if e < |s| && s[e] == '.' && BoundaryAt(s, e + 1) then |abbr| + 1
        else if BoundaryAt(s, e) then |abbr|
        else 0
      case Intended =>
        if !BoundaryAt(s, e) then 0
        else if e < |s| && s[e] == '.' then |abbr| + 1
        else |abbr|
  }

  /** `preg_replace` of the pattern by `full` over `s[k..]`: matches are
      taken left to right without overlap, and the boundaries are judged on
      the whole subject. */
  function Replaced(p: Pattern, s: string, abbr: string, full: string, k: nat): string
    requires k <= |s|
    decreases |s| - k
  {
    if k == |s| then ""
    else
      var n := MatchLen(p, s, abbr, k);
      if n > 0 then full + Replaced(p, s, abbr, full, k + n)
      else [s[k]] + Replaced(p, s, abbr, full, k + 1)
  }

  /** The four expansions, in the order of the source. */
  function Expanded(p: Pattern, s: string): string
  {
    var s1 := Replaced(p, s, "jd", "Jardim", 0);
    var s2 := Replaced(p, s1, "vl", "Vila", 0);
    var s3 := Replaced(p, s2, "pq", "Parque", 0);
    Replaced(p, s3, "res", "Residencial", 0)
  }

  /** The name `normalizeName` produces, with the pattern as written (a
      dotted abbreviation keeps its dot); `title` stands for
      `mb_convert_case(…, MB_CASE_TITLE)`. */
  function Normalized(name: string, title: string -> string): string
  {
    title(Expanded(Written, Trim(name)))
  }

  /** `normalizeName`: the name is rewritten step by step, trimmed, then
      each abbreviation is spelled out, then it is title-cased. */
  method NormalizeName(name: string, title: string -> string) returns (r: string)
    ensures r == Normalized(name, title)
  {
    var n := Trim(name);
    n := Replaced(Written, n, "jd", "Jardim", 0);
    n := Replaced(Written, n, "vl", "Vila", 0);
    n := Replaced(Written, n, "pq", "Parque", 0);
    n := Replaced(Written, n, "res", "Residencial", 0);
    r := title(n);
  }

  /** Where nothing matches, the replacement leaves the text as it is. */
  lemma {:induction false} NoMatchKeeps(p: Pattern, s: string, abbr: string, full: string, k: nat)
    requires k <= |s|
    requires forall j :: k <= j < |s| ==> MatchLen(p, s, abbr, j) == 0
    ensures Replaced(p, s, abbr, full, k) == s[k..]
    decreases |s| - k
  {
    if k < |s| {
      NoMatchKeeps(p, s, abbr, full, k + 1);
      assert s[k..] == [s[k]] + s[k + 1..];
    }
  }

  /** A letter of the abbreviation that no character of the text folds to
      rules out every match. */
  lemma AbsentLetterNoMatch(p: Pattern, s: string, abbr: string, k: nat, i: nat)
    requires k <= |s| && i < |abbr|
    requires forall c :: c in s[k..] ==> LowerChar(c) != abbr[i]
    ensures forall j :: k <= j < |s| ==> MatchLen(p, s, abbr, j) == 0
  {
    forall j | k <= j < |s|
      ensures MatchLen(p, s, abbr, j) == 0
    {
      if j + |abbr| <= |s| && i + j < |s| {
        assert s[j + i] == s[k..][j + i - k];
        assert Lower(s[j..j + |abbr|])[i] == LowerChar(s[j + i]);
      }
    }
  }

  /** The two patterns differ exactly on an abbreviation followed by a dot
      and then by a non-word character (a space, or the end): the written
      one leaves that dot in place, the intended one removes it. Everywhere
      else they match the same text. */
  lemma PatternsDiffer(s: string, abbr: string, k: nat)
    requires IsAbbreviation(abbr)
    ensures var e := k + |abbr|;
      (MatchLen(Written, s, abbr, k) != MatchLen(Intended, s, abbr, k)) <==>
      (AbbrevAt(s, abbr, k) && e < |s| && s[e] == '.' && !WordAt(s, e + 1))
    ensures var e := k + |abbr|;
      AbbrevAt(s, abbr, k) && e < |s| && s[e] == '.' && !WordAt(s, e + 1) ==>
        MatchLen(Written, s, abbr, k) == |abbr| && MatchLen(Intended, s, abbr, k) == |abbr| + 1
  {
    var e := k + |abbr|;
    if AbbrevAt(s, abbr, k) {
      LastLetterIsWord(s, abbr, k);
      assert WordAt(s, e - 1);
    }
  }

  /** The character that folds to the last letter of the abbreviation is a
      letter itself. */
  lemma LastLetterIsWord(s: string, abbr: string, k: nat)
    requires IsAbbreviation(abbr) && AbbrevAt(s, abbr, k)
    ensures IsLetter(s[k + |abbr| - 1])
  {
    var last := |abbr| - 1;
    assert Lower(s[k..k + |abbr|])[last] == LowerChar(s[k + last]);
  }

  /** So on "Abbr. Word" the written pattern replaces the abbreviation and
      leaves its dot after the full word. */
  lemma DotKeptAsWritten(s: string, abbr: string, full: string, k: nat)
    requires IsAbbreviation(abbr) && AbbrevAt(s, abbr, k)
    requires k + |abbr| < |s| && s[k + |abbr|] == '.' && !WordAt(s, k + |abbr| + 1)
    ensures Replaced(Written, s, abbr, full, k) == full + "." + Replaced(Written, s, abbr, full, k + |abbr| + 1)
  {
    var e := k + |abbr|;
    PatternsDiffer(s, abbr, k);
    assert !AbbrevAt(s, abbr, e) by {
      if e + |abbr| <= |s| {
        assert Lower(s[e..e + |abbr|])[0] == '.';
      }
    }
  }

  /** The intended pattern takes the dot with the abbreviation. */
  lemma DotDroppedAsIntended(s: string, abbr: string, full: string, k: nat)
    requires IsAbbreviation(abbr) && AbbrevAt(s, abbr, k)
    requires k + |abbr| < |s| && s[k + |abbr|] == '.' && !WordAt(s, k + |abbr| + 1)
    ensures Replaced(Intended, s, abbr, full, k) == full + Replaced(Intended, s, abbr, full, k + |abbr| + 1)
  {
    PatternsDiffer(s, abbr, k);
  }

  const ABBREVIATED_NAME: string := "Jd. Europa"

  /** "Jd. Europa": the written pattern gives "Jardim. Europa", the intended
      one "Jardim Europa". */
  lemma AbbreviatedNameExpansions()
    ensures Expanded(Written, ABBREVIATED_NAME) == "Jardim. Europa"
    ensures Expanded(Intended, ABBREVIATED_NAME) == "Jardim Europa"
  {
    JdPassWritten();
    JdPassIntended();
    OtherPassesKeep(Written, "Jardim. Europa");
    OtherPassesKeep(Intended, "Jardim Europa");
  }

  /** The first pass on "Jd. Europa" under the written pattern. */
  lemma JdPassWritten()
    ensures Replaced(Written, ABBREVIATED_NAME, "jd", "Jardim", 0) == "Jardim. Europa"
  {
    JdAtStart();
    RestHasNoJd(Written);
    DotKeptAsWritten(ABBREVIATED_NAME, "jd", "Jardim", 0);
    assert "Jardim" + "." + " Europa" == "Jardim. Europa";
  }

  /** The first pass on "Jd. Europa" under the intended pattern. */
  lemma JdPassIntended()
    ensures Replaced(Intended, ABBREVIATED_NAME, "jd", "Jardim", 0) == "Jardim Europa"
  {
    JdAtStart();
    RestHasNoJd(Intended);
    DotDroppedAsIntended(ABBREVIATED_NAME, "jd", "Jardim", 0);
    assert "Jardim" + " Europa" == "Jardim Europa";
  }

  lemma JdAtStart()
    ensures IsAbbreviation("jd") && AbbrevAt(ABBREVIATED_NAME, "jd", 0)
    ensures ABBREVIATED_NAME[2] == '.' && !WordAt(ABBREVIATED_NAME, 3)
  {
    var s := ABBREVIATED_NAME;
    assert s[0..2] == "Jd";
    assert Lower("Jd") == "jd";
  }

  lemma RestHasNoJd(p: Pattern)
    ensures Replaced(p, ABBREVIATED_NAME, "jd", "Jardim", 3) == " Europa"
  {
    var s := ABBREVIATED_NAME;
    assert s[3..] == " Europa";
    AbsentLetterNoMatch(p, s, "jd", 3, 0);
    NoMatchKeeps(p, s, "jd", "Jardim", 3);
  }

  /** Neither name holds a 'v', a 'q' or an 's', so the last three passes
      leave it alone. */
  lemma OtherPassesKeep(p: Pattern, s: string)
    requires s == "Jardim. Europa" || s == "Jardim Europa"
    ensures Replaced(p, Replaced(p, Replaced(p, s, "vl", "Vila", 0), "pq", "Parque", 0), "res", "Residencial", 0) == s
  {
    forall c | c in s
      ensures LowerChar(c) != 'v' && LowerChar(c) != 'q' && LowerChar(c) != 's'
    {
      var k :| 0 <= k < |s| && s[k] == c;
    }
    PassKeeps(p, s, "vl", "Vila", 0);
    PassKeeps(p, s, "pq", "Parque", 1);
    PassKeeps(p, s, "res", "Residencial", 2);
  }

  /** One pass over a text none of whose characters folds to the `i`-th
      letter of the abbreviation leaves the text alone. */
  lemma PassKeeps(p: Pattern, s: string, abbr: string, full: string, i: nat)
    requires i < |abbr| && forall c :: c in s ==> LowerChar(c) != abbr[i]
    ensures Replaced(p, s, abbr, full, 0) == s
  {
    assert s[0..] == s;
    AbsentLetterNoMatch(p, s, abbr, 0, i);
    NoMatchKeeps(p, s, abbr, full, 0);
  }

  // ---------------------------------------------------------------
  // The table
  // ---------------------------------------------------------------

  /** The lowest index of a row satisfying `p`, or -1: `->first()` and
      `find` on rows stored in creation order. */
  function FirstWhere(rows: seq<Bairro>, p: Bairro -> bool): (k: int)
    ensures -1 <= k < |rows|
    ensures k >= 0 ==> p(rows[k]) && forall j :: 0 <= j < k ==> !p(rows[j])
    ensures k == -1 ==> forall j :: 0 <= j < |rows| ==> !p(rows[j])
  {
    if |rows| == 0 then -1
    else if p(rows[0]) then 0
    else
      var k := FirstWhere(rows[1..], p);
      if k < 0 then -1 else k + 1
  }

  /** `LOWER(nome) = strtolower(name)`. */
  function NamedLike(name: string): Bairro -> bool
  {
    (b: Bairro) => Lower(b.nome) == Lower(name)
  }

  function WithId(id: string): Bairro -> bool
  {
    (b: Bairro) => b.id == id
  }

  function WithSlug(slug: string): Bairro -> bool
  {
    (b: Bairro) => b.slug == slug
  }

  /** A table as the migration keeps it: every stored row has its `active`
      column, and no two rows share a slug (the unique index). */
  predicate TableOk(rows: seq<Bairro>)
  {
    && (forall j :: 0 <= j < |rows| ==> rows[j].active.Some?)
    && (forall i, j :: 0 <= i < j < |rows| ==> rows[i].slug != rows[j].slug)
  }

  /** How `ensureExists` ends: an existing row found by name, a row just
      inserted (the instance `create` returns), or the insert failing on
      the unique slug index, a query exception that becomes a 500. */
  datatype Ensured = Existing(row: Bairro) | Inserted(row: Bairro) | SlugTaken

  /** `ensureExists`: the rows afterwards and how it ended; `slug` stands
      for `Str::slug` and `newId` for the uuid the new row gets. Of the five
      keys passed to `create`, `cidade`, `uf` and `ativo` are not fillable
      and are dropped, so the row gets only `nome` and `slug`, and `active`
      from the column default. */
  function EnsureExisted(rows: seq<Bairro>, name: string, title: string -> string,
                         slug: string -> string, newId: string): (seq<Bairro>, Ensured)
  {
    var n := Normalized(name, title);
    var k := FirstWhere(rows, NamedLike(n));
    if k >= 0 then (rows, Existing(rows[k]))
    else if FirstWhere(rows, WithSlug(slug(n))) >= 0 then (rows, SlugTaken)
    else (rows + [Bairro(newId, n, slug(n), Some(true))], Inserted(Bairro(newId, n, slug(n), None)))
  }

  /** An existing bairro whose name folds to the normalised name is returned
      and nothing is created; otherwise, when a row already has the slug of
      that name, the insert fails and nothing changes; otherwise exactly one
      row is appended with that name, its slug and active, and the instance
      returned has the same key, name and slug and no `active`. */
  lemma EnsureExistsEffect(rows: seq<Bairro>, name: string, title: string -> string,
                           slug: string -> string, newId: string)
    ensures var n := Normalized(name, title);
      var r := EnsureExisted(rows, name, title, slug, newId);
      var named := exists j :: 0 <= j < |rows| && NamedLike(n)(rows[j]);
      var taken := exists j :: 0 <= j < |rows| && rows[j].slug == slug(n);
      && (named ==> r.0 == rows && r.1.Existing? && r.1.row in rows && Lower(r.1.row.nome) == Lower(n))
      && (!named && taken ==> r.0 == rows && r.1.SlugTaken?)
      && (!named && !taken ==>
            && r.1 == Inserted(Bairro(newId, n, slug(n), None))
            && r.0 == rows + [Bairro(newId, n, slug(n), Some(true))])
      && (r.1.SlugTaken? <==> !named && taken)
  {
    var n := Normalized(name, title);
    var k := FirstWhere(rows, NamedLike(n));
    if k >= 0 {
      assert rows[k] in rows;
    } else {
      var t := FirstWhere(rows, WithSlug(slug(n)));
      if t >= 0 {
        assert rows[t].slug == slug(n);
      }
    }
  }

  /** Appending a row that has `active` and a slug no row has keeps the
      table well formed. */
  lemma AppendFreshSlug(rows: seq<Bairro>, b: Bairro)
    requires TableOk(rows)
    requires b.active.Some?
    requires forall j :: 0 <= j < |rows| ==> !WithSlug(b.slug)(rows[j])
    ensures TableOk(rows + [b])
  {
    var r := rows + [b];
    forall j | 0 <= j < |rows|
      ensures r[j].slug != r[|rows|].slug
    {
      assert !WithSlug(b.slug)(rows[j]);
    }
  }

  /** `ensureExists` keeps the table well formed: it never stores a second
      row with a slug already taken, and the row it stores has `active`. */
  lemma EnsureExistsKeepsTable(rows: seq<Bairro>, name: string, title: string -> string,
                               slug: string -> string, newId: string)
    requires TableOk(rows)
    ensures TableOk(EnsureExisted(rows, name, title, slug, newId).0)
  {
    var n := Normalized(name, title);
    if FirstWhere(rows, NamedLike(n)) < 0 && FirstWhere(rows, WithSlug(slug(n))) < 0 {
      AppendFreshSlug(rows, Bairro(newId, n, slug(n), Some(true)));
    }
  }

  /** A name that misses every row by name but whose slug a row already
      has, as "Jardim-Europa" beside "Jardim Europa", fails and creates
      nothing. */
  lemma SlugCollisionFails(rows: seq<Bairro>, name: string, title: string -> string,
                           slug: string -> string, newId: string, j: int)
    requires 0 <= j < |rows|
    requires rows[j].slug == slug(Normalized(name, title))
    requires forall i :: 0 <= i < |rows| ==> Lower(rows[i].nome) != Lower(Normalized(name, title))
    ensures EnsureExisted(rows, name, title, slug, newId) == (rows, SlugTaken)
  {
    var n := Normalized(name, title);
    assert FirstWhere(rows, NamedLike(n)) < 0;
    assert WithSlug(slug(n))(rows[j]);
  }

  /** Calling `ensureExists` twice with the same name creates at most one
      bairro: the second call finds the row the first stored, whatever key
      it would have used; a first call that failed fails again. */
  lemma EnsureExistsTwice(rows: seq<Bairro>, name: string, title: string -> string,
                          slug: string -> string, id1: string, id2: string)
    ensures var r1 := EnsureExisted(rows, name, title, slug, id1);
      var r2 := EnsureExisted(r1.0, name, title, slug, id2);
      && r2.0 == r1.0 && |r2.0| <= |rows| + 1
      && (r1.1.Existing? ==> r2.1 == r1.1)
      && (r1.1.Inserted? ==> r2.1 == Existing(r1.1.row.(active := Some(true))))
      && (r1.1.SlugTaken? ==> r2.1.SlugTaken?)
  {
    var n := Normalized(name, title);
    var r1 := EnsureExisted(rows, name, title, slug, id1);
    if FirstWhere(rows, NamedLike(n)) < 0 && FirstWhere(rows, WithSlug(slug(n))) < 0 {
      var k := FirstWhere(r1.0, NamedLike(n));
      assert NamedLike(n)(r1.0[|rows|]);
      assert k == |rows|;
    } else {
      assert r1.0 == rows;
    }
  }

  /** `findOrCreate`: an id that resolves wins; else a name goes through
      `ensureExists`; else nothing (None is the null answer). Both checks
      are PHP truthiness. */
  function FoundOrCreated(rows: seq<Bairro>, id: Option<string>, nome: Option<string>, title: string -> string,
                          slug: string -> string, newId: string): (seq<Bairro>, Option<Ensured>)
  {
    var k := if Present(id) then FirstWhere(rows, WithId(id.value)) else -1;
    if k >= 0 then (rows, Some(Existing(rows[k])))
    else if Present(nome) then
      var r := EnsureExisted(rows, nome.value, title, slug, newId);
      (r.0, Some(r.1))
    else (rows, None)
  }

  /** The resolution order, and that nothing is created when the id
      resolves or no name is given. */
  lemma FindOrCreateOrder(rows: seq<Bairro>, id: Option<string>, nome: Option<string>, title: string -> string,
                          slug: string -> string, newId: string)
    ensures var r := FoundOrCreated(rows, id, nome, title, slug, newId);
      var resolves := Present(id) && exists j :: 0 <= j < |rows| && WithId(id.value)(rows[j]);
      && (resolves ==> r.0 == rows && r.1.Some? && r.1.value.Existing? && r.1.value.row in rows
                       && r.1.value.row.id == id.value)
      && (!resolves && Present(nome) ==> r == (EnsureExisted(rows, nome.value, title, slug, newId).0,
                                             Some(EnsureExisted(rows, nome.value, title, slug, newId).1)))
      && (r.1.None? <==> !resolves && !Present(nome))
      && (r.1.None? ==> r.0 == rows)
  {
  }

  /** The bairro table the service reads and inserts into. */
  class BairroTable {
    var rows: seq<Bairro>

    constructor (initial: seq<Bairro>)
      ensures rows == initial
    {
      rows := initial;
    }

    method EnsureExists(name: string, title: string -> string, slug: string -> string, newId: string)
      returns (e: Ensured)
      modifies this
      ensures (rows, e) == EnsureExisted(old(rows), name, title, slug, newId)
    {
      var n := NormalizeName(name, title);
      var k := FirstWhere(rows, NamedLike(n));
      if k >= 0 {
        e := Existing(rows[k]);
      } else if FirstWhere(rows, WithSlug(slug(n))) >= 0 {
        e := SlugTaken;
      } else {
        rows := rows + [Bairro(newId, n, slug(n), Some(true))];
        e := Inserted(Bairro(newId, n, slug(n), None));
      }
    }

    method FindOrCreate(id: Option<string>, nome: Option<string>, title: string -> string,
                        slug: string -> string, newId: string)
      returns (b: Option<Ensured>)
      modifies this
      ensures (rows, b) == FoundOrCreated(old(rows), id, nome, title, slug, newId)
    {
      if Present(id) {
        var k := FirstWhere(rows, WithId(id.value));
        if k >= 0 {
          return Some(Existing(rows[k]));
        }
      }
      if Present(nome) {
        var found := EnsureExists(nome.value, title, slug, newId);
        return Some(found);
      }
      return None;
    }
  }
}
