/** The registration form request: its validation rules, the rewrite it
    applies to the input before validating (`prepareForValidation`) and the
    validated data it hands to the controller (`validated`).

    The request body is a `Request` (a map of decoded JSON values). Validation
    is modelled as the set of attributes whose rules fail; an empty set means
    the request passes. The `email` and `uuid` format checks and the database
    uniqueness checks are parameters: `isEmail`, `isUuid` and the sets of
    phones and emails already registered. */
module RegisterRequest {
  import opened Common

  /** The top-level keys that carry rules; `validated()` keeps only these. */
  const RULE_KEYS: set<string> := {"phone", "nome", "email", "password", "bairroId", "address"}
  /** The `address.*` keys that carry rules. */
  const ADDRESS_KEYS: set<string> := {"cep", "logradouro", "numero", "complemento", "bairro", "cidade", "estado"}

  const FORCED_CITY: string := "Tijucas"
  const FORCED_STATE: string := "SC"
  /** The city closure compares the trimmed, lower-cased value with these. */
  const ACCEPTED_CITIES: set<string> := {"tijucas", "tijucas/sc"}

  // ---------------------------------------------------------------------
  // Rules
  // ---------------------------------------------------------------------

  /** `preg_match('/^[0-9]{lo,hi}$/', s)`: without the `D` modifier `$` also
      matches just before one final newline. */
  predicate DigitRun(s: string, lo: nat, hi: nat)
  {
    (AllDigits(s) && lo <= |s| <= hi)
    || (|s| > 0 && s[|s| - 1] == '\n' && AllDigits(s[..|s| - 1]) && lo <= |s| - 1 <= hi)
  }

  /** `required|string`: a string that is not blank. */
  predicate RequiredString(v: Json)
  {
    v.JStr? && Trim(v.s) != ""
  }

  /** `nullable|string|max:n`. */
  predicate NullableString(v: Json, max: nat)
  {
    v == JNull || (v.JStr? && |v.s| <= max)
  }

  /** `phone`: required, string, 10 or 11 digits, not yet registered. */
  predicate PhoneOk(v: Json, phones: set<string>)
  {
    RequiredString(v) && DigitRun(v.s, 10, 11) && v.s !in phones
  }

  /** `nome`: required, string, 2 to 100 characters. */
  predicate NomeOk(v: Json)
  {
    RequiredString(v) && 2 <= |v.s| <= 100
  }

  /** `email`: nullable, an email address, not yet registered. */
  predicate EmailOk(v: Json, emails: set<string>, isEmail: string -> bool)
  {
    v == JNull || (v.JStr? && isEmail(v.s) && v.s !in emails)
  }

  /** `password`: required, string, at least 8 characters, equal to
      `password_confirmation`. */
  predicate PasswordOk(v: Json, confirmation: Json)
  {
    RequiredString(v) && |v.s| >= 8 && confirmation == v
  }

  /** `bairroId`: nullable uuid. */
  predicate BairroIdOk(v: Json, isUuid: string -> bool)
  {
    v == JNull || (v.JStr? && isUuid(v.s))
  }

  /** `address.cep`: nullable, eight digits. */
  predicate CepOk(v: Json)
  {
    v == JNull || (v.JStr? && DigitRun(v.s, 8, 8))
  }

  /** The city closure runs only on a truthy value; a truthy city must trim
      and lower-case to an accepted name. */
  predicate CityClosure(v: Json)
  {
    !(v.JStr? && Truthy(v.s)) || Lower(Trim(v.s)) in ACCEPTED_CITIES
  }

  /** `address.cidade`: nullable, string, at most 100 characters, the closure. */
  predicate CityOk(v: Json)
  {
    NullableString(v, 100) && CityClosure(v)
  }

  /** `address.estado`: nullable, string of exactly two characters. */
  predicate StateOk(v: Json)
  {
    v == JNull || (v.JStr? && |v.s| == 2)
  }

  /** The fields of `address` when it is an object; the nested rules see null otherwise. */
  function AddressFields(d: Request): map<string, Json>
  {
    var a := Get(d, "address");
    if a.JObj? then a.fields else map[]
  }

  /** The attributes that carry rules, nested `address.*` ones included. */
  datatype Attribute = Phone | Nome | Email | Password | BairroId | Address
                     | Cep | Logradouro | Numero | Complemento | Bairro | Cidade | Estado

  /** Whether the rules of one attribute pass on the input. */
  predicate Passes(d: Request, attr: Attribute, phones: set<string>, emails: set<string>,
                   isEmail: string -> bool, isUuid: string -> bool)
  {
    var a := AddressFields(d);
    match attr
    case Phone => PhoneOk(Get(d, "phone"), phones)
    case Nome => NomeOk(Get(d, "nome"))
    case Email => EmailOk(Get(d, "email"), emails, isEmail)
    case Password => PasswordOk(Get(d, "password"), Get(d, "password_confirmation"))
    case BairroId => BairroIdOk(Get(d, "bairroId"), isUuid)
    case Address => Get(d, "address") == JNull || Get(d, "address").JObj?
    case Cep => CepOk(Get(a, "cep"))
    case Logradouro => NullableString(Get(a, "logradouro"), 255)
    case Numero => NullableString(Get(a, "numero"), 20)
    case Complemento => NullableString(Get(a, "complemento"), 100)
    case Bairro => NullableString(Get(a, "bairro"), 100)
    case Cidade => CityOk(Get(a, "cidade"))
    case Estado => StateOk(Get(a, "estado"))
  }

  /** The attributes whose rules fail; the request passes when there are none. */
  function Failures(d: Request, phones: set<string>, emails: set<string>,
                    isEmail: string -> bool, isUuid: string -> bool): (f: set<Attribute>)
    ensures forall attr :: attr in f <==> !Passes(d, attr, phones, emails, isEmail, isUuid)
  {
    set attr: Attribute | !Passes(d, attr, phones, emails, isEmail, isUuid)
  }

  // ---------------------------------------------------------------------
  // prepareForValidation and validated
  // ---------------------------------------------------------------------

  /** `$address['cidade'] = 'Tijucas'; $address['estado'] = 'SC';` on the
      submitted address: an array gets both keys overwritten, null (or false)
      becomes a new array of the two, any other scalar raises. */
  function ForceCity(a: Json): (r: Option<Json>)
    ensures r.Some? ==> r.value.JObj? && Get(r.value.fields, "cidade") == JStr(FORCED_CITY)
                        && Get(r.value.fields, "estado") == JStr(FORCED_STATE)
  {
    assert "cidade"[0] != "estado"[0];
    match a
    case JObj(m) => Some(JObj(m["cidade" := JStr(FORCED_CITY)]["estado" := JStr(FORCED_STATE)]))
    case JNull => Some(JObj(map["cidade" := JStr(FORCED_CITY), "estado" := JStr(FORCED_STATE)]))
    case JBool(b) => if b then None else Some(JObj(map["cidade" := JStr(FORCED_CITY), "estado" := JStr(FORCED_STATE)]))
    case _ => None
  }

  /** `prepareForValidation`: force the city, then copy `bairroId` to `bairro_id`.
      None when the address rewrite raises. */
  function Prepared(d: Request): Option<Request>
  {
    var withAddress :=
      if "address" in d then
        match ForceCity(d["address"])
        case Some(a) => Some(d["address" := a])
        case None => None
      else Some(d);
    match withAddress
    case None => None
    case Some(d1) => Some(if "bairroId" in d1 then d1["bairro_id" := d1["bairroId"]] else d1)
  }

  /** The `address` entry of `validated()`, None when it has none. A null
      address is kept as null. Any other value carries the `array` rule and
      nested rules, so the validator does not copy it whole: it rebuilds it
      from the ruled `address.*` keys present, and the override then forces
      the city and state into the rebuilt array. */
  function ValidatedAddress(a: Json): Option<Json>
  {
    if a == JNull then Some(JNull)
    else if !a.JObj? then None
    else
      var kept := map k | k in a.fields && k in ADDRESS_KEYS :: a.fields[k];
      if kept == map[] then None
      else Some(JObj(kept["cidade" := JStr(FORCED_CITY)]["estado" := JStr(FORCED_STATE)]))
  }

  /** `validated()`: the submitted top-level keys that carry rules, and the
      address as the validator rebuilds it. */
  function ValidatedData(d: Request): Request
  {
    var top := map k | k in d && k in RULE_KEYS && k != "address" :: d[k];
    if "address" !in d then top
    else
      match ValidatedAddress(d["address"])
      case None => top
      case Some(a) => top["address" := a]
  }

  // ---------------------------------------------------------------------
  // Properties
  // ---------------------------------------------------------------------

  /** An accepted phone is 10 or 11 ASCII digits (the pattern's `$` also lets
      one trailing newline through) and not yet registered. */
  lemma PhoneAccepted(d: Request, phones: set<string>, emails: set<string>, isEmail: string -> bool, isUuid: string -> bool)
    ensures Phone !in Failures(d, phones, emails, isEmail, isUuid) <==>
      exists s :: Get(d, "phone") == JStr(s) && s !in phones && DigitRun(s, 10, 11)
  {
    var v := Get(d, "phone");
    if v.JStr? && v.s !in phones && DigitRun(v.s, 10, 11) {
      assert Trim(v.s) != "" by {
        if AllDigits(v.s) && 10 <= |v.s| {
          assert !IsTrimmed(v.s[0]);
          assert TrimLeft(v.s) == v.s;
          assert !IsTrimmed(v.s[|v.s| - 1]);
        } else {
          assert !IsTrimmed(v.s[0]);
          assert TrimLeft(v.s) == v.s;
          assert v.s[..|v.s| - 1] != [] && !IsTrimmed(v.s[|v.s| - 2]);
          TrimRightKeeps(v.s, |v.s| - 2);
        }
      }
    }
  }

  /** `TrimRight` keeps every character up to a non-blank one. */
  lemma {:induction false} TrimRightKeeps(s: string, k: nat)
    requires k < |s| && !IsTrimmed(s[k])
    ensures |TrimRight(s)| > k
    decreases |s|
  {
    if s != [] && IsTrimmed(s[|s| - 1]) {
      TrimRightKeeps(s[..|s| - 1], k);
    }
  }

  /** The name must be 2 to 100 characters and not blank; the password at
      least 8 characters, not blank, and repeated in `password_confirmation`. */
  lemma NameAndPasswordRules(d: Request, phones: set<string>, emails: set<string>, isEmail: string -> bool, isUuid: string -> bool)
    ensures Nome !in Failures(d, phones, emails, isEmail, isUuid) <==>
      Get(d, "nome").JStr? && 2 <= |Get(d, "nome").s| <= 100 && Trim(Get(d, "nome").s) != ""
    ensures Password !in Failures(d, phones, emails, isEmail, isUuid) <==>
      Get(d, "password").JStr? && |Get(d, "password").s| >= 8 && Trim(Get(d, "password").s) != ""
      && Get(d, "password_confirmation") == Get(d, "password")
  {
  }

  /** `trim` leaves a string alone whose ends are not blank. */
  lemma TrimNoop(s: string)
    requires s != [] && !IsTrimmed(s[0]) && !IsTrimmed(s[|s| - 1])
    ensures Trim(s) == s
  {
    assert TrimLeft(s) == s;
  }

  /** The forced city passes the closure; a city that lower-cases to neither
      accepted name fails it. */
  lemma CityClosureCases()
    ensures CityClosure(JStr(FORCED_CITY))
    ensures CityClosure(JStr("TIJUCAS/SC"))
    ensures !CityClosure(JStr("Itajai"))
  {
    ForcedCityCloses();
    UpperCityCloses();
    OtherCityFails();
  }

  /** A city whose ends are not blank lower-cases as it is. */
  lemma LowerTrimmed(s: string, t: string)
    requires s != [] && !IsTrimmed(s[0]) && !IsTrimmed(s[|s| - 1])
    requires Lower(s) == t
    ensures Lower(Trim(s)) == t
  {
    TrimNoop(s);
  }

  lemma ForcedCityCloses()
    ensures Lower(Trim(FORCED_CITY)) == "tijucas"
  {
    var s := FORCED_CITY;
    var l := Lower(s);
    forall i | 0 <= i < 7
      ensures l[i] == "tijucas"[i]
    {
      assert l[i] == LowerChar(s[i]);
    }
    LowerTrimmed(s, "tijucas");
  }

  lemma UpperCityCloses()
    ensures Lower(Trim("TIJUCAS/SC")) == "tijucas/sc"
  {
    var s := "TIJUCAS/SC";
    var l := Lower(s);
    forall i | 0 <= i < 10
      ensures l[i] == "tijucas/sc"[i]
    {
      assert l[i] == LowerChar(s[i]);
    }
    LowerTrimmed(s, "tijucas/sc");
  }

  lemma OtherCityFails()
    ensures Lower(Trim("Itajai")) == "itajai"
  {
    var s := "Itajai";
    var l := Lower(s);
    forall i | 0 <= i < 6
      ensures l[i] == "itajai"[i]
    {
      assert l[i] == LowerChar(s[i]);
    }
    LowerTrimmed(s, "itajai");
  }

  /** After `prepareForValidation` a submitted address always has city
      'Tijucas' and state 'SC', so the city and state rules always pass. */
  lemma PreparedCityPasses(d: Request, phones: set<string>, emails: set<string>, isEmail: string -> bool, isUuid: string -> bool)
    requires "address" in d && Prepared(d).Some?
    ensures var p := Prepared(d).value;
      && "address" in p && p["address"].JObj?
      && Get(p["address"].fields, "cidade") == JStr(FORCED_CITY)
      && Get(p["address"].fields, "estado") == JStr(FORCED_STATE)
      && Passes(p, Cidade, phones, emails, isEmail, isUuid)
      && Passes(p, Estado, phones, emails, isEmail, isUuid)
      && Passes(p, Address, phones, emails, isEmail, isUuid)
  {
    PreparedAddress(d);
    ForcedAddressPasses(Prepared(d).value, phones, emails, isEmail, isUuid);
  }

  /** The address `prepareForValidation` leaves in the input. */
  lemma PreparedAddress(d: Request)
    requires "address" in d && Prepared(d).Some?
    ensures ForceCity(d["address"]).Some?
    ensures "address" in Prepared(d).value && Prepared(d).value["address"] == ForceCity(d["address"]).value
  {
    var a := ForceCity(d["address"]).value;
    var d1 := d["address" := a];
    assert "bairro_id"[0] != "address"[0];
    var p := Prepared(d).value;
    assert p == if "bairroId" in d1 then d1["bairro_id" := d1["bairroId"]] else d1;
    if "bairroId" in d1 {
      assert p["address"] == d1["address"];
    }
  }

  /** An address with the forced city and state passes the address rules. */
  lemma ForcedAddressPasses(p: Request, phones: set<string>, emails: set<string>, isEmail: string -> bool, isUuid: string -> bool)
    requires "address" in p && p["address"].JObj?
    requires Get(p["address"].fields, "cidade") == JStr(FORCED_CITY)
    requires Get(p["address"].fields, "estado") == JStr(FORCED_STATE)
    ensures Passes(p, Cidade, phones, emails, isEmail, isUuid)
    ensures Passes(p, Estado, phones, emails, isEmail, isUuid)
    ensures Passes(p, Address, phones, emails, isEmail, isUuid)
  {
    CityClosureCases();
    assert AddressFields(p) == p["address"].fields;
  }

  /** `prepareForValidation` changes nothing but `address` and `bairro_id`;
      it copies a submitted `bairroId` to `bairro_id`, and keeps every other
      address key. */
  lemma PreparedChangesOnlyAddress(d: Request)
    requires Prepared(d).Some?
    ensures var p := Prepared(d).value;
      && (forall k :: k in d && k != "address" && k != "bairro_id" ==> k in p && p[k] == d[k])
      && (forall k :: k in p ==> k in d || k == "bairro_id" || k == "address")
      && ("bairroId" in d ==> "bairro_id" in p && p["bairro_id"] == d["bairroId"])
      && ("bairroId" !in d ==> ("bairro_id" in p <==> "bairro_id" in d))
      && ("address" in d && d["address"].JObj? ==>
            forall k :: k in d["address"].fields && k != "cidade" && k != "estado" ==>
              k in p["address"].fields && p["address"].fields[k] == d["address"].fields[k])
  {
  }

  /** `validated()` keeps only ruled keys, each unchanged but the address.
      A null address stays null. An address array is rebuilt from its ruled
      keys only, with city 'Tijucas' and state 'SC'; any other key of it is
      dropped, and an array with no ruled key leaves no address at all. */
  lemma ValidatedShape(d: Request)
    ensures var v := ValidatedData(d);
      && (forall k :: k != "address" ==> (k in v <==> k in d && k in RULE_KEYS))
      && (forall k :: k in v && k != "address" ==> v[k] == d[k])
      && ("address" in v ==> "address" in d)
      && ("address" in d && d["address"] == JNull ==> "address" in v && v["address"] == JNull)
      && ("address" in d && !d["address"].JObj? && d["address"] != JNull ==> "address" !in v)
      && ("address" in d && d["address"].JObj? ==>
            var f := d["address"].fields;
            && ("address" in v <==> exists k :: k in f && k in ADDRESS_KEYS)
            && ("address" in v ==>
                  && v["address"].JObj?
                  && v["address"].fields.Keys == f.Keys * ADDRESS_KEYS + {"cidade", "estado"}
                  && v["address"].fields["cidade"] == JStr(FORCED_CITY)
                  && v["address"].fields["estado"] == JStr(FORCED_STATE)
                  && forall k :: k in f && k in ADDRESS_KEYS && k != "cidade" && k != "estado" ==>
                       v["address"].fields[k] == f[k]))
  {
    if "address" in d && d["address"].JObj? {
      var f := d["address"].fields;
      var kept := map k | k in f && k in ADDRESS_KEYS :: f[k];
      if exists k :: k in f && k in ADDRESS_KEYS {
        var k :| k in f && k in ADDRESS_KEYS;
        assert k in kept;
      } else {
        assert kept == map[];
      }
    }
  }

  /** The fields the controller reads from the validated data: the phone as
      submitted, never a `bairro_id`, and an address of ruled keys only. */
  lemma ValidatedFields(d: Request)
    ensures Get(ValidatedData(d), "phone") == Get(d, "phone")
    ensures "bairro_id" !in ValidatedData(d)
    ensures var a := Get(ValidatedData(d), "address"); a.JObj? ==> a.fields.Keys <= ADDRESS_KEYS
  {
    var v := ValidatedData(d);
    assert "phone"[0] != "address"[0];
    if "address" in d {
      var a := d["address"];
      if a.JObj? {
        var kept := map k | k in a.fields && k in ADDRESS_KEYS :: a.fields[k];
        assert kept.Keys <= ADDRESS_KEYS;
      }
    }
  }

  /** After `prepareForValidation` an address always has its city and state,
      so the validated data keeps exactly the ruled keys of the submitted
      address, with the forced city and state; an unruled key never reaches
      the account. */
  lemma PreparedAddressValidated(d: Request)
    requires "address" in d && d["address"].JObj? && Prepared(d).Some?
    ensures var v := ValidatedData(Prepared(d).value);
      var f := d["address"].fields;
      && "address" in v && v["address"].JObj?
      && v["address"].fields.Keys == f.Keys * ADDRESS_KEYS + {"cidade", "estado"}
      && v["address"].fields["cidade"] == JStr(FORCED_CITY)
      && v["address"].fields["estado"] == JStr(FORCED_STATE)
      && forall k :: k in f && k in ADDRESS_KEYS && k != "cidade" && k != "estado" ==> v["address"].fields[k] == f[k]
  {
    PreparedAddress(d);
    var p := Prepared(d).value;
    var f := d["address"].fields;
    var pf := p["address"].fields;
    assert pf == f["cidade" := JStr(FORCED_CITY)]["estado" := JStr(FORCED_STATE)];
    assert "cidade" in pf && "cidade" in ADDRESS_KEYS;
    ValidatedShape(p);
    assert pf.Keys * ADDRESS_KEYS + {"cidade", "estado"} == f.Keys * ADDRESS_KEYS + {"cidade", "estado"};
  }

  /** The copy made by `prepareForValidation` never reaches the validated
      data: `bairro_id` carries no rule, so `validated()` drops it. */
  lemma BairroIdDropped(d: Request)
    requires Prepared(d).Some? && "bairroId" in d
    ensures "bairro_id" in Prepared(d).value
    ensures "bairro_id" !in ValidatedData(Prepared(d).value)
  {
  }

  // ---------------------------------------------------------------------
  // The request object
  // ---------------------------------------------------------------------

  /** The form request holds the input it validates; `prepareForValidation`
      merges its rewrites into that input. */
  class RegisterForm {
    var input: Request

    constructor (body: Request)
      ensures input == body
    {
      input := body;
    }

    /** Returns false when the address rewrite raises, leaving the input as it was. */
    method PrepareForValidation() returns (ok: bool)
      modifies this
      ensures ok <==> Prepared(old(input)).Some?
      ensures ok ==> input == Prepared(old(input)).value
      ensures !ok ==> input == old(input)
    {
      if "address" in input {
        var forced := ForceCity(input["address"]);
        if forced.None? {
          return false;
        }
        input := input["address" := forced.value];
      }
      if "bairroId" in input {
        input := input["bairro_id" := input["bairroId"]];
      }
      ok := true;
    }

    /** `validated()` on the current input: the validator's data, then the
        override that forces the city and state of a set address. */
    method Validated() returns (v: Request)
      ensures v == ValidatedData(input)
      ensures forall k :: k in v ==> k in RULE_KEYS && k in input
      ensures "address" in v && v["address"] != JNull ==>
        v["address"].JObj? && v["address"].fields.Keys <= ADDRESS_KEYS
        && v["address"].fields["cidade"] == JStr(FORCED_CITY) && v["address"].fields["estado"] == JStr(FORCED_STATE)
    {
      v := map k | k in input && k in RULE_KEYS && k != "address" :: input[k];
      if "address" in input {
        var a := input["address"];
        if a == JNull {
          v := v["address" := JNull];
        } else if a.JObj? {
          var kept := map k | k in a.fields && k in ADDRESS_KEYS :: a.fields[k];
          if kept != map[] {
            kept := kept["cidade" := JStr(FORCED_CITY)];
            kept := kept["estado" := JStr(FORCED_STATE)];
            v := v["address" := JObj(kept)];
          }
        }
      }
    }
  }
}
