/** The profile endpoints of the user controller: the field mapping of
    `update` and the settings merge of `updateNotifications`. */
module UserProfile {
  import opened Common
  import opened Users

  /** `$validated['bairro_id'] ?? $validated['bairroId'] ?? null`. */
  function BairroIdOf(validated: Request): (j: Json)
    ensures IsSet(validated, "bairro_id") ==> j == validated["bairro_id"]
    ensures !IsSet(validated, "bairro_id") && IsSet(validated, "bairroId") ==> j == validated["bairroId"]
    ensures !IsSet(validated, "bairro_id") && !IsSet(validated, "bairroId") ==> j == JNull
  {
    if IsSet(validated, "bairro_id") then validated["bairro_id"]
    else if IsSet(validated, "bairroId") then validated["bairroId"]
    else JNull
  }

  /** The `$data` array `update` passes to the model: `nome` when it is set
      and not null, `email` and `address` whenever their key is present,
      `bairro_id` whenever either spelling is present, and nothing else. */
  function ProfileData(validated: Request): (data: map<string, Json>)
    ensures "nome" in data <==> IsSet(validated, "nome")
    ensures "nome" in data ==> data["nome"] == validated["nome"]
    ensures "email" in data <==> "email" in validated
    ensures "email" in data ==> data["email"] == validated["email"]
    ensures "bairro_id" in data <==> "bairro_id" in validated || "bairroId" in validated
    ensures "bairro_id" in data ==> data["bairro_id"] == BairroIdOf(validated)
    ensures "address" in data <==> "address" in validated
    ensures "address" in data ==> data["address"] == validated["address"]
    ensures data.Keys <= {"nome", "email", "bairro_id", "address"}
  {
    var d0: map<string, Json> := map[];
    var d1 := if IsSet(validated, "nome") then d0["nome" := validated["nome"]] else d0;
    var d2 := if "email" in validated then d1["email" := validated["email"]] else d1;
    var d3 := if "bairro_id" in validated || "bairroId" in validated then d2["bairro_id" := BairroIdOf(validated)] else d2;
    if "address" in validated then d3["address" := validated["address"]] else d3
  }

  /** A nullable string column written from a JSON value. */
  function TextOf(j: Json): Option<string>
  {
    if j.JStr? then Some(j.s) else None
  }

  /** The `address` column, cast as an array. */
  function AddressOf(j: Json): Option<map<string, Json>>
  {
    if j.JObj? then Some(j.fields) else None
  }

  /** `$user->update($data)`: each key given writes its column; all four
      keys are fillable. */
  function ProfileApplied(u: User, data: map<string, Json>): (v: User)
    ensures v.id == u.id && v.phone == u.phone && v.password == u.password
    ensures v.phoneVerified == u.phoneVerified && v.phoneVerifiedAt == u.phoneVerifiedAt
    ensures v.roles == u.roles && v.notificationSettings == u.notificationSettings
    ensures v.nome == (if "nome" in data then TextOf(data["nome"]) else u.nome)
    ensures v.email == (if "email" in data then TextOf(data["email"]) else u.email)
    ensures v.bairroId == (if "bairro_id" in data then TextOf(data["bairro_id"]) else u.bairroId)
    ensures v.address == (if "address" in data then AddressOf(data["address"]) else u.address)
  {
    u.(nome := if "nome" in data then TextOf(data["nome"]) else u.nome,
       email := if "email" in data then TextOf(data["email"]) else u.email,
       bairroId := if "bairro_id" in data then TextOf(data["bairro_id"]) else u.bairroId,
       address := if "address" in data then AddressOf(data["address"]) else u.address)
  }

  /** What a profile update does to the row: a null name is ignored, a null
      email, bairro or address clears the column, the bairro is read from
      either spelling, and an empty request changes nothing. */
  lemma ProfileUpdateEffect(u: User, validated: Request)
    ensures var v := ProfileApplied(u, ProfileData(validated));
      && (!IsSet(validated, "nome") ==> v.nome == u.nome)
      && (IsSet(validated, "nome") && validated["nome"].JStr? ==> v.nome == Some(validated["nome"].s))
      && ("email" in validated && validated["email"] == JNull ==> v.email == None)
      && ("address" in validated && validated["address"] == JNull ==> v.address == None)
      && ("bairro_id" !in validated && "bairroId" !in validated ==> v.bairroId == u.bairroId)
      && ("bairro_id" !in validated && "bairroId" in validated ==> v.bairroId == TextOf(validated["bairroId"]))
      && (validated == map[] ==> v == u)
  {
    if validated == map[] {
      var v := ProfileApplied(u, ProfileData(validated));
      assert v.nome == u.nome && v.email == u.email && v.bairroId == u.bairroId && v.address == u.address;
    }
  }

  /** `updateNotifications`: `array_merge($current ?? [], $validated)`. */
  function SettingsMerged(current: Option<map<string, Json>>, validated: map<string, Json>): (r: map<string, Json>)
    ensures r.Keys == current.GetOr(map[]).Keys + validated.Keys
    ensures forall k :: k in validated ==> r[k] == validated[k]
    ensures forall k :: k in current.GetOr(map[]) && k !in validated ==> r[k] == current.GetOr(map[])[k]
  {
    current.GetOr(map[]) + validated
  }

  /** The merge keeps every setting already stored, lets the request win on
      conflict, changes nothing for an empty request, and applying the same
      request twice is the same as applying it once. */
  lemma SettingsMergeLaws(current: map<string, Json>, validated: map<string, Json>)
    ensures current.Keys <= SettingsMerged(Some(current), validated).Keys
    ensures SettingsMerged(Some(current), map[]) == current
    ensures SettingsMerged(Some(SettingsMerged(Some(current), validated)), validated) == SettingsMerged(Some(current), validated)
    ensures SettingsMerged(None, validated) == validated
  {
    var once := SettingsMerged(Some(current), validated);
    assert SettingsMerged(Some(once), validated) == once;
    assert SettingsMerged(Some(current), map[]) == current;
  }

  /** A new account has all four notification flags on, and no other key. */
  lemma DefaultSettingsAllOn()
    ensures DEFAULT_NOTIFICATION_SETTINGS.Keys == {"pushEnabled", "alertsEnabled", "eventsEnabled", "reportsEnabled"}
    ensures forall k :: k in DEFAULT_NOTIFICATION_SETTINGS ==> DEFAULT_NOTIFICATION_SETTINGS[k] == JBool(true)
  {
  }

  /** The authenticated user's row, which both endpoints write back. */
  class Account {
    var user: User

    constructor (u: User)
      ensures user == u
    {
      user := u;
    }

    /** `update`: the data array is built key by key, then written. */
    method Update(validated: Request) returns (data: map<string, Json>)
      modifies this
      ensures data == ProfileData(validated)
      ensures user == ProfileApplied(old(user), data)
    {
      data := map[];
      if IsSet(validated, "nome") {
        data := data["nome" := validated["nome"]];
      }
      if "email" in validated {
        data := data["email" := validated["email"]];
      }
      if "bairro_id" in validated || "bairroId" in validated {
        data := data["bairro_id" := BairroIdOf(validated)];
      }
      if "address" in validated {
        data := data["address" := validated["address"]];
      }
      user := ProfileApplied(user, data);
    }

    /** `updateNotifications`: the merged settings are written back and
        returned; no other column changes. */
    method UpdateNotifications(validated: map<string, Json>) returns (settings: map<string, Json>)
      modifies this
      ensures settings == SettingsMerged(Some(old(user.notificationSettings)), validated)
      ensures user == old(user).(notificationSettings := settings)
    {
      settings := user.notificationSettings + validated;
      user := user.(notificationSettings := settings);
    }
  }
}
