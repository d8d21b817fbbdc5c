// Sectioned system settings over one key space: api/internal/settings/handler.go and the
// settings of api/internal/repository/memory.go.
module Settings {
  import opened Wrappers
  import opened Text
  import opened Sorting
  import opened Listings

  // A decoded JSON value; a number is the float it decodes to.
  datatype Json =
    | Null
    | Bool(value: bool)
    | Number(float: real)
    | Str(chars: string)
    | List(items: seq<Json>)
    | Object(members: map<string, Json>)

  // JSON text, as far as it matters: nothing at all, text that does not decode, or what it
  // decodes to. Encoding a decoded value gives a text that decodes to it.
  datatype Encoded = Empty | Garbled | Encoding(value: Json)

  datatype Setting = Setting(key: string, value: Encoded, updatedBy: Option<int>, updatedAt: int)

  datatype Source = Default | Stored(updatedBy: Option<int>, updatedAt: int)

  datatype Response = Response(key: string, value: Json, section: string, source: Source)

  datatype Definition = Definition(name: string, prefix: string, defaults: map<string, Json>)

  type Request = map<string, Encoded>
  type Store = map<string, Setting>

  datatype Error =
    | SettingsRequired
    | KeyRequired
    | UnknownKey(key: string)
    | ValueRequired
    | ValueNotJson
    | WrongKind(key: string)
    | Unauthenticated
    | UpdateFailed
    | AuditWriteFailed
    | ListFailed

  const GENERAL := Definition("general", "", map[
    "audit_retention_days" := Number(180.0),
    "connection_log_retention_days" := Number(90.0),
    "file_transfer_enabled_default" := Bool(true),
    "public_rustdesk_fallback" := Bool(false),
    "relay_auth_required" := Bool(true),
    "terminal_enabled_default" := Bool(false),
    "web_client_enabled" := Bool(false)])

  const OIDC := Definition("oidc", "oidc.", map[
    "enabled" := Bool(false),
    "issuer_url" := Str(""),
    "client_id" := Str(""),
    "scopes" := Str("openid profile email"),
    "auto_create_users" := Bool(false)])

  const LDAP := Definition("ldap", "ldap.", map[
    "enabled" := Bool(false),
    "url" := Str(""),
    "base_dn" := Str(""),
    "bind_dn" := Str(""),
    "user_filter" := Str("(uid={username})"),
    "group_filter" := Str(""),
    "start_tls" := Bool(true)])

  const SMTP := Definition("smtp", "smtp.", map[
    "enabled" := Bool(false),
    "host" := Str(""),
    "port" := Number(587.0),
    "username" := Str(""),
    "from_address" := Str(""),
    "tls" := Bool(true)])

  const SECTIONS := [GENERAL, OIDC, LDAP, SMTP]

  function SettingKey(): Setting -> string { (s: Setting) => s.key }

  function ResponseKey(): Response -> string { (r: Response) => r.key }

  // ------------------------------------------------------------------------
  // Checking an update.

  predicate SameKind(value: Json, default: Json) {
    match default
    case Bool(_) => value.Bool?
    case Number(_) => value.Number?
    case Str(_) => value.Str?
    case List(_) => value.List?
    case Object(_) => value.Object?
    case Null => value.Null?
  }

  // Why an entry of an update is turned away, if it is.
  function Refusal(def: Definition, raw: string, value: Encoded): Option<Error> {
    var key := TrimSpace(raw);
    if key == "" then Some(KeyRequired)
    else if key !in def.defaults then Some(UnknownKey(key))
    else if value.Empty? then Some(ValueRequired)
    else if value.Garbled? then Some(ValueNotJson)
    else if !SameKind(value.value, def.defaults[key]) then Some(WrongKind(key))
    else None
  }

  predicate Fits(def: Definition, key: string, value: Encoded) {
    key != "" && key in def.defaults && value.Encoding? && SameKind(value.value, def.defaults[key])
  }

  lemma AdmittedFits(def: Definition, request: Request, raw: string)
    requires Admissible(def, request) && raw in request
    ensures Fits(def, TrimSpace(raw), request[raw])
  {
    assert Refusal(def, raw, request[raw]).None?;
  }

  predicate Admissible(def: Definition, request: Request) {
    request != map[] && forall raw :: raw in request ==> Refusal(def, raw, request[raw]).None?
  }

  function StoredKey(def: Definition, raw: string): string {
    def.prefix + TrimSpace(raw)
  }

  function Normalized(def: Definition, raw: string, value: Encoded): Setting {
    Setting(StoredKey(def, raw), value, None, 0)
  }

  method NormalizeOne(def: Definition, raw: string, value: Encoded) returns (r: Result<Setting, Error>)
    ensures var refusal := Refusal(def, raw, value);
            r == if refusal.Some? then Err(refusal.value) else Ok(Normalized(def, raw, value))
  {
    var key := TrimSpace(raw);
    if key == "" {
      return Err(KeyRequired);
    }
    if key !in def.defaults {
      return Err(UnknownKey(key));
    }
    if value.Empty? {
      return Err(ValueRequired);
    }
    if value.Garbled? {
      return Err(ValueNotJson);
    }
    if !SameKind(value.value, def.defaults[key]) {
      return Err(WrongKind(key));
    }
    r := Ok(Setting(def.prefix + key, value, None, 0));
  }

  ghost predicate IsUpdate(s: Setting, def: Definition, request: Request) {
    exists raw :: raw in request && s == Normalized(def, raw, request[raw])
  }

  // The updates are the request's entries, in key order, with nothing said about the order
  // of entries whose keys are alike once trimmed.
  ghost predicate AreUpdates(updates: seq<Setting>, def: Definition, request: Request) {
    && (forall i :: 0 <= i < |updates| ==> IsUpdate(updates[i], def, request))
    && (forall raw :: raw in request ==> Normalized(def, raw, request[raw]) in updates)
    && Ascending(updates, SettingKey())
  }

  // Why an update as a whole is turned away: it is empty, or some entry of it is.
  ghost predicate RefusedFor(error: Error, def: Definition, request: Request) {
    if request == map[] then error == SettingsRequired
    else exists raw :: raw in request && Refusal(def, raw, request[raw]) == Some(error)
  }

  // The map is walked in any order, so the error is that of any entry turned away.
  method NormalizeUpdates(def: Definition, request: Request) returns (r: Result<seq<Setting>, Error>)
    ensures r.Ok? <==> Admissible(def, request)
    ensures r.Ok? ==> AreUpdates(r.value, def, request)
    ensures r.Err? ==> RefusedFor(r.error, def, request)
  {
    if request == map[] {
      return Err(SettingsRequired);
    }
    var out := NormalizeEach(def, request);
    if out.Err? {
      return out;
    }
    var sorted := Sort(out.value, SettingKey());
    SortingKeepsUpdates(out.value, sorted, def, request);
    r := Ok(sorted);
  }

  // The entries as the map is walked.
  method NormalizeEach(def: Definition, request: Request) returns (r: Result<seq<Setting>, Error>)
    requires request != map[]
    ensures r.Ok? <==> Admissible(def, request)
    ensures r.Ok? ==> forall i :: 0 <= i < |r.value| ==> IsUpdate(r.value[i], def, request)
    ensures r.Ok? ==> forall raw :: raw in request ==> Normalized(def, raw, request[raw]) in r.value
    ensures r.Err? ==> RefusedFor(r.error, def, request)
  {
    var out: seq<Setting> := [];
    var rest := request.Keys;
    while rest != {}
      invariant rest <= request.Keys
      invariant forall raw :: raw in request.Keys - rest ==>
                  Refusal(def, raw, request[raw]).None? && Normalized(def, raw, request[raw]) in out
      invariant forall i :: 0 <= i < |out| ==> IsUpdate(out[i], def, request)
      decreases rest
    {
      var raw :| raw in rest;
      rest := rest - {raw};
      var one := NormalizeOne(def, raw, request[raw]);
      if one.Err? {
        return Err(one.error);
      }
      out := out + [one.value];
      assert out[|out| - 1] == Normalized(def, raw, request[raw]);
    }
    r := Ok(out);
  }

  lemma SortingKeepsUpdates(out: seq<Setting>, sorted: seq<Setting>, def: Definition, request: Request)
    requires multiset(sorted) == multiset(out) && Ascending(sorted, SettingKey())
    requires forall i :: 0 <= i < |out| ==> IsUpdate(out[i], def, request)
    requires forall raw :: raw in request ==> Normalized(def, raw, request[raw]) in out
    ensures AreUpdates(sorted, def, request)
  {
    SameElements(sorted, out);
    forall i | 0 <= i < |sorted|
      ensures IsUpdate(sorted[i], def, request)
    {
      assert sorted[i] in out;
    }
  }

  // ------------------------------------------------------------------------
  // The store.

  predicate Storable(s: Setting) {
    TrimSpace(s.key) != "" && !s.value.Empty?
  }

  function Stamped(s: Setting, actor: int, now: int): Setting {
    Setting(TrimSpace(s.key), s.value, if actor > 0 then Some(actor) else s.updatedBy, now)
  }

  // The updates written one after the other.
  function Upserted(store: Store, updates: seq<Setting>, actor: int, now: int): Store {
    if updates == [] then store
    else
      var s := Stamped(Last(updates), actor, now);
      Upserted(store, Front(updates), actor, now)[s.key := s]
  }

  lemma OneMoreUpserted(store: Store, updates: seq<Setting>, i: nat, actor: int, now: int)
    requires i < |updates|
    ensures var s := Stamped(updates[i], actor, now);
            Upserted(store, updates[..i + 1], actor, now) == Upserted(store, updates[..i], actor, now)[s.key := s]
  {
    assert Front(updates[..i + 1]) == updates[..i];
  }

  lemma {:induction false} UpsertedKeyed(store: Store, updates: seq<Setting>, actor: int, now: int)
    requires forall k :: k in store ==> store[k].key == k
    ensures forall k :: k in Upserted(store, updates, actor, now) ==> Upserted(store, updates, actor, now)[k].key == k
  {
    if updates != [] {
      UpsertedKeyed(store, Front(updates), actor, now);
    }
  }

  // A setting as it is written.
  method Stamp(s: Setting, actor: int, now: int) returns (setting: Setting)
    ensures setting == Stamped(s, actor, now)
  {
    setting := s.(key := TrimSpace(s.key), updatedAt := now);
    if actor > 0 {
      setting := setting.(updatedBy := Some(actor));
    }
  }

  // How many updates precede the first that cannot be stored.
  function Leading(updates: seq<Setting>): (n: nat)
    ensures n <= |updates| && forall i :: 0 <= i < n ==> Storable(updates[i])
    ensures n < |updates| ==> !Storable(updates[n])
  {
    FirstWhere(updates, (s: Setting) => !Storable(s))
  }

  lemma LeadingStops(updates: seq<Setting>, i: nat)
    requires i < |updates| && i <= Leading(updates)
    ensures Storable(updates[i]) <==> i < Leading(updates)
  {
  }

  class Memory {
    var settings: Store

    ghost predicate Valid()
      reads this
    {
      forall k :: k in settings ==> settings[k].key == k
    }

    constructor ()
      ensures Valid() && settings == map[]
    {
      settings := map[];
    }

    method ListSystemSettings() returns (out: seq<Setting>)
      requires Valid()
      ensures IsListing(out, settings, SettingKey())
    {
      out := Listing(settings, SettingKey());
    }

    // Updates before one that cannot be stored stay written.
    method UpsertSystemSettings(updates: seq<Setting>, actor: int, now: int) returns (ok: bool)
      requires Valid()
      modifies this
      ensures Valid()
      ensures ok <==> Leading(updates) == |updates|
      ensures settings == Upserted(old(settings), updates[..Leading(updates)], actor, now)
    {
      UpsertedKeyed(settings, updates[..Leading(updates)], actor, now);
      for i := 0 to |updates|
        invariant i <= Leading(updates)
        invariant settings == Upserted(old(settings), updates[..i], actor, now)
      {
        LeadingStops(updates, i);
        if TrimSpace(updates[i].key) == "" || updates[i].value.Empty? {
          return false;
        }
        var setting := Stamp(updates[i], actor, now);
        OneMoreUpserted(old(settings), updates, i, actor, now);
        settings := settings[setting.key := setting];
      }
      ok := true;
    }
  }

  // ------------------------------------------------------------------------
  // Reading a section.

  function ResponseKeyForStored(storedKey: string, def: Definition): (r: Option<string>)
    ensures r.Some? <==> exists key :: key in def.defaults && storedKey == def.prefix + key
    ensures r.Some? ==> r.value in def.defaults && storedKey == def.prefix + r.value
  {
    if def.prefix == "" then
      assert forall key :: key in def.defaults ==> def.prefix + key == key;
      if storedKey !in def.defaults then None
      else Some(storedKey)
    else if !(def.prefix <= storedKey) then None
    else
      var key := storedKey[|def.prefix|..];
      assert storedKey == def.prefix + key;
      if key !in def.defaults then None else Some(key)
  }

  // What a section says about one of its keys.
  function Entry(store: Store, def: Definition, key: string): Response
    requires key in def.defaults
  {
    if def.prefix + key in store && store[def.prefix + key].value.Encoding? then
      var s := store[def.prefix + key];
      Response(key, s.value.value, def.name, Stored(s.updatedBy, s.updatedAt))
    else Response(key, def.defaults[key], def.name, Default)
  }

  function Entries(store: Store, def: Definition): (r: map<string, Response>)
    ensures r.Keys == def.defaults.Keys
  {
    map key | key in def.defaults :: Entry(store, def, key)
  }

  ghost predicate Readable(store: Store, def: Definition) {
    forall key :: key in def.defaults && def.prefix + key in store ==> store[def.prefix + key].value.Encoding?
  }

  // What a reading of the section answers.
  ghost predicate ReadBack(r: Result<seq<Response>, Error>, store: Store, def: Definition) {
    if Readable(store, def) then r.Ok? && IsListing(r.value, Entries(store, def), ResponseKey())
    else r == Err(ListFailed)
  }

  method DefaultResponses(def: Definition) returns (merged: map<string, Response>)
    ensures merged == Entries(map[], def)
  {
    merged := map[];
    var rest := def.defaults.Keys;
    while rest != {}
      invariant rest <= def.defaults.Keys
      invariant merged == map key | key in def.defaults && key !in rest :: Entry(map[], def, key)
      decreases rest
    {
      var key :| key in rest;
      rest := rest - {key};
      merged := merged[key := Response(key, def.defaults[key], def.name, Default)];
    }
  }

  // Lays one stored setting over the entries collected so far, which are those of `store`;
  // fails if it is about the section and does not decode.
  method LayOver(merged: map<string, Response>, s: Setting, def: Definition, ghost store: Store)
    returns (ok: bool, next: map<string, Response>)
    requires merged == Entries(store, def) && Readable(store, def)
    ensures ok ==> next == Entries(store[s.key := s], def) && Readable(store[s.key := s], def)
    ensures !ok ==> exists key :: key in def.defaults && s.key == def.prefix + key && !s.value.Encoding?
  {
    next := merged;
    var key := ResponseKeyForStored(s.key, def);
    if key.None? {
      SkippedEntry(store, s, def);
      return true, next;
    }
    if !s.value.Encoding? {
      return false, next;
    }
    LaidOver(store, s, def, key.value);
    next := next[key.value := Response(key.value, s.value.value, def.name, Stored(s.updatedBy, s.updatedAt))];
    ok := true;
  }

  // A stored section is its defaults with the stored values laid over them.
  method MergedSettings(m: Memory, def: Definition) returns (r: Result<seq<Response>, Error>)
    requires m.Valid()
    ensures ReadBack(r, m.settings, def)
  {
    var stored := m.ListSystemSettings();
    var merged := DefaultResponses(def);
    for i := 0 to |stored|
      invariant merged == Entries(Part(stored[..i]), def)
      invariant Readable(Part(stored[..i]), def)
    {
      PartGrows(stored, i);
      var ok;
      ok, merged := LayOver(merged, stored[i], def, Part(stored[..i]));
      if !ok {
        assert SettingKey()(stored[i]) == stored[i].key;
        return Err(ListFailed);
      }
    }
    assert stored[..|stored|] == stored;
    PartOfListing(stored, m.settings);
    var out := Listing(merged, ResponseKey());
    r := Ok(out);
  }

  // The part of the store a prefix of its listing covers.
  function Part(stored: seq<Setting>): Store {
    if stored == [] then map[] else Part(Front(stored))[Last(stored).key := Last(stored)]
  }

  lemma PartGrows(stored: seq<Setting>, i: nat)
    requires i < |stored|
    ensures Part(stored[..i + 1]) == Part(stored[..i])[stored[i].key := stored[i]]
  {
    assert Front(stored[..i + 1]) == stored[..i];
  }

  lemma {:induction false} PartHolds(stored: seq<Setting>, store: Store)
    requires forall i :: 0 <= i < |stored| ==> stored[i].key in store && stored[i] == store[stored[i].key]
    ensures Part(stored) == map k | k in store && store[k] in stored && store[k].key == k :: store[k]
  {
    if stored != [] {
      PartHolds(Front(stored), store);
      assert stored == Front(stored) + [Last(stored)];
    }
  }

  lemma PartOfListing(stored: seq<Setting>, store: Store)
    requires IsListing(stored, store, SettingKey()) && forall k :: k in store ==> store[k].key == k
    ensures Part(stored) == store
  {
    forall i | 0 <= i < |stored|
      ensures stored[i].key in store && stored[i] == store[stored[i].key]
    {
      assert SettingKey()(stored[i]) == stored[i].key;
    }
    PartHolds(stored, store);
  }

  lemma SkippedEntry(store: Store, s: Setting, def: Definition)
    requires ResponseKeyForStored(s.key, def).None?
    ensures Entries(store[s.key := s], def) == Entries(store, def)
    ensures Readable(store, def) ==> Readable(store[s.key := s], def)
  {
  }

  lemma LaidOver(store: Store, s: Setting, def: Definition, key: string)
    requires key in def.defaults && s.key == def.prefix + key && s.value.Encoding?
    ensures Entries(store[s.key := s], def) == Entries(store, def)[key := Entry(store[s.key := s], def, key)]
    ensures Readable(store, def) ==> Readable(store[s.key := s], def)
  {
    forall other | other in def.defaults && other != key
      ensures def.prefix + other != s.key
    {
      if def.prefix + other == def.prefix + key {
        SamePrefix(def.prefix, key, other);
      }
    }
  }

  lemma SamePrefix(prefix: string, a: string, b: string)
    requires prefix + a == prefix + b
    ensures a == b
  {
    assert a == (prefix + a)[|prefix|..] && b == (prefix + b)[|prefix|..];
  }

  // ------------------------------------------------------------------------
  // The handler.

  // Some entry of the request is about this stored key.
  ghost predicate Names(def: Definition, request: Request, k: string) {
    exists raw :: raw in request && StoredKey(def, raw) == k
  }

  // What an accepted update does to the store: every key the request names, trimmed and
  // prefixed, holds the value of one of the entries that name it; nothing else changes.
  ghost predicate Written(before: Store, after: Store, def: Definition, request: Request, actor: int, now: int) {
    && (forall k :: k in after <==> k in before || Names(def, request, k))
    && (forall k :: k in before && !Names(def, request, k) ==> after[k] == before[k])
    && (forall k :: k in after && Names(def, request, k) ==>
         after[k].key == k && HasOneOf(after[k], def, request, actor, now))
  }

  // A section as the program defines them: stored keys are already trimmed.
  predicate WellFormed(def: Definition) {
    forall key :: key in def.defaults ==> Trimmed(def.prefix + key) && def.prefix + key != ""
  }

  // Updates as the handler prepares them.
  predicate Prepared(s: Setting) {
    Storable(s) && TrimSpace(s.key) == s.key && s.updatedBy.None?
  }

  function By(actor: int): Option<int> { if actor > 0 then Some(actor) else None }

  ghost predicate Listed(updates: seq<Setting>, k: string) {
    exists i :: 0 <= i < |updates| && updates[i].key == k
  }

  lemma {:induction false} UpsertWrites(before: Store, updates: seq<Setting>, actor: int, now: int, k: string)
    requires forall i :: 0 <= i < |updates| ==> Prepared(updates[i])
    ensures var after := Upserted(before, updates, actor, now);
            if Listed(updates, k)
            then k in after && exists i :: 0 <= i < |updates| && updates[i].key == k
                                           && after[k] == Setting(k, updates[i].value, By(actor), now)
            else (k in after <==> k in before) && (k in before ==> after[k] == before[k])
  {
    if updates != [] {
      UpsertWrites(before, Front(updates), actor, now, k);
      assert forall i :: 0 <= i < |Front(updates)| ==> Front(updates)[i] == updates[i];
      assert Prepared(updates[|updates| - 1]);
    }
  }

  lemma UpdatesArePrepared(updates: seq<Setting>, def: Definition, request: Request)
    requires WellFormed(def) && Admissible(def, request) && AreUpdates(updates, def, request)
    ensures forall i :: 0 <= i < |updates| ==> Prepared(updates[i])
  {
    forall i | 0 <= i < |updates|
      ensures Prepared(updates[i])
    {
      var raw :| raw in request && updates[i] == Normalized(def, raw, request[raw]);
      AdmittedFits(def, request, raw);
      assert Trimmed(def.prefix + TrimSpace(raw));
    }
  }

  lemma PreparedLead(updates: seq<Setting>)
    requires forall i :: 0 <= i < |updates| ==> Prepared(updates[i])
    ensures Leading(updates) == |updates| && updates[..Leading(updates)] == updates
  {
  }

  lemma ListedAreNamed(updates: seq<Setting>, def: Definition, request: Request, k: string)
    requires AreUpdates(updates, def, request)
    ensures Listed(updates, k) <==> Names(def, request, k)
  {
    if Names(def, request, k) {
      var raw :| raw in request && StoredKey(def, raw) == k;
      var i :| 0 <= i < |updates| && updates[i] == Normalized(def, raw, request[raw]);
      assert updates[i].key == k;
    }
    if i :| 0 <= i < |updates| && updates[i].key == k {
      var raw :| raw in request && updates[i] == Normalized(def, raw, request[raw]);
      assert StoredKey(def, raw) == k;
    }
  }

  ghost predicate HasOneOf(s: Setting, def: Definition, request: Request, actor: int, now: int) {
    exists raw :: raw in request && s == Setting(StoredKey(def, raw), request[raw], By(actor), now)
  }

  lemma UpdateIsWritten(
        before: Store, updates: seq<Setting>, def: Definition, request: Request, actor: int, now: int, k: string)
    requires WellFormed(def) && Admissible(def, request) && AreUpdates(updates, def, request)
    ensures var after := Upserted(before, updates, actor, now);
            if Names(def, request, k)
            then k in after && after[k].key == k && HasOneOf(after[k], def, request, actor, now)
            else (k in after <==> k in before) && (k in before ==> after[k] == before[k])
  {
    UpdatesArePrepared(updates, def, request);
    UpsertWrites(before, updates, actor, now, k);
    ListedAreNamed(updates, def, request, k);
    if Listed(updates, k) {
      var after := Upserted(before, updates, actor, now);
      var i :| 0 <= i < |updates| && updates[i].key == k && after[k] == Setting(k, updates[i].value, By(actor), now);
      var raw :| raw in request && updates[i] == Normalized(def, raw, request[raw]);
      assert after[k] == Setting(StoredKey(def, raw), request[raw], By(actor), now);
    }
  }

  lemma UpdatesAreWritten(before: Store, updates: seq<Setting>, def: Definition, request: Request, actor: int, now: int)
    requires WellFormed(def) && Admissible(def, request) && AreUpdates(updates, def, request)
    ensures Written(before, Upserted(before, updates, actor, now), def, request, actor, now)
  {
    forall k {
      UpdateIsWritten(before, updates, def, request, actor, now, k);
    }
  }

  // PUT of a section, whose answer is the section read back. `audited` says whether the audit
  // log accepts the entry, which is written after the settings are.
  method Update(m: Memory, def: Definition, request: Request, session: Option<int>, now: int, audited: bool)
    returns (r: Result<seq<Response>, Error>)
    requires m.Valid() && WellFormed(def)
    modifies m
    ensures m.Valid()
    ensures if !Admissible(def, request)
            then m.settings == old(m.settings) && r.Err? && RefusedFor(r.error, def, request)
            else if session.None? then m.settings == old(m.settings) && r == Err(Unauthenticated)
            else Written(old(m.settings), m.settings, def, request, session.value, now)
                 && if audited then ReadBack(r, m.settings, def) else r == Err(AuditWriteFailed)
  {
    var updates := NormalizeUpdates(def, request);
    if updates.Err? {
      return Err(updates.error);
    }
    if session.None? {
      return Err(Unauthenticated);
    }
    UpdatesArePrepared(updates.value, def, request);
    PreparedLead(updates.value);
    UpdatesAreWritten(m.settings, updates.value, def, request, session.value, now);
    var ok := m.UpsertSystemSettings(updates.value, session.value, now);
    if !ok {
      return Err(UpdateFailed);
    }
    if !audited {
      return Err(AuditWriteFailed);
    }
    r := MergedSettings(m, def);
  }
}
