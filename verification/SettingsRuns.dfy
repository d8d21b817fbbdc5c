// What the settings handlers promise across updates: reading after writing, and sections
// that leave one another alone.
module SettingsRuns {
  import opened Wrappers
  import opened Text
  import opened Listings
  import opened Settings

  // No stored key belongs to both sections.
  ghost predicate Separate(a: Definition, b: Definition) {
    forall x, y :: x in a.defaults && y in b.defaults ==> a.prefix + x != b.prefix + y
  }

  predicate KeysTrimmed(def: Definition) {
    forall key :: key in def.defaults ==> key != "" && Trimmed(key)
  }

  lemma GeneralKeysAreTrimmed()
    ensures KeysTrimmed(GENERAL)
  {
  }

  lemma OidcKeysAreTrimmed()
    ensures KeysTrimmed(OIDC)
  {
  }

  lemma LdapKeysAreTrimmed()
    ensures KeysTrimmed(LDAP)
  {
  }

  lemma SmtpKeysAreTrimmed()
    ensures KeysTrimmed(SMTP)
  {
  }

  lemma KeysAreTrimmed(def: Definition)
    requires def in SECTIONS
    ensures KeysTrimmed(def)
  {
    GeneralKeysAreTrimmed();
    OidcKeysAreTrimmed();
    LdapKeysAreTrimmed();
    SmtpKeysAreTrimmed();
  }

  lemma KeyIsTrimmed(def: Definition, key: string)
    requires def in SECTIONS && key in def.defaults
    ensures key != "" && Trimmed(key)
  {
    KeysAreTrimmed(def);
  }

  const GENERAL_INITIALS: set<char> := {'a', 'c', 'f', 'p', 'r', 't', 'w'}

  // The first letter of a stored key tells its section.
  function Initials(def: Definition): set<char> {
    if def.prefix == "" then GENERAL_INITIALS else {def.prefix[0]}
  }

  lemma GeneralInitials(key: string)
    requires key in GENERAL.defaults
    ensures key != "" && key[0] in GENERAL_INITIALS
  {
  }

  // The general settings are stored under their own keys, the others under the section's.
  lemma PrefixInitial(def: Definition)
    requires def in SECTIONS
    ensures def.prefix == "" ==> def == GENERAL
    ensures def.prefix != "" ==> !IsSpace(def.prefix[0]) && def.prefix[0] !in GENERAL_INITIALS
  {
  }

  lemma KeyStarts(def: Definition, key: string)
    requires def in SECTIONS && key in def.defaults
    ensures def.prefix + key != "" && Trimmed(def.prefix + key)
    ensures (def.prefix + key)[0] in Initials(def)
  {
    KeyIsTrimmed(def, key);
    PrefixInitial(def);
    if def.prefix == "" {
      GeneralInitials(key);
    }
    StartsWith(def, key);
  }

  lemma StartsWith(def: Definition, key: string)
    requires key != "" && Trimmed(key)
    requires if def.prefix == "" then key[0] in GENERAL_INITIALS else !IsSpace(def.prefix[0])
    ensures def.prefix + key != "" && Trimmed(def.prefix + key)
    ensures (def.prefix + key)[0] in Initials(def)
  {
    if def.prefix == "" {
      assert def.prefix + key == key;
    } else {
      PrefixStarts(def.prefix, key);
    }
  }

  lemma PrefixStarts(prefix: string, key: string)
    requires prefix != "" && key != ""
    ensures (prefix + key)[0] == prefix[0] && (prefix + key)[|prefix + key| - 1] == key[|key| - 1]
  {
  }

  lemma InitialsTell(i: nat, j: nat)
    requires i < |SECTIONS| && j < |SECTIONS| && i != j
    ensures Initials(SECTIONS[i]) !! Initials(SECTIONS[j])
  {
    PrefixInitial(SECTIONS[i]);
    PrefixInitial(SECTIONS[j]);
    assert GENERAL.prefix == "" && OIDC.prefix[0] == 'o' && LDAP.prefix[0] == 'l' && SMTP.prefix[0] == 's';
  }

  // The four sections of the program, general settings included, are well formed and have
  // no stored key in common.
  lemma SectionsAreSeparate(i: nat, j: nat)
    requires i < |SECTIONS| && j < |SECTIONS|
    ensures WellFormed(SECTIONS[i])
    ensures i != j ==> Separate(SECTIONS[i], SECTIONS[j])
  {
    forall key | key in SECTIONS[i].defaults
      ensures Trimmed(SECTIONS[i].prefix + key) && SECTIONS[i].prefix + key != ""
    {
      KeyStarts(SECTIONS[i], key);
    }
    if i != j {
      InitialsTell(i, j);
    }
    forall x, y | i != j && x in SECTIONS[i].defaults && y in SECTIONS[j].defaults
      ensures SECTIONS[i].prefix + x != SECTIONS[j].prefix + y
    {
      KeyStarts(SECTIONS[i], x);
      KeyStarts(SECTIONS[j], y);
    }
  }

  // Entries whose keys are alike once trimmed agree.
  predicate Unambiguous(request: Request) {
    forall a, b :: a in request && b in request && TrimSpace(a) == TrimSpace(b) ==> request[a] == request[b]
  }

  // The section now says what the request asked for.
  ghost predicate ReadsAsWritten(store: Store, def: Definition, request: Request) {
    forall raw :: raw in request ==>
      && request[raw].Encoding? && TrimSpace(raw) in def.defaults
      && Entry(store, def, TrimSpace(raw)).value == request[raw].value
  }

  // The entry whose value a stored setting has.
  lemma OneOf(after: Store, k: string, def: Definition, request: Request, actor: int, now: int) returns (raw: string)
    requires k in after && after[k].key == k && HasOneOf(after[k], def, request, actor, now)
    ensures raw in request && StoredKey(def, raw) == k && after[k] == Setting(k, request[raw], By(actor), now)
  {
    raw :| raw in request && after[k] == Setting(StoredKey(def, raw), request[raw], By(actor), now);
  }

  lemma ReadsOne(before: Store, after: Store, def: Definition, request: Request, actor: int, now: int, raw: string)
    requires Admissible(def, request) && Written(before, after, def, request, actor, now) && raw in request
    ensures TrimSpace(raw) in def.defaults && request[raw].Encoding?
    ensures exists same :: same in request && TrimSpace(same) == TrimSpace(raw) && request[same].Encoding?
              && Entry(after, def, TrimSpace(raw))
                 == Response(TrimSpace(raw), request[same].value, def.name,
                             Stored(if actor > 0 then Some(actor) else None, now))
  {
    var k := StoredKey(def, raw);
    AdmittedFits(def, request, raw);
    assert Names(def, request, k);
    var same := OneOf(after, k, def, request, actor, now);
    SamePrefix(def.prefix, TrimSpace(same), TrimSpace(raw));
    AdmittedFits(def, request, same);
  }

  // After an accepted update the section reads as written exactly when no two entries name
  // the same key with different values.
  lemma ReadAfterWrite(before: Store, after: Store, def: Definition, request: Request, actor: int, now: int)
    requires Admissible(def, request) && Written(before, after, def, request, actor, now)
    ensures ReadsAsWritten(after, def, request) <==> Unambiguous(request)
  {
    if Unambiguous(request) {
      forall raw | raw in request
        ensures request[raw].Encoding? && TrimSpace(raw) in def.defaults
        ensures Entry(after, def, TrimSpace(raw)).value == request[raw].value
      {
        ReadsOne(before, after, def, request, actor, now, raw);
      }
    }
  }

  // Keys of the section the request does not name keep what they had.
  lemma UnnamedKeysStay(
        before: Store, after: Store, def: Definition, request: Request, actor: int, now: int, key: string)
    requires Written(before, after, def, request, actor, now) && key in def.defaults
    requires forall raw :: raw in request ==> TrimSpace(raw) != key
    ensures Entry(after, def, key) == Entry(before, def, key)
  {
    if Names(def, request, def.prefix + key) {
      var raw :| raw in request && StoredKey(def, raw) == def.prefix + key;
      SamePrefix(def.prefix, TrimSpace(raw), key);
      assert false;
    }
  }

  const PADDED: Request := map["enabled" := Encoding(Bool(true)), " enabled" := Encoding(Bool(false))]

  lemma PaddedTrims()
    ensures TrimSpace("enabled") == "enabled" == TrimSpace(" enabled")
  {
    assert TrimLeft(" enabled") == TrimLeft(" enabled"[1..]) && " enabled"[1..] == "enabled";
  }

  lemma PaddedIsAdmissible()
    ensures Admissible(OIDC, PADDED)
  {
    PaddedTrims();
    forall raw | raw in PADDED
      ensures Refusal(OIDC, raw, PADDED[raw]).None?
    {
      assert TrimSpace(raw) == "enabled" && PADDED[raw].Encoding? && PADDED[raw].value.Bool?;
      assert OIDC.defaults["enabled"] == Bool(false);
    }
    assert "enabled" in PADDED;
  }

  // Two entries for one key are both accepted, and one of them is not what is read back.
  lemma PaddedKeysCollide(before: Store, after: Store, actor: int, now: int)
    requires Written(before, after, OIDC, PADDED, actor, now)
    ensures Admissible(OIDC, PADDED) && !ReadsAsWritten(after, OIDC, PADDED)
  {
    PaddedIsAdmissible();
    PaddedIsAmbiguous();
    ReadAfterWrite(before, after, OIDC, PADDED, actor, now);
  }

  lemma PaddedIsAmbiguous()
    ensures !Unambiguous(PADDED)
  {
    PaddedTrims();
    assert "enabled" in PADDED && " enabled" in PADDED && PADDED["enabled"] != PADDED[" enabled"];
  }

  lemma NotNamed(def: Definition, other: Definition, request: Request, key: string)
    requires Admissible(def, request) && Separate(def, other) && key in other.defaults
    ensures !Names(def, request, other.prefix + key)
  {
    if raw :| raw in request && StoredKey(def, raw) == other.prefix + key {
      AdmittedFits(def, request, raw);
    }
  }

  // Sections are isolated: the whole answer of another section is the same.
  lemma OtherSectionsStay(
        before: Store, after: Store, def: Definition, other: Definition, request: Request, actor: int, now: int)
    requires Admissible(def, request) && Written(before, after, def, request, actor, now)
    requires Separate(def, other)
    ensures Entries(after, other) == Entries(before, other)
    ensures Readable(after, other) <==> Readable(before, other)
  {
    forall key | key in other.defaults
      ensures other.prefix + key in after <==> other.prefix + key in before
      ensures other.prefix + key in before ==> after[other.prefix + key] == before[other.prefix + key]
    {
      NotNamed(def, other, request, key);
    }
    SameEntries(before, after, other);
  }

  lemma SameEntries(before: Store, after: Store, def: Definition)
    requires forall key :: key in def.defaults ==>
               && (def.prefix + key in after <==> def.prefix + key in before)
               && (def.prefix + key in before ==> after[def.prefix + key] == before[def.prefix + key])
    ensures Entries(after, def) == Entries(before, def)
    ensures Readable(after, def) <==> Readable(before, def)
  {
  }

  lemma OtherAnswersStay(before: Store, after: Store, def: Definition, other: Definition, request: Request, actor: int,
                         now: int, first: seq<Response>, second: seq<Response>)
    requires Admissible(def, request) && Written(before, after, def, request, actor, now)
    requires Separate(def, other)
    requires IsListing(first, Entries(before, other), ResponseKey())
             && IsListing(second, Entries(after, other), ResponseKey())
    ensures first == second
  {
    OtherSectionsStay(before, after, def, other, request, actor, now);
    ListingIsUnique(first, second, Entries(before, other), ResponseKey());
  }

  // ------------------------------------------------------------------------
  // Whole runs.

  // A call of the handler; `session` is who is signed in, if anybody is.
  datatype Update = Update(def: Definition, request: Request, session: Option<int>, now: int)

  predicate LetThrough(u: Update) {
    Admissible(u.def, u.request) && u.session.Some?
  }

  // A run of the handlers from an empty store. An update that is turned away changes
  // nothing; one that is let through does what Written says, audited or not.
  ghost predicate IsRun(states: seq<Store>, updates: seq<Update>) {
    && |states| == |updates| + 1
    && states[0] == map[]
    && forall i :: 0 <= i < |updates| ==> IsStep(states[i], states[i + 1], updates[i])
  }

  ghost predicate IsStep(before: Store, after: Store, u: Update) {
    && u.def in SECTIONS
    && if LetThrough(u) then Written(before, after, u.def, u.request, u.session.value, u.now) else after == before
  }

  // Every stored value of a section has the kind of its default.
  ghost predicate WellKinded(store: Store, def: Definition) {
    forall key :: key in def.defaults && def.prefix + key in store ==>
      store[def.prefix + key].value.Encoding? && SameKind(store[def.prefix + key].value.value, def.defaults[key])
  }

  lemma StepKeepsKinds(before: Store, after: Store, u: Update, def: Definition)
    requires IsStep(before, after, u) && def in SECTIONS && WellKinded(before, def)
    ensures WellKinded(after, def)
  {
    if LetThrough(u) {
      forall key | key in def.defaults && def.prefix + key in after
        ensures after[def.prefix + key].value.Encoding?
        ensures SameKind(after[def.prefix + key].value.value, def.defaults[key])
      {
        var k := def.prefix + key;
        if Names(u.def, u.request, k) {
          var raw := OneOf(after, k, u.def, u.request, u.session.value, u.now);
          AdmittedFits(u.def, u.request, raw);
          SameSection(u.def, def, TrimSpace(raw), key);
        }
      }
    }
  }

  lemma SameSection(a: Definition, b: Definition, x: string, y: string)
    requires a in SECTIONS && b in SECTIONS && x in a.defaults && y in b.defaults && a.prefix + x == b.prefix + y
    ensures a == b && x == y
  {
    if a != b {
      OtherSectionIsSeparate(a, b);
    }
    SamePrefix(a.prefix, x, y);
  }

  // So reading a section never fails, and every value read has its default's kind.
  lemma {:induction false} ReadsNeverFail(states: seq<Store>, updates: seq<Update>, def: Definition)
    requires IsRun(states, updates) && def in SECTIONS
    ensures WellKinded(Last(states), def) && Readable(Last(states), def)
    ensures forall key :: key in def.defaults ==> SameKind(Entry(Last(states), def, key).value, def.defaults[key])
  {
    if updates != [] {
      RunOfFront(states, updates);
      ReadsNeverFail(Front(states), Front(updates), def);
      StepKeepsKinds(Last(Front(states)), Last(states), Last(updates), def);
    }
    WellKindedReads(Last(states), def);
  }

  lemma WellKindedReads(store: Store, def: Definition)
    requires WellKinded(store, def)
    ensures Readable(store, def)
    ensures forall key :: key in def.defaults ==> SameKind(Entry(store, def, key).value, def.defaults[key])
  {
  }

  lemma RunOfFront(states: seq<Store>, updates: seq<Update>)
    requires IsRun(states, updates) && updates != []
    ensures IsRun(Front(states), Front(updates))
    ensures IsStep(Last(Front(states)), Last(states), Last(updates))
  {
    assert IsStep(states[|updates| - 1], states[|updates|], updates[|updates| - 1]);
    forall i | 0 <= i < |Front(updates)|
      ensures IsStep(Front(states)[i], Front(states)[i + 1], Front(updates)[i])
    {
      assert IsStep(states[i], states[i + 1], updates[i]);
    }
  }

  // What a request says about a key, if it names it.
  ghost function Asked(request: Request, key: string): (r: Option<Encoded>)
    ensures r.None? <==> forall raw :: raw in request ==> TrimSpace(raw) != key
  {
    if raw :| raw in request && TrimSpace(raw) == key then Some(request[raw]) else None
  }

  // The last accepted word of a history of updates on a key of a section.
  ghost function LastWord(updates: seq<Update>, def: Definition, key: string): Option<Json> {
    if updates == [] then None
    else
      var u := Last(updates);
      if u.def == def && LetThrough(u) && Asked(u.request, key).Some?
        && Asked(u.request, key).value.Encoding?
      then Some(Asked(u.request, key).value.value)
      else LastWord(Front(updates), def, key)
  }

  // After any run of unambiguous updates of any sections, a section reads, for each of its
  // keys, the last accepted word on it, or the default if there was none.
  lemma {:induction false} ReadsTheLastWord(states: seq<Store>, updates: seq<Update>, def: Definition, key: string)
    requires IsRun(states, updates) && def in SECTIONS && key in def.defaults
    requires forall i :: 0 <= i < |updates| ==> Unambiguous(updates[i].request)
    ensures var word := LastWord(updates, def, key);
            Entry(Last(states), def, key).value == if word.Some? then word.value else def.defaults[key]
  {
    if updates != [] {
      RunOfFront(states, updates);
      ReadsTheLastWord(Front(states), Front(updates), def, key);
      StepReadsTheLastWord(Last(Front(states)), Last(states), Last(updates), def, key);
    }
  }

  lemma StepReadsTheLastWord(before: Store, after: Store, u: Update, def: Definition, key: string)
    requires IsStep(before, after, u) && def in SECTIONS && key in def.defaults && Unambiguous(u.request)
    ensures var asked := Asked(u.request, key);
            if u.def == def && LetThrough(u) && asked.Some?
            then asked.value.Encoding? && Entry(after, def, key).value == asked.value.value
            else Entry(after, def, key) == Entry(before, def, key)
  {
    if LetThrough(u) {
      if u.def != def {
        OtherSectionIsSeparate(u.def, def);
        OtherSectionsStay(before, after, u.def, def, u.request, u.session.value, u.now);
        assert Entries(after, def)[key] == Entries(before, def)[key];
      } else if Asked(u.request, key).Some? {
        AskedIsRead(before, after, u, key);
      } else {
        UnnamedKeysStay(before, after, def, u.request, u.session.value, u.now, key);
      }
    }
  }

  lemma OtherSectionIsSeparate(a: Definition, b: Definition)
    requires a in SECTIONS && b in SECTIONS && a != b
    ensures Separate(a, b)
  {
    var i :| 0 <= i < |SECTIONS| && SECTIONS[i] == a;
    var j :| 0 <= j < |SECTIONS| && SECTIONS[j] == b;
    SectionsAreSeparate(i, j);
  }

  lemma AskedIsRead(before: Store, after: Store, u: Update, key: string)
    requires LetThrough(u) && Written(before, after, u.def, u.request, u.session.value, u.now)
    requires Unambiguous(u.request) && key in u.def.defaults && Asked(u.request, key).Some?
    ensures Asked(u.request, key).value.Encoding?
    ensures Entry(after, u.def, key).value == Asked(u.request, key).value.value
  {
    var raw :| raw in u.request && TrimSpace(raw) == key && Some(u.request[raw]) == Asked(u.request, key);
    ReadsOne(before, after, u.def, u.request, u.session.value, u.now, raw);
  }

  // ------------------------------------------------------------------------
  // What a section accepts, and what it starts from.

  datatype Kind = NullKind | BoolKind | NumberKind | StringKind | ListKind | ObjectKind

  // Value k of this kind, told by what it is made of.
  predicate IsOf(value: Json, kind: Kind) {
    match kind
    case NullKind => value == Null
    case BoolKind => value == Bool(true) || value == Bool(false)
    case NumberKind => value.Number?
    case StringKind => value.Str?
    case ListKind => value.List?
    case ObjectKind => value.Object?
  }

  // Every value is of one kind, and values are of the same kind exactly when they are of one.
  lemma KindsTell(value: Json, default: Json)
    ensures exists kind :: IsOf(value, kind)
    ensures forall k, l :: IsOf(value, k) && IsOf(value, l) ==> k == l
    ensures SameKind(value, default) <==> exists kind :: IsOf(value, kind) && IsOf(default, kind)
  {
    var kind := if value.Null? then NullKind else if value.Bool? then BoolKind else if value.Number? then NumberKind
                else if value.Str? then StringKind else if value.List? then ListKind else ObjectKind;
    assert IsOf(value, kind);
  }

  // An entry is in order if its key, white space at the ends aside, is one of the section's
  // and its value decodes to the kind of that key's default.
  ghost predicate Acceptable(def: Definition, raw: string, value: Encoded) {
    && !IsBlank(raw) && TrimSpace(raw) in def.defaults && value.Encoding?
    && exists kind :: IsOf(value.value, kind) && IsOf(def.defaults[TrimSpace(raw)], kind)
  }

  lemma RefusedUnlessAcceptable(def: Definition, raw: string, value: Encoded)
    ensures Refusal(def, raw, value).None? <==> Acceptable(def, raw, value)
    ensures Refusal(def, raw, value).Some? ==>
              Refusal(def, raw, value).value
              == if IsBlank(raw) then KeyRequired
                 else if TrimSpace(raw) !in def.defaults then UnknownKey(TrimSpace(raw))
                 else if value == Empty then ValueRequired
                 else if value == Garbled then ValueNotJson
                 else WrongKind(TrimSpace(raw))
  {
    TrimsToNothing(raw);
    if TrimSpace(raw) in def.defaults && value.Encoding? {
      KindsTell(value.value, def.defaults[TrimSpace(raw)]);
    }
  }

  // An update is let in exactly when it has entries and all of them are in order.
  lemma AdmissibleExactlyWhen(def: Definition, request: Request)
    ensures Admissible(def, request) <==>
              request != map[] && forall raw :: raw in request ==> Acceptable(def, raw, request[raw])
  {
    forall raw | raw in request
      ensures Refusal(def, raw, request[raw]).None? <==> Acceptable(def, raw, request[raw])
    {
      RefusedUnlessAcceptable(def, raw, request[raw]);
    }
  }

  // A section from which nothing has been stored reads its defaults.
  lemma ReadsDefault(def: Definition, key: string)
    requires key in def.defaults
    ensures Entry(map[], def, key) == Response(key, def.defaults[key], def.name, Default)
  {
  }

  function Reads(def: Definition, key: string): Option<Json> {
    if key in def.defaults then Some(Entry(map[], def, key).value) else None
  }

  lemma GeneralDefaults()
    ensures GENERAL.name == "general" && GENERAL.prefix == "" && |GENERAL.defaults| == 7
    ensures Reads(GENERAL, "audit_retention_days") == Some(Number(180.0))
    ensures Reads(GENERAL, "connection_log_retention_days") == Some(Number(90.0))
    ensures Reads(GENERAL, "file_transfer_enabled_default") == Some(Bool(true))
    ensures Reads(GENERAL, "public_rustdesk_fallback") == Some(Bool(false))
    ensures Reads(GENERAL, "relay_auth_required") == Some(Bool(true))
    ensures Reads(GENERAL, "terminal_enabled_default") == Some(Bool(false))
    ensures Reads(GENERAL, "web_client_enabled") == Some(Bool(false))
  {
  }

  lemma OidcDefaults()
    ensures OIDC.name == "oidc" && OIDC.prefix == "oidc." && |OIDC.defaults| == 5
    ensures Reads(OIDC, "enabled") == Some(Bool(false)) && Reads(OIDC, "issuer_url") == Some(Str(""))
    ensures Reads(OIDC, "client_id") == Some(Str("")) && Reads(OIDC, "scopes") == Some(Str("openid profile email"))
    ensures Reads(OIDC, "auto_create_users") == Some(Bool(false))
  {
  }

  lemma LdapDefaults()
    ensures LDAP.name == "ldap" && LDAP.prefix == "ldap." && |LDAP.defaults| == 7
    ensures Reads(LDAP, "enabled") == Some(Bool(false)) && Reads(LDAP, "url") == Some(Str(""))
    ensures Reads(LDAP, "base_dn") == Some(Str("")) && Reads(LDAP, "bind_dn") == Some(Str(""))
    ensures Reads(LDAP, "user_filter") == Some(Str("(uid={username})"))
    ensures Reads(LDAP, "group_filter") == Some(Str("")) && Reads(LDAP, "start_tls") == Some(Bool(true))
  {
  }

  lemma SmtpDefaults()
    ensures SMTP.name == "smtp" && SMTP.prefix == "smtp." && |SMTP.defaults| == 6
    ensures Reads(SMTP, "enabled") == Some(Bool(false)) && Reads(SMTP, "host") == Some(Str(""))
    ensures Reads(SMTP, "port") == Some(Number(587.0)) && Reads(SMTP, "username") == Some(Str(""))
    ensures Reads(SMTP, "from_address") == Some(Str("")) && Reads(SMTP, "tls") == Some(Bool(true))
  {
  }
}
