/** The adoption store: its persisted fields, what may be persisted, and Merge. */
module Adoption {
  import opened Basics
  import opened Text

  // ---- the store ----

  type State = string

  const STATE_FACTORY: State := "factory"
  const STATE_DISCOVERED: State := "discovered"
  const STATE_ADOPTING: State := "adopting"
  const STATE_PROVISIONING: State := "provisioning"
  const STATE_CONNECTED: State := "connected"
  const STATE_FAILED: State := "failed"

  datatype Store = Store(
    informURL: string,
    authKey: string,
    cfgVersion: string,
    useAESGCM: bool,
    version: string,
    state: State)

  const EMPTY_STORE := Store("", "", "", false, "", "")
  const FACTORY_STORE := EMPTY_STORE.(state := STATE_FACTORY)

  // ---- the field table ----

  datatype Field = StateField | InformURLField | AuthKeyField | CfgVersionField | UseGCMField | VersionField

  const STORE_FIELDS: seq<Field> :=
    [StateField, InformURLField, AuthKeyField, CfgVersionField, UseGCMField, VersionField]

  function EnvKey(field: Field): string {
    match field
    case StateField => "STATE"
    case InformURLField => "INFORM_URL"
    case AuthKeyField => "AUTHKEY"
    case CfgVersionField => "CFGVERSION"
    case UseGCMField => "USE_AES_GCM"
    case VersionField => "VERSION"
  }

  /** "" for the two fields a controller may not set through mgmt_cfg. */
  function MgmtKey(field: Field): string {
    match field
    case StateField => ""
    case InformURLField => "inform_url"
    case AuthKeyField => "authkey"
    case CfgVersionField => "cfgversion"
    case UseGCMField => "use_aes_gcm"
    case VersionField => ""
  }

  function Get(field: Field, store: Store): string {
    match field
    case StateField => store.state
    case InformURLField => store.informURL
    case AuthKeyField => store.authKey
    case CfgVersionField => store.cfgVersion
    case UseGCMField => if store.useAESGCM then "true" else ""
    case VersionField => store.version
  }

  function Set(field: Field, store: Store, value: string): Store {
    match field
    case StateField => store.(state := value)
    case InformURLField => store.(informURL := value)
    case AuthKeyField => store.(authKey := value)
    case CfgVersionField => store.(cfgVersion := value)
    case UseGCMField => store.(useAESGCM := ParseBool(value) == Some(true))
    case VersionField => store.(version := value)
  }

  /** strconv.ParseBool. */
  function ParseBool(value: string): Option<bool> {
    if value == "1" || value == "t" || value == "T" || value == "TRUE" || value == "true" || value == "True" then Some(true)
    else if value == "0" || value == "f" || value == "F" || value == "FALSE" || value == "false" || value == "False" then Some(false)
    else None
  }

  function FieldByEnvKey(key: string): (r: Option<Field>)
    ensures r.Some? ==> EnvKey(r.value) == key
    ensures r.None? ==> forall f: Field :: EnvKey(f) != key
  {
    if key == "STATE" then Some(StateField)
    else if key == "INFORM_URL" then Some(InformURLField)
    else if key == "AUTHKEY" then Some(AuthKeyField)
    else if key == "CFGVERSION" then Some(CfgVersionField)
    else if key == "USE_AES_GCM" then Some(UseGCMField)
    else if key == "VERSION" then Some(VersionField)
    else None
  }

  function FieldByMgmtKey(key: string): (r: Option<Field>)
    ensures r.Some? ==> MgmtKey(r.value) == key && r.value !in [StateField, VersionField]
    ensures r.None? ==> forall f: Field :: MgmtKey(f) == key ==> key == ""
  {
    if key == "inform_url" then Some(InformURLField)
    else if key == "authkey" then Some(AuthKeyField)
    else if key == "cfgversion" then Some(CfgVersionField)
    else if key == "use_aes_gcm" then Some(UseGCMField)
    else None
  }

  // ---- authentication keys ----

  /** MD5 of "ubnt", the key every unadopted device shares. */
  const DEFAULT_KEY :=
    "\U{BA}\U{86}\U{F2}\U{BB}\U{E1}\U{07}\U{C7}\U{C5}\U{7E}\U{B5}\U{F2}\U{69}\U{07}\U{75}\U{C7}\U{12}"

  /** The 16 bytes a key text stands for, in either accepted form. */
  function NormalizedKey(text: string): (r: Option<string>) {
    if |text| == 16 then Some(text)
    else if |text| == 32 then HexDecode(text)
    else None
  }

  predicate AuthKeysEqual(left: string, right: string) {
    left == right || (NormalizedKey(left).Some? && NormalizedKey(left) == NormalizedKey(right))
  }

  predicate ValidAuthKeyText(value: string, allowRaw: bool) {
    && (if |value| == 16 then allowRaw else |value| == 32 && HexDecode(value).Some?)
    && NormalizedKey(value) != Some(DEFAULT_KEY)
  }

  // ---- what may be persisted ----

  /** What url.Parse accepts is a parameter: true for an absolute HTTP(S) URL with a
      host and without opaque part, user info, query or fragment. */
  type UrlPolicy = string -> bool

  predicate ValidInformURL(urls: UrlPolicy, value: string) {
    |value| <= 2048 && urls(value) && '#' !in value
  }

  /** validateMgmtField, by the field its key names. */
  predicate ValidMgmtField(urls: UrlPolicy, field: Field, value: string) {
    match field
    case AuthKeyField => |value| == 32 && ValidAuthKeyText(value, false)
    case UseGCMField => ParseBool(value).Some?
    case CfgVersionField => |value| <= 31
    case InformURLField => ValidInformURL(urls, value)
    case _ => true
  }

  predicate ControlByte(c: char) {
    c < ' ' || c == '\U{7F}'
  }

  predicate ValidPersistedValue(value: string) {
    value == TrimSpace(value) && forall c <- value :: !ControlByte(c)
  }

  predicate ValidPersistedField(urls: UrlPolicy, field: Field, value: string) {
    match field
    case AuthKeyField => ValidAuthKeyText(value, true)
    case _ => ValidMgmtField(urls, field, value)
  }

  predicate KnownState(state: State) {
    state in ["", STATE_FACTORY, STATE_DISCOVERED, STATE_ADOPTING, STATE_PROVISIONING, STATE_CONNECTED, STATE_FAILED]
  }

  predicate ValidPersistedStore(store: Store) {
    && KnownState(store.state)
    && !(store.authKey == "" && (store.state == STATE_ADOPTING || store.state == STATE_CONNECTED || store.useAESGCM))
    && !(store.state == STATE_FACTORY && store.authKey != "")
  }

  predicate FieldValid(urls: UrlPolicy, field: Field, store: Store) {
    var value := Get(field, store);
    value == "" || (ValidPersistedValue(value) && ValidPersistedField(urls, field, value))
  }

  /** validateStoreForPersistence: what SaveEnv writes rather than refuses. */
  predicate Persistable(urls: UrlPolicy, store: Store) {
    && store != EMPTY_STORE
    && (forall f: Field :: FieldValid(urls, f, store))
    && ValidPersistedStore(store)
  }

  // ---- merging an update ----

  /** A controller update that carries a key, a new key or a new URL reopens adoption. */
  predicate ReopensAdoption(base: Store, update: Store) {
    || (update.state == STATE_CONNECTED && update.authKey != "")
    || (update.authKey != "" && !AuthKeysEqual(update.authKey, base.authKey))
    || (update.informURL != "" && update.informURL != base.informURL)
  }

  /** The lifecycle state an update asks for once its identity effect is known;
      "" leaves the base state alone. */
  function UpdateState(base: Store, update: Store): State {
    if ReopensAdoption(base, update) then
      if update.authKey != "" || base.authKey != "" then STATE_ADOPTING else STATE_PROVISIONING
    else if update.state == STATE_CONNECTED && base.authKey == "" && update.authKey == "" then ""
    else if update.state == STATE_ADOPTING || (base.authKey != "" && update.state == STATE_PROVISIONING) then ""
    else update.state
  }

  function Pick(update: string, base: string): string {
    if update != "" then update else base
  }

  function Merged(base: Store, update: Store): Store {
    Store(
      Pick(update.informURL, base.informURL),
      Pick(update.authKey, base.authKey),
      Pick(update.cfgVersion, base.cfgVersion),
      update.useAESGCM || base.useAESGCM,
      Pick(update.version, base.version),
      Pick(UpdateState(base, update), base.state))
  }

  /** The fields of one store up to position i of the table over those of another. */
  ghost function Overlaid(base: Store, over: Store, i: nat): Store {
    Store(
      if i > 1 then Pick(over.informURL, base.informURL) else base.informURL,
      if i > 2 then Pick(over.authKey, base.authKey) else base.authKey,
      if i > 3 then Pick(over.cfgVersion, base.cfgVersion) else base.cfgVersion,
      if i > 4 then over.useAESGCM || base.useAESGCM else base.useAESGCM,
      if i > 5 then Pick(over.version, base.version) else base.version,
      if i > 0 then Pick(over.state, base.state) else base.state)
  }

  lemma OverlayStep(base: Store, over: Store, i: nat)
    requires i < |STORE_FIELDS|
    ensures var f, acc := STORE_FIELDS[i], Overlaid(base, over, i);
            && Get(f, acc) == Get(f, base)
            && Overlaid(base, over, i + 1) == (if Get(f, over) != "" then Set(f, acc, Get(f, over)) else acc)
            && (Get(f, over) != "" ==> Get(f, Set(f, acc, Get(f, over))) == Get(f, over))
            && (Get(f, over) == Get(f, acc) ==> Set(f, acc, Get(f, over)) == acc)
  {
  }

  lemma OverlayEnds(base: Store, update: Store)
    ensures Overlaid(base, update, 0) == base
    ensures Overlaid(base, update.(state := UpdateState(base, update)), |STORE_FIELDS|) == Merged(base, update)
  {
    hide UpdateState;
  }

  /** Applies the non-empty fields of an update through the table, one at a time. */
  method Merge(base: Store, update: Store) returns (merged: Store, changed: bool)
    ensures merged == Merged(base, update)
    ensures changed <==> merged != base
  {
    var effective := update;
    var controllerAuthKeyPresent := update.state == STATE_CONNECTED && update.authKey != "";
    var keyChanged := update.authKey != "" && !AuthKeysEqual(update.authKey, base.authKey);
    var urlChanged := update.informURL != "" && update.informURL != base.informURL;
    if controllerAuthKeyPresent || keyChanged || urlChanged {
      var resultingKey := base.authKey;
      if update.authKey != "" {
        resultingKey := update.authKey;
      }
      effective := effective.(state := if resultingKey != "" then STATE_ADOPTING else STATE_PROVISIONING);
    } else if update.state == STATE_CONNECTED && base.authKey == "" && update.authKey == "" {
      effective := effective.(state := "");
    } else if update.state == STATE_ADOPTING || (base.authKey != "" && update.state == STATE_PROVISIONING) {
      effective := effective.(state := "");
    }
    assert effective == update.(state := UpdateState(base, update));
    OverlayEnds(base, update);
    OverlayEnds(base, effective);
    hide Overlaid, Merged, Get, Set, UpdateState;
    merged, changed := base, false;
    for i := 0 to |STORE_FIELDS|
      invariant merged == Overlaid(base, effective, i)
      invariant changed <==> merged != base
    {
      OverlayStep(base, effective, i);
      var field := STORE_FIELDS[i];
      var value := Get(field, effective);
      if value != "" && Get(field, merged) != value {
        merged := Set(field, merged, value);
        changed := true;
      }
    }
  }

  // ---- what a merge means for the confirmed identity ----

  /** The bytes a stored key puts on the wire: 16 raw bytes or 32 hexadecimal digits. */
  function WireKey(text: string): Option<string> {
    if |text| == 16 then Some(text)
    else
      var key := HexDecode(text);
      if key.Some? && |key.value| == 16 then key else None
  }

  lemma ValidKeyHasWireKey(text: string)
    requires ValidAuthKeyText(text, true)
    ensures WireKey(text).Some? && WireKey(text) == NormalizedKey(text) && WireKey(text) != Some(DEFAULT_KEY)
  {
  }

  /** Two keys are the same key when they are the same text or the same sixteen bytes. */
  lemma AuthKeysEqualIff(left: string, right: string)
    ensures AuthKeysEqual(left, right) <==> left == right || (WireKey(left).Some? && WireKey(left) == WireKey(right))
  {
  }

  /** An individual key text: 16 raw bytes where those are allowed or 32 hexadecimal digits,
      standing for anything but the public default key. */
  lemma ValidAuthKeyIff(text: string, allowRaw: bool)
    ensures ValidAuthKeyText(text, allowRaw) <==>
              && WireKey(text).Some? && WireKey(text) != Some(DEFAULT_KEY)
              && (|text| == 32 || (|text| == 16 && allowRaw))
  {
  }

  // ---- what a merge does to every field ----

  /** A merge takes each text the update has and keeps the base's otherwise; GCM once on
      stays on. */
  lemma MergedFields(base: Store, update: Store)
    ensures Merged(base, update).informURL == if update.informURL == "" then base.informURL else update.informURL
    ensures Merged(base, update).authKey == if update.authKey == "" then base.authKey else update.authKey
    ensures Merged(base, update).cfgVersion == if update.cfgVersion == "" then base.cfgVersion else update.cfgVersion
    ensures Merged(base, update).version == if update.version == "" then base.version else update.version
    ensures Merged(base, update).useAESGCM <==> base.useAESGCM || update.useAESGCM
  {
  }

  /** The identity moves: another URL, another key, or any key from the controller. */
  ghost predicate Moves(base: Store, update: Store) {
    || (update.informURL != "" && update.informURL != base.informURL)
    || (update.authKey != "" && update.state == STATE_CONNECTED)
    || (&& update.authKey != "" && update.authKey != base.authKey
        && !(WireKey(update.authKey).Some? && WireKey(update.authKey) == WireKey(base.authKey)))
  }

  /** The state after a merge, by cases. A moved identity starts adoption again: adopting
      with a key, provisioning without. Otherwise a confirmation counts for a keyed device
      only, a request to adopt changes nothing, a request to provision counts for an unkeyed
      device only, and any other state is taken as it is. */
  lemma MergedState(base: Store, update: Store)
    ensures Merged(base, update).state ==
              if Moves(base, update) then
                (if base.authKey == "" && update.authKey == "" then STATE_PROVISIONING else STATE_ADOPTING)
              else if update.state == "" || update.state == STATE_ADOPTING then base.state
              else if update.state == STATE_CONNECTED then (if base.authKey == "" then base.state else STATE_CONNECTED)
              else if update.state == STATE_PROVISIONING then (if base.authKey == "" then STATE_PROVISIONING else base.state)
              else update.state
  {
    AuthKeysEqualIff(update.authKey, base.authKey);
    hide WireKey, AuthKeysEqual;
  }

  /** A store that comes out of Merge as connected still has the key bytes and the URL
      of the base it was merged onto, and either the base was connected already or the
      update is a controller confirmation of a keyed device. */
  lemma MergeConfirmsOnlyTheBaseIdentity(base: Store, update: Store)
    requires base.authKey == "" || ValidAuthKeyText(base.authKey, true)
    requires base.state == STATE_CONNECTED ==> base.authKey != ""
    requires Merged(base, update).state == STATE_CONNECTED
    ensures base.authKey != "" && WireKey(Merged(base, update).authKey) == WireKey(base.authKey)
    ensures Merged(base, update).informURL == base.informURL
    ensures base.state == STATE_CONNECTED || update.state == STATE_CONNECTED
  {
    assert !ReopensAdoption(base, update);
    if update.authKey != "" && update.authKey != base.authKey {
      assert NormalizedKey(update.authKey) == NormalizedKey(base.authKey);
    }
  }

  /** A keyed store merges to connected exactly when nothing about its identity is
      reopened and the controller confirms it, or it was connected and the update
      asks for no other state. */
  lemma MergeConnectedIff(base: Store, update: Store)
    requires base.authKey != ""
    ensures Merged(base, update).state == STATE_CONNECTED <==>
              && !ReopensAdoption(base, update)
              && (update.state == STATE_CONNECTED
                  || (base.state == STATE_CONNECTED && update.state in ["", STATE_ADOPTING, STATE_PROVISIONING]))
  {
  }

  /** What the SSH shim sends: a URL, a key or both, under the state it chose. */
  function LocalUpdate(url: string, key: string): Store {
    EMPTY_STORE.(informURL := url, authKey := key, state := if key != "" then STATE_ADOPTING else STATE_PROVISIONING)
  }

  /** Sending the same identity over SSH a second time changes nothing, so it cannot
      push a confirmed session back into adoption. */
  lemma RepeatedLocalUpdateIsNoOp(base: Store, url: string, key: string)
    ensures var once := Merged(base, LocalUpdate(url, key)); Merged(once, LocalUpdate(url, key)) == once
  {
  }

  /** What `set-adopt` and `set-inform` make of a device: the URL and the key they were given
      replace the stored ones; a new URL or key starts adoption again with whatever key there
      is then, and the same identity again leaves a keyed device in its state. */
  lemma LocalUpdateState(base: Store, url: string, key: string)
    ensures var m := Merged(base, LocalUpdate(url, key));
            && m.informURL == (if url == "" then base.informURL else url)
            && m.authKey == (if key == "" then base.authKey else key)
            && m.state == if m.authKey == "" then STATE_PROVISIONING
                          else if Moves(base, LocalUpdate(url, key)) then STATE_ADOPTING
                          else base.state
  {
    MergedState(base, LocalUpdate(url, key));
    MergedFields(base, LocalUpdate(url, key));
    hide WireKey, Merged;
  }

  // ---- the field table ----

  /** Setting a field changes that field and no other. */
  lemma SetThenGet(field: Field, other: Field, store: Store, value: string)
    ensures field != UseGCMField ==> Get(field, Set(field, store, value)) == value
    ensures Set(UseGCMField, store, value).useAESGCM <==> value in ["1", "t", "T", "TRUE", "true", "True"]
    ensures other != field ==> Get(other, Set(field, store, value)) == Get(other, store)
  {
  }
}
