/** Controller responses: what part of one may become adoption state, and how the
    daemon applies it to the state file. */
module Controller {
  import opened Basics
  import opened Text
  import opened Adoption
  import opened EnvFile

  // ---- mgmt_cfg ----

  const MAX_MGMT_CFG_BYTES := 64 * 1024
  const MAX_MGMT_CFG_LINES := 256
  const MAX_MGMT_CFG_LINE := 4096

  /** One mgmt_cfg line: None refuses the block, unknown keys leave the store alone. */
  function MgmtLine(urls: UrlPolicy, store: Store, line: string): Option<Store> {
    if |line| > MAX_MGMT_CFG_LINE then None
    else
      var trimmed := TrimSpace(line);
      var cut := IndexOf(trimmed, '=');
      if cut == |trimmed| then Some(store)
      else
        var field := FieldByMgmtKey(trimmed[..cut]);
        if field.None? then Some(store)
        else
          var value := TrimSpace(trimmed[cut + 1..]);
          if ValidMgmtField(urls, field.value, value) then Some(Set(field.value, store, value)) else None
  }

  function MgmtLines(urls: UrlPolicy, store: Store, lines: seq<string>): Option<Store>
    decreases |lines|
  {
    if lines == [] then Some(store)
    else
      var next := MgmtLine(urls, store, lines[0]);
      if next.None? then None else MgmtLines(urls, next.value, lines[1..])
  }

  function MgmtStore(urls: UrlPolicy, text: string): Option<Store> {
    if |text| > MAX_MGMT_CFG_BYTES || |Split(text, '\n')| > MAX_MGMT_CFG_LINES then None
    else MgmtLines(urls, EMPTY_STORE, Split(text, '\n'))
  }

  /** Reads a mgmt_cfg block; None is a refused block. */
  method ParseMgmtCFG(urls: UrlPolicy, text: string) returns (r: Option<Store>)
    ensures r == MgmtStore(urls, text)
  {
    hide TrimSpace, IndexOf, Split, FieldByMgmtKey, ValidMgmtField, Set, MgmtLines;
    if |text| > MAX_MGMT_CFG_BYTES {
      return None;
    }
    var lines := Split(text, '\n');
    if |lines| > MAX_MGMT_CFG_LINES {
      return None;
    }
    var store := EMPTY_STORE;
    assert lines[0..] == lines;
    for i := 0 to |lines|
      invariant MgmtLines(urls, EMPTY_STORE, lines) == MgmtLines(urls, store, lines[i..])
    {
      var line := lines[i];
      MgmtLinesFrom(urls, store, lines, i);
      if |line| > MAX_MGMT_CFG_LINE {
        return None;
      }
      var trimmed := TrimSpace(line);
      var cut := IndexOf(trimmed, '=');
      if cut < |trimmed| {
        var field := FieldByMgmtKey(trimmed[..cut]);
        if field.Some? {
          var value := TrimSpace(trimmed[cut + 1..]);
          if !ValidMgmtField(urls, field.value, value) {
            return None;
          }
          store := Set(field.value, store, value);
        }
      }
    }
    MgmtLinesEnd(urls, store, lines);
    return Some(store);
  }

  lemma MgmtLinesFrom(urls: UrlPolicy, store: Store, lines: seq<string>, i: nat)
    requires i < |lines|
    ensures MgmtLines(urls, store, lines[i..])
         == var next := MgmtLine(urls, store, lines[i]); if next.None? then None else MgmtLines(urls, next.value, lines[i + 1..])
  {
    hide MgmtLine;
    assert lines[i..][0] == lines[i] && lines[i..][1..] == lines[i + 1..];
  }

  lemma MgmtLinesEnd(urls: UrlPolicy, store: Store, lines: seq<string>)
    ensures MgmtLines(urls, store, lines[|lines|..]) == Some(store)
  {
  }

  /** Only the allow-listed fields, and only valid values of them. */
  ghost predicate AllowListed(urls: UrlPolicy, store: Store) {
    && store.state == "" && store.version == ""
    && (store.informURL == "" || ValidInformURL(urls, store.informURL))
    && (store.authKey == "" || (|store.authKey| == 32 && ValidAuthKeyText(store.authKey, false)))
    && |store.cfgVersion| <= 31
  }

  lemma {:induction false} MgmtLinesAreAllowListed(urls: UrlPolicy, store: Store, lines: seq<string>)
    requires AllowListed(urls, store)
    ensures MgmtLines(urls, store, lines).Some? ==> AllowListed(urls, MgmtLines(urls, store, lines).value)
    decreases |lines|
  {
    hide TrimSpace, IndexOf, ValidAuthKeyText, ValidInformURL;
    if lines != [] {
      var next := MgmtLine(urls, store, lines[0]);
      if next.Some? {
        MgmtLinesAreAllowListed(urls, next.value, lines[1..]);
      }
    }
  }

  /** Whatever text a controller sends as mgmt_cfg, what is taken from it is the four
      allow-listed fields with valid values and nothing else. */
  lemma MgmtStoreIsAllowListed(urls: UrlPolicy, text: string)
    ensures MgmtStore(urls, text).Some? ==> AllowListed(urls, MgmtStore(urls, text).value)
  {
    hide Split, MgmtLines;
    MgmtLinesAreAllowListed(urls, EMPTY_STORE, Split(text, '\n'));
  }

  /** The texts of a store carry no outer blanks. */
  ghost predicate TrimmedTexts(store: Store) {
    && store.informURL == TrimSpace(store.informURL) && store.authKey == TrimSpace(store.authKey)
    && store.cfgVersion == TrimSpace(store.cfgVersion)
  }

  lemma {:induction false} MgmtLinesAreTrimmed(urls: UrlPolicy, store: Store, lines: seq<string>)
    requires TrimmedTexts(store)
    ensures MgmtLines(urls, store, lines).Some? ==> TrimmedTexts(MgmtLines(urls, store, lines).value)
    decreases |lines|
  {
    hide TrimSpace, IndexOf, ValidMgmtField;
    if lines != [] {
      var trimmed := TrimSpace(lines[0]);
      var cut := IndexOf(trimmed, '=');
      if cut < |trimmed| {
        TrimTwice(trimmed[cut + 1..]);
      }
      var next := MgmtLine(urls, store, lines[0]);
      if next.Some? {
        MgmtLinesAreTrimmed(urls, next.value, lines[1..]);
      }
    }
  }

  lemma MgmtStoreIsTrimmed(urls: UrlPolicy, text: string)
    ensures MgmtStore(urls, text).Some? ==> TrimmedTexts(MgmtStore(urls, text).value)
  {
    hide Split, MgmtLines;
    assert TrimSpace("") == "";
    MgmtLinesAreTrimmed(urls, EMPTY_STORE, Split(text, '\n'));
  }

  // ---- what a line does ----

  lemma ParseBoolIs(value: string)
    ensures ParseBool(value) == if value in ["1", "t", "T", "TRUE", "true", "True"] then Some(true)
                                else if value in ["0", "f", "F", "FALSE", "false", "False"] then Some(false)
                                else None
  {
  }

  lemma MgmtLineCut(urls: UrlPolicy, store: Store, line: string, key: string, text: string)
    requires '=' !in key && TrimSpace(line) == key + "=" + text
    ensures MgmtLine(urls, store, line) ==
              if |line| > 4096 then None
              else if FieldByMgmtKey(key).None? then Some(store)
              else if ValidMgmtField(urls, FieldByMgmtKey(key).value, TrimSpace(text)) then
                Some(Set(FieldByMgmtKey(key).value, store, TrimSpace(text)))
              else None
  {
    CutAtEquals(key, text);
    hide TrimSpace, IndexOf, FieldByMgmtKey, ValidMgmtField, Set;
  }

  /** A line whose trimmed text is key=value: a value of one of the four allow-listed keys is
      taken, trimmed, if it is valid and refuses the whole block if it is not; any other key
      is ignored, whatever its value. */
  lemma MgmtKeyValueLine(urls: UrlPolicy, store: Store, line: string, key: string, text: string)
    requires '=' !in key && TrimSpace(line) == key + "=" + text
    ensures MgmtLine(urls, store, line) ==
              var value := TrimSpace(text);
              if |line| > 4096 then None
              else if key == "inform_url" then
                if |value| <= 2048 && urls(value) && '#' !in value then Some(store.(informURL := value)) else None
              else if key == "authkey" then
                if |value| == 32 && WireKey(value).Some? && WireKey(value) != Some(DEFAULT_KEY) then Some(store.(authKey := value)) else None
              else if key == "cfgversion" then
                if |value| <= 31 then Some(store.(cfgVersion := value)) else None
              else if key == "use_aes_gcm" then
                if value in ["1", "t", "T", "TRUE", "true", "True"] then Some(store.(useAESGCM := true))
                else if value in ["0", "f", "F", "FALSE", "false", "False"] then Some(store.(useAESGCM := false))
                else None
              else Some(store)
  {
    MgmtLineCut(urls, store, line, key, text);
    ValidAuthKeyIff(TrimSpace(text), false);
    ParseBoolIs(TrimSpace(text));
    hide TrimSpace, MgmtLine, WireKey, ValidAuthKeyText, ParseBool;
  }

  /** A line without an equals sign is ignored, unless it is too long. */
  lemma MgmtOtherLine(urls: UrlPolicy, store: Store, line: string)
    requires '=' !in TrimSpace(line)
    ensures MgmtLine(urls, store, line) == if |line| > 4096 then None else Some(store)
  {
    hide TrimSpace;
  }

  lemma {:induction false} MgmtLinesAppend(urls: UrlPolicy, store: Store, lines: seq<string>, last: string)
    ensures MgmtLines(urls, store, lines + [last])
         == var before := MgmtLines(urls, store, lines);
            if before.None? then None else MgmtLine(urls, before.value, last)
    decreases |lines|
  {
    hide MgmtLine;
    if lines == [] {
      assert (lines + [last])[1..] == [];
      assert MgmtLines(urls, store, lines + [last]) == if MgmtLine(urls, store, last).None? then None else MgmtLines(urls, MgmtLine(urls, store, last).value, []);
    } else {
      assert (lines + [last])[1..] == lines[1..] + [last];
      var next := MgmtLine(urls, store, lines[0]);
      if next.Some? {
        MgmtLinesAppend(urls, next.value, lines[1..], last);
      }
    }
  }

  /** Lines are read in order, each on top of what the ones before it left, within the
      limits on the whole block. */
  lemma MgmtBlockGrows(urls: UrlPolicy, lines: seq<string>, last: string)
    requires lines != [] && '\n' !in last && forall line <- lines :: '\n' !in line
    ensures MgmtStore(urls, Joined(lines + [last], '\n')) ==
              var before := MgmtLines(urls, EMPTY_STORE, lines);
              if |Joined(lines + [last], '\n')| > 65536 || |lines| >= 256 || before.None? then None
              else MgmtLine(urls, before.value, last)
    ensures MgmtStore(urls, last) == if |last| > 65536 then None else MgmtLine(urls, EMPTY_STORE, last)
  {
    hide Split, Joined, MgmtLine, MgmtLines;
    JoinedSplits(lines + [last], '\n');
    MgmtLinesAppend(urls, EMPTY_STORE, lines, last);
    SplitLoneLine(last, '\n');
    MgmtLinesAppend(urls, EMPTY_STORE, [], last);
    assert [] + [last] == [last];
    assert MgmtLines(urls, EMPTY_STORE, []) == Some(EMPTY_STORE) by { MgmtLinesEnd(urls, EMPTY_STORE, []); }
  }

  // ---- responses ----

  /** A response by its type, after JSON decoding; mgmtCfg is "" when absent. */
  datatype Response = SetParam(mgmtCfg: string) | Noop | SetDefault | Upgrade | Command

  datatype Update = Update(store: Store, hasStateUpdate: bool, resetRequested: bool)

  function ParseResponse(urls: UrlPolicy, response: Response): Option<Update> {
    match response
    case SetParam(mgmtCfg) =>
      if mgmtCfg == "" then Some(Update(EMPTY_STORE.(state := STATE_CONNECTED), true, false))
      else
        var store := MgmtStore(urls, mgmtCfg);
        if store.None? then None else Some(Update(store.value.(state := STATE_CONNECTED), true, false))
    case Noop => Some(Update(EMPTY_STORE.(state := STATE_CONNECTED), true, false))
    case SetDefault => Some(Update(FACTORY_STORE, true, true))
    case Upgrade => Some(Update(EMPTY_STORE, false, false))
    case Command => Some(Update(EMPTY_STORE, false, false))
  }

  // ---- the state file ----

  datatype LoadFailure = Missing | Invalid(error: LoadError)

  function Load(urls: UrlPolicy, file: Option<string>): Result<Store, LoadFailure> {
    match file
    case None => Err(Missing)
    case Some(text) =>
      match Parse(urls, text)
      case Ok(store) => Ok(store)
      case Err(error) => Err(Invalid(error))
  }

  /** The file after an attempt to save, given whether the atomic write went through. */
  function Saved(urls: UrlPolicy, file: Option<string>, store: Store, wrote: bool): Option<string> {
    if wrote && Persistable(urls, store) then Some(Print(store)) else file
  }

  class StateFile {
    /** Whether every write goes through; otherwise any may fail. */
    const reliable: bool
    var contents: Option<string>

    constructor (reliable: bool)
      ensures this.reliable == reliable && contents == None
    {
      this.reliable, contents := reliable, None;
    }

    /** Replaces the file atomically, or fails and leaves it as it was. */
    method Write(text: string) returns (ok: bool)
      modifies this
      ensures contents == if ok then Some(text) else old(contents)
      ensures reliable ==> ok
    {
      ok := *;
      ok := ok || reliable;
      if ok {
        contents := Some(text);
      }
    }

    method LoadEnv(urls: UrlPolicy) returns (r: Result<Store, LoadFailure>)
      ensures r == Load(urls, contents)
    {
      if contents == None {
        return Err(Missing);
      }
      var parsed := ReadStore(urls, contents.value);
      match parsed {
        case Ok(store) => return Ok(store);
        case Err(error) => return Err(Invalid(error));
      }
    }

    method SaveEnv(urls: UrlPolicy, store: Store) returns (ok: bool)
      modifies this
      ensures ok ==> Persistable(urls, store)
      ensures reliable && Persistable(urls, store) ==> ok
      ensures contents == Saved(urls, old(contents), store, ok)
    {
      var text := PrintStore(urls, store);
      if text.None? {
        return false;
      }
      ok := Write(text.value);
    }

    method ResetEnv(urls: UrlPolicy) returns (store: Store, ok: bool)
      modifies this
      ensures store == FACTORY_STORE
      ensures ok ==> Persistable(urls, FACTORY_STORE)
      ensures reliable ==> ok
      ensures contents == Saved(urls, old(contents), FACTORY_STORE, ok)
    {
      hide Persistable, Print;
      store := FACTORY_STORE;
      FactoryStoreIsPersistable(urls);
      ok := SaveEnv(urls, store);
    }
  }

  // ---- applying a response ----

  datatype Disposition = NotReset | ResetApplied | ResetAlreadyFactory | ResetFailed

  predicate AlreadyFactory(store: Store) {
    && store.authKey == "" && store.informURL == "" && store.cfgVersion == ""
    && !store.useAESGCM && store.version == ""
    && (store.state == "" || store.state == STATE_FACTORY)
  }

  /** The store a response asks the daemon to hold, given the store its heartbeat used. */
  function Target(base: Store, update: Update, usedGCM: bool): Store {
    if update.resetRequested then FACTORY_STORE
    else if !update.hasStateUpdate then
      if usedGCM && base.authKey != "" then base.(useAESGCM := true) else base
    else
      Merged(base, if usedGCM then update.store.(useAESGCM := true) else update.store)
  }

  /** Whether the response makes the daemon write: a reset always does. */
  function Writes(base: Store, update: Update, usedGCM: bool): bool {
    update.resetRequested || Target(base, update, usedGCM) != base
  }

  /** The two stores a reset finds nothing to clear in. */
  lemma AlreadyFactoryIff(store: Store)
    ensures AlreadyFactory(store) <==> store == EMPTY_STORE || store == FACTORY_STORE
  {
  }

  /** What each type of response asks for. Only a setparam with a refused block is no answer;
      setdefault asks for the factory store; upgrades and commands only record that GCM
      worked; a noop or empty setparam confirms a keyed device; and a setparam with news
      takes it over the base, starting adoption again for any key or a new URL. */
  lemma TargetByType(urls: UrlPolicy, base: Store, response: Response, usedGCM: bool)
    ensures ParseResponse(urls, response).None? <==>
              response.SetParam? && response.mgmtCfg != "" && MgmtStore(urls, response.mgmtCfg).None?
    ensures ParseResponse(urls, response).Some? ==>
              var target := Target(base, ParseResponse(urls, response).value, usedGCM);
              match response
              case SetDefault => target == FACTORY_STORE
              case Upgrade => target == base.(useAESGCM := base.useAESGCM || (usedGCM && base.authKey != ""))
              case Command => target == base.(useAESGCM := base.useAESGCM || (usedGCM && base.authKey != ""))
              case Noop => target == Confirmation(base, usedGCM)
              case SetParam(text) =>
                if text == "" then target == Confirmation(base, usedGCM)
                else
                  var told := MgmtStore(urls, text).value;
                  && target.informURL == (if told.informURL == "" then base.informURL else told.informURL)
                  && target.authKey == (if told.authKey == "" then base.authKey else told.authKey)
                  && target.cfgVersion == (if told.cfgVersion == "" then base.cfgVersion else told.cfgVersion)
                  && target.version == base.version
                  && target.useAESGCM == (base.useAESGCM || told.useAESGCM || usedGCM)
                  && target.state ==
                       if told.authKey != "" then STATE_ADOPTING
                       else if told.informURL !in ["", base.informURL] then (if base.authKey == "" then STATE_PROVISIONING else STATE_ADOPTING)
                       else if base.authKey == "" then base.state
                       else STATE_CONNECTED
  {
    hide MgmtStore, Merged, WireKey, AuthKeysEqual;
    if ParseResponse(urls, response).Some? {
      var update := ParseResponse(urls, response).value;
      var wanted := if usedGCM then update.store.(useAESGCM := true) else update.store;
      MergedState(base, wanted);
      MergedFields(base, wanted);
      if response.SetParam? && response.mgmtCfg != "" {
        MgmtStoreIsAllowListed(urls, response.mgmtCfg);
      }
    }
  }

  /** A keyed device becomes connected; an unkeyed one stays what it was. */
  ghost function Confirmation(base: Store, usedGCM: bool): Store {
    base.(state := if base.authKey == "" then base.state else STATE_CONNECTED, useAESGCM := base.useAESGCM || usedGCM)
  }

  method UpdateAdoptionState(file: StateFile, urls: UrlPolicy, base: Store, update: Update, usedGCM: bool)
    returns (store: Store, ok: bool, disposition: Disposition)
    modifies file
    ensures !Writes(base, update, usedGCM) ==> ok && file.contents == old(file.contents)
    ensures Writes(base, update, usedGCM) ==>
              && file.contents == Saved(urls, old(file.contents), Target(base, update, usedGCM), ok)
              && (ok ==> Persistable(urls, Target(base, update, usedGCM)))
              && (file.reliable && Persistable(urls, Target(base, update, usedGCM)) ==> ok)
    ensures store == if ok then Target(base, update, usedGCM) else base
    ensures disposition == if !update.resetRequested then NotReset
                           else if !ok then ResetFailed
                           else if AlreadyFactory(base) then ResetAlreadyFactory else ResetApplied
  {
    hide Persistable, Merged, Print;
    store, ok, disposition := base, true, NotReset;
    if update.resetRequested {
      var reset;
      reset, ok := file.ResetEnv(urls);
      if !ok {
        return base, false, ResetFailed;
      }
      return reset, true, if AlreadyFactory(base) then ResetAlreadyFactory else ResetApplied;
    }
    if !update.hasStateUpdate {
      if usedGCM && base.authKey != "" && !base.useAESGCM {
        var updated := base.(useAESGCM := true);
        ok := file.SaveEnv(urls, updated);
        return if ok then updated else base, ok, NotReset;
      }
      return;
    }
    var wanted := update.store;
    if usedGCM {
      wanted := wanted.(useAESGCM := true);
    }
    var merged, changed := Merge(base, wanted);
    if changed {
      ok := file.SaveEnv(urls, merged);
      return if ok then merged else base, ok, NotReset;
    }
    return merged, true, NotReset;
  }

  lemma FactoryStateIsValue()
    ensures ValidPersistedValue(STATE_FACTORY)
  {
    hide TrimLeft, TrimRight;
    var value := STATE_FACTORY;
    assert |value| == 7 && value[0] == 'f' && value[1] == 'a' && value[2] == 'c' && value[3] == 't';
    assert value[4] == 'o' && value[5] == 'r' && value[6] == 'y';
    assert LeadingSpace(value) == 0 && TrailingSpace(value) == 0;
  }

  lemma FactoryFieldIsValid(urls: UrlPolicy, field: Field)
    ensures FieldValid(urls, field, FACTORY_STORE)
  {
    hide ValidPersistedValue;
    FactoryStateIsValue();
    assert field != StateField ==> Get(field, FACTORY_STORE) == "";
  }

  /** A reset can only fail at the write: the factory store is always fit to persist. */
  lemma FactoryStoreIsPersistable(urls: UrlPolicy)
    ensures Persistable(urls, FACTORY_STORE) && Parse(urls, Print(FACTORY_STORE)) == Ok(FACTORY_STORE)
  {
    assert Persistable(urls, FACTORY_STORE) by {
      hide FieldValid;
      forall field: Field
        ensures FieldValid(urls, field, FACTORY_STORE)
      {
        FactoryFieldIsValid(urls, field);
      }
    }
    hide Print, Parse, Persistable;
    SavedStoreLoads(urls, FACTORY_STORE);
  }
}
