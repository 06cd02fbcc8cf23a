/** What a factory reset over SSH is worth while a heartbeat is on its way: exactly when it
    stands, and a run that loses it. */
module Resets {
  import opened Basics
  import opened Text
  import opened Adoption
  import opened EnvFile
  import opened Controller
  import opened Lifecycle

  // ---- what an answer would change ----

  /** What a noop or setparam tells a device; None for a refused block and for every other type. */
  function Told(urls: UrlPolicy, response: Response): Option<Store> {
    match response
    case Noop => Some(EMPTY_STORE)
    case SetParam(mgmtCfg) => if mgmtCfg == "" then Some(EMPTY_STORE) else MgmtStore(urls, mgmtCfg)
    case _ => None
  }

  /** The device already has everything it is told, and the answer does not move its lifecycle:
      a repeated key is told while adopting, no key is told once connected. */
  predicate Agrees(base: Store, told: Store) {
    && told.informURL in ["", base.informURL]
    && told.authKey in ["", base.authKey]
    && told.cfgVersion in ["", base.cfgVersion]
    && (told.useAESGCM ==> base.useAESGCM)
    && (told.authKey != "" ==> base.state == STATE_ADOPTING)
    && (told.authKey == "" && base.authKey != "" ==> base.state == STATE_CONNECTED)
  }

  predicate Printable(text: string) {
    forall c <- text :: !ControlByte(c)
  }

  /** Saving is not refused: no control byte is told, and GCM is not turned on without a key. */
  predicate Storable(base: Store, told: Store) {
    && Printable(told.informURL) && Printable(told.cfgVersion)
    && !(base.authKey == "" && told.authKey == "" && told.useAESGCM)
  }

  /** The answer leaves a reset alone: it changes nothing of what the heartbeat was sent with,
      or its write fails or is refused. */
  predicate LeavesReset(urls: UrlPolicy, base: Store, response: Response, wrote: bool) {
    var told := Told(urls, response);
    told.Some? ==> Agrees(base, told.value) || !wrote || !Storable(base, told.value)
  }

  /** The same by type of response: only a first confirmation and a setparam with news can undo
      a reset. */
  lemma LeavesResetByType(urls: UrlPolicy, base: Store, response: Response)
    ensures response.Upgrade? || response.Command? || response.SetDefault? ==> LeavesReset(urls, base, response, true)
    ensures response.Noop? || response == SetParam("") ==>
              (LeavesReset(urls, base, response, true) <==> base.authKey == "" || base.state == STATE_CONNECTED)
    ensures response.SetParam? && response.mgmtCfg != "" ==>
              (LeavesReset(urls, base, response, true) <==>
                 var told := MgmtStore(urls, response.mgmtCfg);
                 told.None? || Agrees(base, told.value) || !Storable(base, told.value))
  {
    hide MgmtStore;
  }

  // ---- the store an answer leads to ----

  ghost function Asked(told: Store): Update {
    Update(told.(state := STATE_CONNECTED), true, false)
  }

  /** The cipher flag of the heartbeat adds nothing: it was only set because the base had it. */
  lemma TargetOfTold(base: Store, told: Store)
    ensures Target(base, Asked(told), UsesGCM(base)) == Merged(base, told.(state := STATE_CONNECTED))
  {
    hide AuthKeysEqual;
  }

  lemma MergedIsBaseIff(base: Store, told: Store)
    requires told.version == ""
    ensures Merged(base, told.(state := STATE_CONNECTED)) == base <==> Agrees(base, told)
  {
    hide AuthKeysEqual;
  }

  lemma FactoryOnlyFromFactory(base: Store, told: Store)
    requires told.version == "" && Merged(base, told.(state := STATE_CONNECTED)) == FACTORY_STORE
    ensures Agrees(base, told)
  {
    hide AuthKeysEqual;
  }

  lemma ToldIsAllowed(urls: UrlPolicy, response: Response)
    requires Told(urls, response).Some?
    ensures AllowListed(urls, Told(urls, response).value) && TrimmedTexts(Told(urls, response).value)
    ensures ParseResponse(urls, response) == Some(Asked(Told(urls, response).value))
  {
    hide MgmtStore, TrimSpace;
    if response.SetParam? {
      MgmtStoreIsAllowListed(urls, response.mgmtCfg);
      MgmtStoreIsTrimmed(urls, response.mgmtCfg);
    }
    assert TrimSpace("") == "" by { NothingToTrim(); }
  }

  lemma NothingToTrim()
    ensures TrimSpace("") == ""
  {
  }

  lemma KeyIsPrintable(key: string)
    requires |key| == 32 && HexDecode(key).Some?
    ensures Printable(key)
  {
    hide HexDecode;
    HexIsPrintable(key);
  }

  /** A field of the merged store is valid when its own source is. */
  lemma MergedFieldValid(urls: UrlPolicy, base: Store, told: Store, field: Field)
    requires Persistable(urls, base) && AllowListed(urls, told) && TrimmedTexts(told)
    requires field != StateField
    ensures FieldValid(urls, field, Merged(base, told.(state := STATE_CONNECTED))) <==>
              (field == InformURLField ==> Printable(told.informURL)) && (field == CfgVersionField ==> Printable(told.cfgVersion))
  {
    hide TrimSpace, HexDecode, AuthKeysEqual, ValidInformURL;
    assert FieldValid(urls, field, base);
    if field == AuthKeyField && told.authKey != "" {
      KeyIsPrintable(told.authKey);
    }
    if field == UseGCMField {
      hide UpdateState;
      TrueIsValid(urls);
    }
  }

  lemma MergedStateValid(urls: UrlPolicy, base: Store, told: Store)
    requires Persistable(urls, base)
    ensures FieldValid(urls, StateField, Merged(base, told.(state := STATE_CONNECTED)))
  {
    hide AuthKeysEqual;
    assert FieldValid(urls, StateField, base);
    StatesAreValues();
  }

  lemma StatesAreValues()
    ensures ValidPersistedValue(STATE_ADOPTING) && ValidPersistedValue(STATE_PROVISIONING) && ValidPersistedValue(STATE_CONNECTED)
  {
    hide TrimLeft, TrimRight;
    PlainWord(STATE_ADOPTING);
    PlainWord(STATE_PROVISIONING);
    PlainWord(STATE_CONNECTED);
  }

  lemma PlainWord(word: string)
    requires |word| >= 3 && forall c <- word :: 'a' <= c <= 'z'
    ensures ValidPersistedValue(word)
  {
    hide TrimLeft, TrimRight;
    assert word[0] in word && word[|word| - 1] in word && word[|word| - 2] in word && word[|word| - 3] in word;
    assert LeadingSpace(word) == 0 && TrailingSpace(word) == 0;
  }

  lemma MergedShapeValid(urls: UrlPolicy, base: Store, told: Store)
    requires ValidPersistedStore(base)
    ensures ValidPersistedStore(Merged(base, told.(state := STATE_CONNECTED)))
       <==> !(base.authKey == "" && told.authKey == "" && told.useAESGCM)
  {
    hide AuthKeysEqual;
  }

  /** A change a device is told of can be saved exactly when no control byte is told and GCM is
      not turned on without a key. */
  lemma ChangeIsStorableIff(urls: UrlPolicy, base: Store, told: Store)
    requires Persistable(urls, base) && AllowListed(urls, told) && TrimmedTexts(told) && !Agrees(base, told)
    ensures Persistable(urls, Merged(base, told.(state := STATE_CONNECTED))) <==> Storable(base, told)
  {
    var merged := Merged(base, told.(state := STATE_CONNECTED));
    forall field: Field
      ensures FieldValid(urls, field, merged) <==>
                (field == InformURLField ==> Printable(told.informURL)) && (field == CfgVersionField ==> Printable(told.cfgVersion))
    {
      if field == StateField { MergedStateValid(urls, base, told); } else { MergedFieldValid(urls, base, told, field); }
    }
    MergedShapeValid(urls, base, told);
    assert merged != EMPTY_STORE by { hide FieldValid, ValidPersistedStore, AuthKeysEqual; }
    hide FieldValid, ValidPersistedStore, Agrees, Printable;
    assert FieldValid(urls, InformURLField, merged) <==> Printable(told.informURL);
    assert FieldValid(urls, CfgVersionField, merged) <==> Printable(told.cfgVersion);
  }

  lemma PrintedStoresDiffer(urls: UrlPolicy, left: Store, right: Store)
    requires Persistable(urls, left) && Persistable(urls, right)
    ensures Print(left) == Print(right) <==> left == right
  {
    hide Persistable, Print, Parse;
    SavedStoreLoads(urls, left);
    SavedStoreLoads(urls, right);
  }

  // ---- the reset against the answer ----

  /** The file once a reset has been written and the answer's own write has been tried. */
  ghost function AfterApply(urls: UrlPolicy, base: Store, update: Update, wrote: bool): Option<string> {
    var reset := Some(Print(FACTORY_STORE));
    if Writes(base, update, UsesGCM(base)) then Saved(urls, reset, Target(base, update, UsesGCM(base)), wrote) else reset
  }

  lemma ToldAnswerLeavesReset(urls: UrlPolicy, base: Store, told: Store, wrote: bool)
    requires Persistable(urls, base) && AllowListed(urls, told) && TrimmedTexts(told)
    ensures AfterApply(urls, base, Asked(told), wrote) == Some(Print(FACTORY_STORE))
       <==> Agrees(base, told) || !wrote || !Storable(base, told)
  {
    var merged := Merged(base, told.(state := STATE_CONNECTED));
    TargetOfTold(base, told);
    MergedIsBaseIff(base, told);
    hide Persistable, Print, Parse, Target, Merged, Agrees, Storable, UsesGCM;
    FactoryStoreIsPersistable(urls);
    if !Agrees(base, told) {
      ChangeIsStorableIff(urls, base, told);
      if merged == FACTORY_STORE {
        FactoryOnlyFromFactory(base, told);
      }
      if Persistable(urls, merged) {
        PrintedStoresDiffer(urls, merged, FACTORY_STORE);
      }
    }
  }

  lemma AnswerLeavesResetIff(urls: UrlPolicy, base: Store, response: Response, wrote: bool)
    requires Persistable(urls, base) && ParseResponse(urls, response).Some?
    ensures AfterApply(urls, base, ParseResponse(urls, response).value, wrote) == Some(Print(FACTORY_STORE))
       <==> LeavesReset(urls, base, response, wrote)
  {
    hide Persistable, Print, Merged, MgmtStore, Agrees, Storable, AllowListed, TrimmedTexts;
    var told := Told(urls, response);
    if told.Some? {
      ToldIsAllowed(urls, response);
      ToldAnswerLeavesReset(urls, base, told.value, wrote);
    }
  }

  /** The rest of a heartbeat that has been sent, with a reset before or after the answer. */
  function Answering(response: Response, wrote: bool, early: bool): seq<Action> {
    if early then [SshReset(true), DaemonAnswer(response), DaemonApply(wrote)]
    else [DaemonAnswer(response), SshReset(true), DaemonApply(wrote)]
  }

  lemma ThreeMore(cfg: Config, past: seq<Action>, a: Action, b: Action, c: Action)
    ensures Run(cfg, past + [a, b, c]) == Next(cfg, Next(cfg, Next(cfg, Run(cfg, past), a), b), c)
  {
    hide Next, Run;
    OneMore(cfg, past, a);
    OneMore(cfg, past + [a], b);
    OneMore(cfg, past + [a] + [b], c);
    assert past + [a, b, c] == past + [a] + [b] + [c];
  }

  lemma OneMore(cfg: Config, past: seq<Action>, a: Action)
    ensures Run(cfg, past + [a]) == Next(cfg, Run(cfg, past), a)
  {
    hide Next;
    assert (past + [a])[..|past|] == past;
  }

  /** The two orders end with the same file: what the daemon decides depends on its base alone. */
  lemma OrdersAgree(cfg: Config, w: World, response: Response, wrote: bool)
    requires w.daemon.Waiting? && w.session.Free?
    ensures var base, update := w.daemon.base, ParseResponse(cfg.urls, response);
            var file := if update.None? then Some(Print(FACTORY_STORE)) else AfterApply(cfg.urls, base, update.value, wrote);
            && Next(cfg, Next(cfg, Next(cfg, w, SshReset(true)), DaemonAnswer(response)), DaemonApply(wrote)).file == file
            && Next(cfg, Next(cfg, Next(cfg, w, DaemonAnswer(response)), SshReset(true)), DaemonApply(wrote)).file == file
  {
    hide Persistable, Print, Parse, Target, Writes, UsesGCM, SenderKey, ParseResponse, EffectiveURL;
    FactoryStoreIsPersistable(cfg.urls);
  }

  /** While a sent heartbeat is being answered or its answer applied, in any reachable state, a
      factory reset written over SSH is still there afterwards exactly when the answer would
      change nothing of the store the heartbeat was sent with, or cannot be saved. */
  lemma ResetSurvivesIff(cfg: Config, past: seq<Action>, response: Response, wrote: bool, early: bool)
    requires Run(cfg, past).daemon.Waiting? && Run(cfg, past).session.Free?
    ensures Run(cfg, past + Answering(response, wrote, early)).file == Some(Print(FACTORY_STORE))
       <==> LeavesReset(cfg.urls, Run(cfg, past).daemon.base, response, wrote)
  {
    var w := Run(cfg, past);
    RunsKeepInv(cfg, past);
    var base := w.daemon.base;
    hide Persistable, Next, Print, AfterApply, ParseResponse, Agrees, Storable, Sound, SenderKey, LogSound, FileSound;
    OrdersAgree(cfg, w, response, wrote);
    ThreeMore(cfg, past, SshReset(true), DaemonAnswer(response), DaemonApply(wrote));
    ThreeMore(cfg, past, DaemonAnswer(response), SshReset(true), DaemonApply(wrote));
    if ParseResponse(cfg.urls, response).Some? {
      AnswerLeavesResetIff(cfg.urls, base, response, wrote);
    } else {
      RefusedIsNotTold(cfg.urls, response);
    }
  }

  lemma RefusedIsNotTold(urls: UrlPolicy, response: Response)
    requires ParseResponse(urls, response).None?
    ensures Told(urls, response) == None
  {
    hide MgmtStore;
  }

  /** A reset between the daemon's load and its send is lost or kept just the same, provided the
      heartbeat has somewhere to go; without a URL nothing is sent and the reset stands. */
  lemma ResetBeforeSendSurvivesIff(cfg: Config, past: seq<Action>, response: Response, wrote: bool)
    requires Run(cfg, past).daemon.Holding? && Run(cfg, past).session.Free?
    ensures var base := Run(cfg, past).daemon.base;
            Run(cfg, past + [SshReset(true), DaemonSend] + [DaemonAnswer(response), DaemonApply(wrote)]).file == Some(Print(FACTORY_STORE))
            <==> EffectiveURL(cfg, base) == "" || LeavesReset(cfg.urls, base, response, wrote)
  {
    var w := Run(cfg, past);
    var base := w.daemon.base;
    HeldStoreIsSendable(cfg, past);
    hide Next, Run, Print, LeavesReset, SenderKey;
    var sent := past + [DaemonSend];
    OneMore(cfg, past, DaemonSend);
    ThreeMore(cfg, past, SshReset(true), DaemonSend, DaemonAnswer(response));
    OneMore(cfg, past + [SshReset(true), DaemonSend, DaemonAnswer(response)], DaemonApply(wrote));
    assert past + [SshReset(true), DaemonSend, DaemonAnswer(response)] + [DaemonApply(wrote)]
        == past + [SshReset(true), DaemonSend] + [DaemonAnswer(response), DaemonApply(wrote)];
    ThreeMore(cfg, sent, SshReset(true), DaemonAnswer(response), DaemonApply(wrote));
    SendAndResetCommute(cfg, w);
    if EffectiveURL(cfg, base) != "" {
      SendWaits(cfg, w);
      ResetSurvivesIff(cfg, sent, response, wrote, true);
    } else {
      NothingSent(cfg, w, response, wrote);
    }
  }

  lemma HeldStoreIsSendable(cfg: Config, past: seq<Action>)
    requires Run(cfg, past).daemon.Holding?
    ensures SenderKey(Run(cfg, past).daemon.base).Some?
  {
    RunsKeepInv(cfg, past);
    hide Run, SenderKey, Sound, Persistable, LogSound, FileSound;
    SoundStoreHasSenderKey(cfg, Run(cfg, past).daemon.base, Run(cfg, past).log);
  }

  lemma SendAndResetCommute(cfg: Config, w: World)
    requires w.daemon.Holding? && w.session.Free?
    ensures Next(cfg, Next(cfg, w, SshReset(true)), DaemonSend) == Next(cfg, Next(cfg, w, DaemonSend), SshReset(true))
  {
    hide SenderKey, EffectiveURL, UsesGCM, ReportedState, Saved;
  }

  lemma SendWaits(cfg: Config, w: World)
    requires w.daemon.Holding? && w.session.Free? && SenderKey(w.daemon.base).Some? && EffectiveURL(cfg, w.daemon.base) != ""
    ensures var after := Next(cfg, w, DaemonSend); after.daemon == Waiting(w.daemon.base) && after.session.Free?
  {
    hide SenderKey, EffectiveURL;
  }

  lemma NothingSent(cfg: Config, w: World, response: Response, wrote: bool)
    requires w.daemon.Holding? && w.session.Free? && EffectiveURL(cfg, w.daemon.base) == ""
    ensures Next(cfg, Next(cfg, Next(cfg, Next(cfg, w, SshReset(true)), DaemonSend), DaemonAnswer(response)), DaemonApply(wrote)).file
         == Some(Print(FACTORY_STORE))
  {
    var reset := w.(file := Some(Print(FACTORY_STORE)));
    ResetStep(cfg, w);
    SendStops(cfg, reset);
    IdleStays(cfg, reset.(daemon := Idle), response, wrote);
    hide Next, Print;
  }

  lemma ResetStep(cfg: Config, w: World)
    requires w.session.Free?
    ensures Next(cfg, w, SshReset(true)) == w.(file := Some(Print(FACTORY_STORE)))
  {
    hide Persistable, Print, Parse;
    FactoryStoreIsPersistable(cfg.urls);
  }

  lemma SendStops(cfg: Config, w: World)
    requires w.daemon.Holding? && EffectiveURL(cfg, w.daemon.base) == ""
    ensures Next(cfg, w, DaemonSend) == w.(daemon := Idle)
  {
    hide SenderKey, EffectiveURL;
  }

  lemma IdleStays(cfg: Config, w: World, response: Response, wrote: bool)
    requires w.daemon.Idle?
    ensures Next(cfg, w, DaemonAnswer(response)) == w && Next(cfg, w, DaemonApply(wrote)) == w
  {
  }

  // ---- runs that show it ----

  /** What the shim writes when a device without a file is given a URL and a key. */
  function Adopted(url: string, key: string): Store {
    Store(url, key, "", false, "", STATE_ADOPTING)
  }

  function Adopting(url: string, key: string): seq<Action> {
    [SshLoad(url, key), SshSave(true), DaemonLoad, DaemonSend]
  }

  lemma ShimLoads(cfg: Config, url: string, key: string)
    requires url != ""
    ensures Next(cfg, START_WORLD, SshLoad(url, key)) == START_WORLD.(session := Locked(EMPTY_STORE, url, key))
  {
    hide Parse;
  }

  lemma ShimSaves(cfg: Config, w: World, base: Store, url: string, key: string, store: Store)
    requires w.session == Locked(base, url, key) && Merged(base, LocalUpdate(url, key)) == store && Persistable(cfg.urls, store)
    ensures Next(cfg, w, SshSave(true)) == w.(file := Some(Print(store)), session := Free)
  {
    hide Persistable, Print, Merged;
  }

  lemma ShimAdopts(cfg: Config, url: string, key: string)
    requires url != "" && key != "" && Persistable(cfg.urls, Adopted(url, key))
    ensures Next(cfg, Next(cfg, START_WORLD, SshLoad(url, key)), SshSave(true))
         == START_WORLD.(file := Some(Print(Adopted(url, key))))
  {
    hide Persistable, Print, Merged, Next;
    FirstMerge(url, key);
    ShimLoads(cfg, url, key);
    ShimSaves(cfg, START_WORLD.(session := Locked(EMPTY_STORE, url, key)), EMPTY_STORE, url, key, Adopted(url, key));
  }

  lemma DaemonLoads(cfg: Config, w: World, store: Store)
    requires w.daemon.Idle? && w.file == Some(Print(store)) && Persistable(cfg.urls, store)
    ensures Next(cfg, w, DaemonLoad) == w.(daemon := Holding(store))
  {
    SavedStoreLoads(cfg.urls, store);
    hide Persistable, Print, Parse;
  }

  lemma DaemonSendsKeyed(cfg: Config, w: World, store: Store)
    requires w.daemon == Holding(store) && store.informURL != "" && ValidAuthKeyText(store.authKey, true)
    ensures WireKey(store.authKey).Some?
    ensures Next(cfg, w, DaemonSend)
         == w.(daemon := Waiting(store),
               log := w.log + [Inform(WireKey(store.authKey).value, store.informURL, store.useAESGCM,
                                      if store.state == STATE_CONNECTED then WireManaged else WireUnknown)])
  {
    ValidKeyHasWireKey(store.authKey);
    assert store.authKey != "";
    hide ValidAuthKeyText, WireKey;
  }

  /** After adoption over SSH the daemon sends with the new key and waits. */
  lemma AdoptedIsSent(cfg: Config, url: string, key: string)
    requires url != "" && ValidAuthKeyText(key, true) && Persistable(cfg.urls, Adopted(url, key))
    ensures WireKey(key).Some?
    ensures Run(cfg, Adopting(url, key))
         == World(Some(Print(Adopted(url, key))), Waiting(Adopted(url, key)), Free, [Inform(WireKey(key).value, url, false, WireUnknown)])
  {
    var store := Adopted(url, key);
    assert key != "" && Run(cfg, []) == START_WORLD;
    hide Persistable, Print, WireKey, ValidAuthKeyText, Next, Run;
    ThreeMore(cfg, [], SshLoad(url, key), SshSave(true), DaemonLoad);
    OneMore(cfg, [] + [SshLoad(url, key), SshSave(true), DaemonLoad], DaemonSend);
    assert [] + [SshLoad(url, key), SshSave(true), DaemonLoad] + [DaemonSend] == Adopting(url, key);
    ShimAdopts(cfg, url, key);
    var w := START_WORLD.(file := Some(Print(store)));
    DaemonLoads(cfg, w, store);
    DaemonSendsKeyed(cfg, w.(daemon := Holding(store)), store);
  }

  lemma FirstMerge(url: string, key: string)
    requires url != "" && key != ""
    ensures Merged(EMPTY_STORE, LocalUpdate(url, key)) == Adopted(url, key)
  {
    hide AuthKeysEqual;
  }

  /** A run that loses a reset: the device is adopted over SSH, and while the controller's first
      noop is being applied somebody resets it; the reset is gone and the device is connected. */
  lemma ResetIsLost(cfg: Config, url: string, key: string)
    requires url != "" && ValidAuthKeyText(key, true) && Persistable(cfg.urls, Adopted(url, key))
    ensures var file := Run(cfg, Adopting(url, key) + Answering(Noop, true, false)).file;
            && file != Some(Print(FACTORY_STORE))
            && file == Some(Print(Adopted(url, key).(state := STATE_CONNECTED)))
  {
    var past, base := Adopting(url, key), Adopted(url, key);
    AdoptedIsSent(cfg, url, key);
    ResetSurvivesIff(cfg, past, Noop, true, false);
    LeavesResetByType(cfg.urls, base, Noop);
    ThreeMore(cfg, past, DaemonAnswer(Noop), SshReset(true), DaemonApply(true));
    hide LeavesReset, Run, Next, AfterApply, Print, Persistable, Adopting, ValidAuthKeyText;
    OrdersAgree(cfg, Run(cfg, past), Noop, true);
    NoopConnects(cfg.urls, base);
  }

  lemma NoopConnects(urls: UrlPolicy, base: Store)
    requires base.authKey != "" && Persistable(urls, base) && base.state == STATE_ADOPTING
    ensures AfterApply(urls, base, ParseResponse(urls, Noop).value, true) == Some(Print(base.(state := STATE_CONNECTED)))
  {
    TargetOfTold(base, EMPTY_STORE);
    assert TrimmedTexts(EMPTY_STORE) by { NothingToTrim(); hide TrimSpace; }
    ChangeIsStorableIff(urls, base, EMPTY_STORE);
    assert Merged(base, EMPTY_STORE.(state := STATE_CONNECTED)) == base.(state := STATE_CONNECTED) by { hide AuthKeysEqual; }
    hide Persistable, Print, Merged, Target, UsesGCM;
  }

  /** Such a device exists: any policy that accepts this URL. */
  lemma SomeDeviceLosesItsReset(cfg: Config)
    requires cfg.urls("http://c/inform")
    ensures var file := Run(cfg, Adopting("http://c/inform", "0123456789abcdef") + Answering(Noop, true, false)).file;
            file.Some? && file != Some(Print(FACTORY_STORE))
  {
    DeviceIsPersistable(cfg.urls);
    hide ValidAuthKeyText, Persistable, Print, Run, Adopting, Answering;
    ResetIsLost(cfg, "http://c/inform", "0123456789abcdef");
  }

  lemma DeviceIsPersistable(urls: UrlPolicy)
    requires urls("http://c/inform")
    ensures ValidAuthKeyText("0123456789abcdef", true) && Persistable(urls, Adopted("http://c/inform", "0123456789abcdef"))
  {
    DeviceURLIsValid(urls);
    DeviceKeyIsValid();
    StatesAreValues();
    hide TrimSpace, ValidAuthKeyText, ValidInformURL, ValidPersistedValue;
    forall field: Field
      ensures FieldValid(urls, field, Adopted("http://c/inform", "0123456789abcdef"))
    {
    }
    hide FieldValid;
  }

  lemma DeviceURLIsValid(urls: UrlPolicy)
    requires urls("http://c/inform")
    ensures ValidInformURL(urls, "http://c/inform") && ValidPersistedValue("http://c/inform")
  {
    var url := "http://c/inform";
    assert |url| == 15;
    assert forall c <- url :: '.' <= c < '{' && c != '#';
    NoOuterSpace(url);
    hide TrimSpace;
  }

  lemma DeviceKeyIsValid()
    ensures ValidAuthKeyText("0123456789abcdef", true) && ValidPersistedValue("0123456789abcdef")
  {
    var key := "0123456789abcdef";
    assert |key| == 16 && key[0] == '0' && DEFAULT_KEY[0] != '0';
    assert forall c <- key :: '/' < c < 'g';
    NoOuterSpace(key);
    hide TrimSpace;
  }

  lemma NoOuterSpace(text: string)
    requires |text| >= 3 && forall c <- text :: ' ' < c < '\U{7F}'
    ensures TrimSpace(text) == text
  {
    hide TrimLeft, TrimRight;
    assert text[0] in text && text[|text| - 1] in text && text[|text| - 2] in text && text[|text| - 3] in text;
    assert LeadingSpace(text) == 0 && TrailingSpace(text) == 0;
  }

  lemma NoopIsAppliedAndSent(cfg: Config, w: World, base: Store)
    requires w.daemon == Waiting(base) && base.informURL != "" && base.state == STATE_ADOPTING
    requires ValidAuthKeyText(base.authKey, true) && Persistable(cfg.urls, base)
    ensures WireKey(base.authKey).Some?
    ensures Next(cfg, Next(cfg, Next(cfg, Next(cfg, w, DaemonAnswer(Noop)), DaemonApply(true)), DaemonLoad), DaemonSend).log
         == w.log + [Answered(WireKey(base.authKey).value, base.informURL)]
            + [Inform(WireKey(base.authKey).value, base.informURL, base.useAESGCM, WireManaged)]
  {
    var connected := base.(state := STATE_CONNECTED);
    NoKeyIsInvalid();
    ValidKeyHasWireKey(base.authKey);
    hide Persistable, Print, WireKey, ValidAuthKeyText, Next;
    ConnectedIsSaved(cfg.urls, base);
    NoopIsApplied(cfg, w, base);
    var saved := w.(file := Some(Print(connected)), daemon := Idle,
                    log := w.log + [Answered(WireKey(base.authKey).value, base.informURL)]);
    DaemonLoads(cfg, saved, connected);
    DaemonSendsKeyed(cfg, saved.(daemon := Holding(connected)), connected);
  }

  /** A run whose second heartbeat reports a managed device: the state is reachable. */
  lemma ManagedIsReached(cfg: Config, url: string, key: string)
    requires url != "" && ValidAuthKeyText(key, true) && Persistable(cfg.urls, Adopted(url, key))
    ensures WireKey(key).Some?
    ensures Run(cfg, Adopting(url, key) + [DaemonAnswer(Noop), DaemonApply(true), DaemonLoad] + [DaemonSend]).log
         == [Inform(WireKey(key).value, url, false, WireUnknown)] + [Answered(WireKey(key).value, url)]
            + [Inform(WireKey(key).value, url, false, WireManaged)]
  {
    var past := Adopting(url, key);
    hide Persistable, Print, WireKey, ValidAuthKeyText, Adopting, Run, Next;
    AdoptedIsSent(cfg, url, key);
    ThreeMore(cfg, past, DaemonAnswer(Noop), DaemonApply(true), DaemonLoad);
    OneMore(cfg, past + [DaemonAnswer(Noop), DaemonApply(true), DaemonLoad], DaemonSend);
    NoopIsAppliedAndSent(cfg, Run(cfg, past), Adopted(url, key));
  }

  lemma NoKeyIsInvalid()
    ensures !ValidAuthKeyText("", true)
  {
  }

  lemma NoopIsApplied(cfg: Config, w: World, base: Store)
    requires w.daemon == Waiting(base) && WireKey(base.authKey).Some? && WireKey(base.authKey) != Some(DEFAULT_KEY)
    requires base.authKey != "" && base.informURL != "" && base.state == STATE_ADOPTING
    requires Persistable(cfg.urls, base)
    ensures Next(cfg, Next(cfg, w, DaemonAnswer(Noop)), DaemonApply(true))
         == w.(file := Some(Print(base.(state := STATE_CONNECTED))), daemon := Idle,
               log := w.log + [Answered(WireKey(base.authKey).value, base.informURL)])
  {
    ConnectedIsSaved(cfg.urls, base);
    AnswerStep(cfg, w, Noop);
    assert SenderKey(base) == WireKey(base.authKey);
    var decided := w.(daemon := Deciding(base, Asked(EMPTY_STORE)), log := w.log + [Answered(WireKey(base.authKey).value, base.informURL)]);
    assert Next(cfg, w, DaemonAnswer(Noop)) == decided by { hide Persistable, Print, Target, WireKey, Next; }
    ApplyStep(cfg, decided, base, Asked(EMPTY_STORE));
    hide Next, Persistable, Print, Target, WireKey;
  }

  lemma ApplyStep(cfg: Config, w: World, base: Store, update: Update)
    requires w.daemon == Deciding(base, update)
    requires Target(base, update, UsesGCM(base)) != base && Persistable(cfg.urls, Target(base, update, UsesGCM(base)))
    ensures Next(cfg, w, DaemonApply(true)) == w.(file := Some(Print(Target(base, update, UsesGCM(base)))), daemon := Idle)
  {
    hide Target, UsesGCM, Persistable, Print;
  }

  lemma ConnectedIsSaved(urls: UrlPolicy, base: Store)
    requires base.authKey != "" && Persistable(urls, base) && base.state == STATE_ADOPTING
    ensures Target(base, Asked(EMPTY_STORE), UsesGCM(base)) == base.(state := STATE_CONNECTED)
    ensures Persistable(urls, base.(state := STATE_CONNECTED)) && ParseResponse(urls, Noop) == Some(Asked(EMPTY_STORE))
  {
    TargetOfTold(base, EMPTY_STORE);
    assert TrimmedTexts(EMPTY_STORE) by { NothingToTrim(); hide TrimSpace; }
    ChangeIsStorableIff(urls, base, EMPTY_STORE);
    assert Merged(base, EMPTY_STORE.(state := STATE_CONNECTED)) == base.(state := STATE_CONNECTED) by { hide AuthKeysEqual; }
  }
}
