/** The adoption lifecycle as a transition system: the heartbeat daemon and the SSH shim
    load, decide and save one state file in separate steps, in any interleaving. */
module Lifecycle {
  import opened Basics
  import opened Text
  import opened Adoption
  import opened EnvFile
  import opened Controller

  /** What does not change over a run: the configured controller URL and what counts as a URL. */
  datatype Config = Config(fallback: string, urls: UrlPolicy)

  // ---- the sender ----

  function EffectiveURL(cfg: Config, store: Store): string {
    if store.informURL != "" then store.informURL else cfg.fallback
  }

  /** informAuthKey: the key of a heartbeat, or None when the heartbeat must not be sent. */
  function SenderKey(store: Store): Option<string> {
    if store.authKey != "" then
      var key := WireKey(store.authKey);
      if key == Some(DEFAULT_KEY) then None else key
    else if store.useAESGCM then None
    else if store.state in ["", STATE_FACTORY, STATE_DISCOVERED, STATE_PROVISIONING] then Some(DEFAULT_KEY)
    else None
  }

  datatype WireState = WireDefault | WireUnknown | WireManaged

  /** controllerInformState: the lifecycle state a heartbeat reports. */
  function ReportedState(store: Store): WireState {
    if store.authKey == "" then WireDefault
    else if store.state == STATE_CONNECTED then WireManaged
    else WireUnknown
  }

  function UsesGCM(store: Store): bool {
    store.authKey != "" && store.useAESGCM
  }

  // ---- worlds ----

  /** What is seen from outside: heartbeats sent, and heartbeats the controller answered
      with a well-formed noop or setparam. */
  datatype Event =
    | Inform(key: string, url: string, gcm: bool, state: WireState)
    | Answered(key: string, url: string)

  datatype Daemon =
    | Idle
    | Holding(base: Store)
    | Waiting(base: Store)
    | Deciding(base: Store, update: Update)
    | Stopped

  /** The SSH session inside the shim's own mutex, between its load and its save. */
  datatype Session = Free | Locked(base: Store, url: string, key: string)

  datatype World = World(file: Option<string>, daemon: Daemon, session: Session, log: seq<Event>)

  const START_WORLD := World(None, Idle, Free, [])

  datatype Action =
    | DaemonLoad
    | DaemonSend
    | DaemonNoAnswer
    | DaemonAnswer(response: Response)
    | DaemonApply(wrote: bool)
    | Restart
    | SshLoad(url: string, key: string)
    | SshSave(wrote: bool)
    | SshReset(wrote: bool)

  /** loadAdoptionState: a missing file is a factory device, an invalid one stops the daemon. */
  function DaemonLoaded(cfg: Config, file: Option<string>): Option<Store> {
    match Load(cfg.urls, file)
    case Ok(store) => Some(store)
    case Err(Missing) => Some(FACTORY_STORE)
    case Err(Invalid(_)) => None
  }

  /** saveState's own load: a missing file is a blank store, an invalid one fails the command. */
  function SshLoaded(cfg: Config, file: Option<string>): Option<Store> {
    match Load(cfg.urls, file)
    case Ok(store) => Some(store)
    case Err(Missing) => Some(EMPTY_STORE)
    case Err(Invalid(_)) => None
  }

  /** One step; an action that is not enabled changes nothing. */
  function Next(cfg: Config, w: World, action: Action): World {
    match action
    case DaemonLoad =>
      if !w.daemon.Idle? then w
      else
        var loaded := DaemonLoaded(cfg, w.file);
        w.(daemon := if loaded.Some? then Holding(loaded.value) else Stopped)
    case DaemonSend =>
      if !w.daemon.Holding? then w
      else
        var base := w.daemon.base;
        var key := SenderKey(base);
        if EffectiveURL(cfg, base) == "" || key.None? then w.(daemon := Idle)
        else
          w.(daemon := Waiting(base),
             log := w.log + [Inform(key.value, EffectiveURL(cfg, base), UsesGCM(base), ReportedState(base))])
    case DaemonNoAnswer =>
      if w.daemon.Waiting? then w.(daemon := Idle) else w
    case DaemonAnswer(response) =>
      if !w.daemon.Waiting? then w
      else
        var base := w.daemon.base;
        var update := ParseResponse(cfg.urls, response);
        if update.None? then w.(daemon := Idle)
        else
          var decided := w.(daemon := Deciding(base, update.value));
          if (response.Noop? || response.SetParam?) && SenderKey(base).Some? then
            decided.(log := w.log + [Answered(SenderKey(base).value, EffectiveURL(cfg, base))])
          else decided
    case DaemonApply(wrote) =>
      if !w.daemon.Deciding? then w
      else
        var Deciding(base, update) := w.daemon;
        var target := Target(base, update, UsesGCM(base));
        if !Writes(base, update, UsesGCM(base)) then w.(daemon := Idle)
        else
          w.(file := Saved(cfg.urls, w.file, target, wrote),
             daemon := if wrote && Persistable(cfg.urls, target) then Idle else Stopped)
    case Restart => w.(daemon := Idle, session := Free)
    case SshLoad(url, key) =>
      if !w.session.Free? || (url == "" && key == "") then w
      else
        var loaded := SshLoaded(cfg, w.file);
        if loaded.Some? then w.(session := Locked(loaded.value, url, key)) else w
    case SshSave(wrote) =>
      if !w.session.Locked? then w
      else
        var Locked(base, url, key) := w.session;
        w.(file := Saved(cfg.urls, w.file, Merged(base, LocalUpdate(url, key)), wrote), session := Free)
    case SshReset(wrote) =>
      if !w.session.Free? then w else w.(file := Saved(cfg.urls, w.file, FACTORY_STORE, wrote))
  }

  /** The world after a run that starts with no state file. */
  function Run(cfg: Config, actions: seq<Action>): World {
    if actions == [] then START_WORLD
    else Next(cfg, Run(cfg, actions[..|actions| - 1]), actions[|actions| - 1])
  }

  // ---- the invariant ----

  /** The key and URL a store would send with have been answered for. */
  ghost predicate Confirmed(cfg: Config, store: Store, log: seq<Event>) {
    && WireKey(store.authKey).Some?
    && Answered(WireKey(store.authKey).value, EffectiveURL(cfg, store)) in log
  }

  /** Any store an actor may hold, however stale. */
  ghost predicate Sound(cfg: Config, store: Store, log: seq<Event>) {
    && (store.authKey == "" || ValidAuthKeyText(store.authKey, true))
    && ValidPersistedStore(store)
    && store.state != STATE_FAILED
    && (store.state == STATE_CONNECTED ==> Confirmed(cfg, store, log))
  }

  ghost predicate FileSound(cfg: Config, file: Option<string>, log: seq<Event>) {
    match Load(cfg.urls, file)
    case Ok(store) => Persistable(cfg.urls, store) && Sound(cfg, store, log)
    case Err(failure) => failure == Missing
  }

  ghost predicate DaemonSound(cfg: Config, daemon: Daemon, log: seq<Event>) {
    match daemon
    case Idle => true
    case Stopped => true
    case Holding(base) => Persistable(cfg.urls, base) && Sound(cfg, base, log)
    case Waiting(base) =>
      && Persistable(cfg.urls, base) && Sound(cfg, base, log) && SenderKey(base).Some?
      && Inform(SenderKey(base).value, EffectiveURL(cfg, base), UsesGCM(base), ReportedState(base)) in log
    case Deciding(base, update) =>
      && Persistable(cfg.urls, base) && Sound(cfg, base, log)
      && update.store.state in ["", STATE_CONNECTED, STATE_FACTORY]
      && (update.store.state == STATE_FACTORY ==> update.resetRequested)
      && (update.store.state == STATE_CONNECTED && base.authKey != "" ==> Confirmed(cfg, base, log))
  }

  ghost predicate SessionSound(cfg: Config, session: Session, log: seq<Event>) {
    session.Locked? ==> Sound(cfg, session.base, log)
  }

  /** Every answer was preceded by the heartbeat it answers, every report of a managed
      device by an answer for the same key and URL, and the shared default key is used
      exactly by unadopted heartbeats and never under GCM. */
  ghost predicate LogSound(log: seq<Event>) {
    forall i :: 0 <= i < |log| ==> EventSound(log[..i], log[i])
  }

  ghost predicate EventSound(before: seq<Event>, event: Event) {
    match event
    case Inform(key, url, gcm, state) =>
      && (state == WireManaged ==> Answered(key, url) in before)
      && (key == DEFAULT_KEY <==> state == WireDefault)
      && (gcm ==> state != WireDefault)
    case Answered(key, url) =>
      exists gcm, state :: Inform(key, url, gcm, state) in before
  }

  ghost predicate Inv(cfg: Config, w: World) {
    && FileSound(cfg, w.file, w.log)
    && DaemonSound(cfg, w.daemon, w.log)
    && SessionSound(cfg, w.session, w.log)
    && LogSound(w.log)
  }

  // ---- how the log grows ----

  lemma LogExtends(cfg: Config, w: World, event: Event)
    requires Inv(cfg, w) && EventSound(w.log, event)
    ensures Inv(cfg, w.(log := w.log + [event]))
  {
    hide Persistable, ValidAuthKeyText, ValidPersistedStore, SenderKey, EventSound, WireKey, Load;
    var log := w.log + [event];
    assert forall e <- w.log :: e in log;
    forall i | 0 <= i < |log|
      ensures EventSound(log[..i], log[i])
    {
      if i < |w.log| {
        assert log[..i] == w.log[..i] && log[i] == w.log[i];
      } else {
        assert log[..i] == w.log;
      }
    }
  }

  // ---- the stores the steps save ----

  lemma SavedIsSound(cfg: Config, file: Option<string>, log: seq<Event>, store: Store, wrote: bool)
    requires FileSound(cfg, file, log)
    requires Persistable(cfg.urls, store) && wrote ==> Sound(cfg, store, log)
    ensures FileSound(cfg, Saved(cfg.urls, file, store, wrote), log)
  {
    hide Persistable, Sound, Parse, Print;
    if wrote && Persistable(cfg.urls, store) {
      SavedStoreLoads(cfg.urls, store);
    }
  }

  lemma PersistableKey(urls: UrlPolicy, store: Store)
    requires Persistable(urls, store)
    ensures store.authKey == "" || ValidAuthKeyText(store.authKey, true)
    ensures ValidPersistedStore(store)
  {
    hide ValidPersistedValue, ValidAuthKeyText, ValidPersistedStore;
    assert FieldValid(urls, AuthKeyField, store);
  }

  /** A merge onto a sound base is sound if it can be saved at all: the controller's
      confirmation counts only for the base it was given for. */
  lemma MergedIsSound(cfg: Config, base: Store, update: Store, log: seq<Event>)
    requires Sound(cfg, base, log)
    requires update.state != STATE_FAILED
    requires update.state == STATE_CONNECTED && base.authKey != "" ==> Confirmed(cfg, base, log)
    requires Persistable(cfg.urls, Merged(base, update))
    ensures Sound(cfg, Merged(base, update), log)
  {
    PersistableKey(cfg.urls, Merged(base, update));
    hide Persistable, ValidAuthKeyText, WireKey, AuthKeysEqual;
    if Merged(base, update).state == STATE_CONNECTED {
      MergeConfirmsOnlyTheBaseIdentity(base, update);
    }
  }

  lemma TargetIsSound(cfg: Config, base: Store, update: Update, log: seq<Event>)
    requires DaemonSound(cfg, Deciding(base, update), log)
    requires Persistable(cfg.urls, Target(base, update, UsesGCM(base)))
    ensures Sound(cfg, Target(base, update, UsesGCM(base)), log)
  {
    hide Persistable, ValidAuthKeyText, WireKey, Merged;
    if !update.resetRequested && update.hasStateUpdate {
      MergedIsSound(cfg, base, if UsesGCM(base) then update.store.(useAESGCM := true) else update.store, log);
    }
  }

  lemma SshMergeIsSound(cfg: Config, base: Store, url: string, key: string, log: seq<Event>)
    requires Sound(cfg, base, log) && Persistable(cfg.urls, Merged(base, LocalUpdate(url, key)))
    ensures Sound(cfg, Merged(base, LocalUpdate(url, key)), log)
  {
    hide Persistable, Sound, Merged;
    MergedIsSound(cfg, base, LocalUpdate(url, key), log);
  }

  // ---- every step keeps the invariant ----

  lemma LoadedIsSound(cfg: Config, file: Option<string>, log: seq<Event>)
    requires FileSound(cfg, file, log)
    ensures DaemonLoaded(cfg, file).Some? && Sound(cfg, DaemonLoaded(cfg, file).value, log)
    ensures Persistable(cfg.urls, DaemonLoaded(cfg, file).value)
    ensures SshLoaded(cfg, file).Some? && Sound(cfg, SshLoaded(cfg, file).value, log)
  {
    hide Load, Persistable;
    BlankStoresAreSound(cfg, log);
    FactoryStoreIsPersistable(cfg.urls);
  }

  lemma BlankStoresAreSound(cfg: Config, log: seq<Event>)
    ensures Sound(cfg, FACTORY_STORE, log) && Sound(cfg, EMPTY_STORE, log)
  {
  }

  /** A sound store can always be sent with: the sender's own key checks never refuse
      what the file checks accepted. */
  lemma SoundStoreHasSenderKey(cfg: Config, store: Store, log: seq<Event>)
    requires Sound(cfg, store, log)
    ensures SenderKey(store).Some?
    ensures SenderKey(store) == Some(DEFAULT_KEY) <==> ReportedState(store) == WireDefault
    ensures store.authKey != "" ==> SenderKey(store) == WireKey(store.authKey)
    ensures UsesGCM(store) ==> ReportedState(store) != WireDefault
  {
    if store.authKey != "" {
      ValidKeyHasWireKey(store.authKey);
    }
  }

  lemma DaemonSends(cfg: Config, w: World)
    requires Inv(cfg, w) && w.daemon.Holding?
    ensures Inv(cfg, Next(cfg, w, DaemonSend))
  {
    var base := w.daemon.base;
    SoundStoreHasSenderKey(cfg, base, w.log);
    hide FileSound, SenderKey, ValidAuthKeyText, ValidPersistedStore, WireKey;
    var event := Inform(SenderKey(base).value, EffectiveURL(cfg, base), UsesGCM(base), ReportedState(base));
    assert EventSound(w.log, event);
    LogExtends(cfg, w, event);
  }

  /** Only noop and setparam can confirm, and only setdefault asks for the factory state. */
  lemma ParsedUpdate(urls: UrlPolicy, response: Response)
    requires ParseResponse(urls, response).Some?
    ensures var update := ParseResponse(urls, response).value;
            && update.store.state in ["", STATE_CONNECTED, STATE_FACTORY]
            && (update.store.state == STATE_CONNECTED <==> response.Noop? || response.SetParam?)
            && (update.store.state == STATE_FACTORY ==> update.resetRequested)
  {
    hide MgmtStore;
  }

  lemma AnswerFollowsInform(log: seq<Event>, key: string, url: string, gcm: bool, state: WireState)
    requires Inform(key, url, gcm, state) in log
    ensures EventSound(log, Answered(key, url))
  {
  }

  lemma AnswerStep(cfg: Config, w: World, response: Response)
    requires w.daemon.Waiting?
    ensures Next(cfg, w, DaemonAnswer(response))
         == var base, update := w.daemon.base, ParseResponse(cfg.urls, response);
            if update.None? then w.(daemon := Idle)
            else if (response.Noop? || response.SetParam?) && SenderKey(base).Some? then
              w.(daemon := Deciding(base, update.value), log := w.log + [Answered(SenderKey(base).value, EffectiveURL(cfg, base))])
            else w.(daemon := Deciding(base, update.value))
  {
    hide ParseResponse, SenderKey, EffectiveURL;
  }

  lemma ConfirmationIsLogged(cfg: Config, base: Store, log: seq<Event>)
    requires SenderKey(base).Some? && (base.authKey != "" ==> SenderKey(base) == WireKey(base.authKey))
    ensures base.authKey != "" ==> Confirmed(cfg, base, log + [Answered(SenderKey(base).value, EffectiveURL(cfg, base))])
  {
    hide SenderKey, WireKey, EffectiveURL;
  }

  lemma DaemonIsAnswered(cfg: Config, w: World, response: Response)
    requires Inv(cfg, w) && w.daemon.Waiting?
    ensures Inv(cfg, Next(cfg, w, DaemonAnswer(response)))
  {
    var base := w.daemon.base;
    SoundStoreHasSenderKey(cfg, base, w.log);
    AnswerStep(cfg, w, response);
    var key, url := SenderKey(base).value, EffectiveURL(cfg, base);
    hide Next, FileSound, SenderKey, Sound, Confirmed, WireKey, ParseResponse, ReportedState, UsesGCM, EffectiveURL, LogSound, EventSound;
    hide SessionSound;
    if ParseResponse(cfg.urls, response).Some? {
      ParsedUpdate(cfg.urls, response);
      if response.Noop? || response.SetParam? {
        AnswerFollowsInform(w.log, key, url, UsesGCM(base), ReportedState(base));
        LogExtends(cfg, w, Answered(key, url));
        ConfirmationIsLogged(cfg, base, w.log);
      }
    }
  }

  lemma StepKeepsInv(cfg: Config, w: World, action: Action)
    requires Inv(cfg, w)
    ensures Inv(cfg, Next(cfg, w, action))
  {
    hide Sound, Persistable, Load, EventSound, Confirmed, SenderKey, ParseResponse, Merged, Saved;
    LoadedIsSound(cfg, w.file, w.log);
    match action {
      case DaemonSend => if w.daemon.Holding? { DaemonSends(cfg, w); }
      case DaemonAnswer(response) => if w.daemon.Waiting? { DaemonIsAnswered(cfg, w, response); }
      case DaemonApply(wrote) =>
        if w.daemon.Deciding? {
          var Deciding(base, update) := w.daemon;
          var target := Target(base, update, UsesGCM(base));
          if Persistable(cfg.urls, target) { TargetIsSound(cfg, base, update, w.log); }
          SavedIsSound(cfg, w.file, w.log, target, wrote);
        }
      case SshSave(wrote) =>
        if w.session.Locked? {
          var Locked(base, url, key) := w.session;
          var merged := Merged(base, LocalUpdate(url, key));
          if Persistable(cfg.urls, merged) { SshMergeIsSound(cfg, base, url, key, w.log); }
          SavedIsSound(cfg, w.file, w.log, merged, wrote);
        }
      case SshReset(wrote) =>
        BlankStoresAreSound(cfg, w.log);
        SavedIsSound(cfg, w.file, w.log, FACTORY_STORE, wrote);
      case _ =>
    }
  }

  lemma {:induction false} RunsKeepInv(cfg: Config, actions: seq<Action>)
    ensures Inv(cfg, Run(cfg, actions))
  {
    if actions != [] {
      RunsKeepInv(cfg, actions[..|actions| - 1]);
      StepKeepsInv(cfg, Run(cfg, actions[..|actions| - 1]), actions[|actions| - 1]);
    }
  }

  // ---- what every run guarantees ----

  /** A heartbeat reports the managed state only after the controller has answered an
      earlier heartbeat sent with the same key to the same URL. */
  lemma ManagedIsConfirmed(cfg: Config, actions: seq<Action>, i: nat)
    requires var log := Run(cfg, actions).log; i < |log| && log[i].Inform? && log[i].state == WireManaged
    ensures var log := Run(cfg, actions).log;
            exists h, a :: 0 <= h < a < i && log[a] == Answered(log[i].key, log[i].url)
                           && log[h].Inform? && log[h].key == log[i].key && log[h].url == log[i].url
  {
    var log := Run(cfg, actions).log;
    RunsKeepInv(cfg, actions);
    assert EventSound(log[..i], log[i]);
    var a :| 0 <= a < i && log[a] == Answered(log[i].key, log[i].url);
    assert EventSound(log[..a], log[a]);
    var gcm, state :| Inform(log[a].key, log[a].url, gcm, state) in log[..a];
    var h :| 0 <= h < a && log[h] == Inform(log[a].key, log[a].url, gcm, state);
  }

  /** The file is absent or loads; what loads is fit to save, is not failed, has a key
      the sender accepts, and if it says connected then its key and URL were answered for. */
  lemma FileStaysSound(cfg: Config, actions: seq<Action>)
    ensures var w := Run(cfg, actions);
            match Load(cfg.urls, w.file)
            case Err(failure) => failure == Missing
            case Ok(store) =>
              && Persistable(cfg.urls, store) && store.state != STATE_FAILED && SenderKey(store).Some?
              && (store.state == STATE_CONNECTED ==>
                    WireKey(store.authKey).Some? && Answered(WireKey(store.authKey).value, EffectiveURL(cfg, store)) in w.log)
  {
    var w := Run(cfg, actions);
    RunsKeepInv(cfg, actions);
    hide Persistable, Parse, SenderKey, ValidAuthKeyText;
    if Load(cfg.urls, w.file).Ok? {
      SoundStoreHasSenderKey(cfg, Load(cfg.urls, w.file).value, w.log);
    }
  }

  /** No interleaving makes the daemon refuse its own state file, and every store it
      loads makes the sender's key selection succeed. */
  lemma LoadingNeverFails(cfg: Config, actions: seq<Action>)
    ensures var w := Run(cfg, actions);
            w.daemon.Idle? ==>
              var after := Next(cfg, w, DaemonLoad).daemon;
              after.Holding? && SenderKey(after.base).Some?
  {
    var w := Run(cfg, actions);
    RunsKeepInv(cfg, actions);
    LoadedIsSound(cfg, w.file, w.log);
    hide Load, Sound, SenderKey;
    SoundStoreHasSenderKey(cfg, DaemonLoaded(cfg, w.file).value, w.log);
  }

  /** The public default key is sent exactly by heartbeats that report an unadopted
      device, and never under GCM. */
  lemma DefaultKeyOnlyWhileUnadopted(cfg: Config, actions: seq<Action>, i: nat)
    requires var log := Run(cfg, actions).log; i < |log| && log[i].Inform?
    ensures var event := Run(cfg, actions).log[i];
            && (event.key == DEFAULT_KEY <==> event.state == WireDefault)
            && (event.gcm ==> event.key != DEFAULT_KEY)
  {
    RunsKeepInv(cfg, actions);
    assert EventSound(Run(cfg, actions).log[..i], Run(cfg, actions).log[i]);
  }

  // ---- what the steps do ----

  /** A heartbeat in any reachable state: unless no URL is known, it goes to the stored URL or the
      configured one, under the stored key or, without one, the public default key; under GCM
      exactly when the store has a key and says so; and it reports an unkeyed device as default,
      a connected one as managed and any other keyed one as unknown. */
  lemma HeartbeatSent(cfg: Config, actions: seq<Action>, base: Store)
    requires Run(cfg, actions).daemon == Holding(base)
    ensures var w, url := Run(cfg, actions), if base.informURL == "" then cfg.fallback else base.informURL;
            Next(cfg, w, DaemonSend) ==
              if url == "" then w.(daemon := Idle)
              else
                w.(daemon := Waiting(base),
                   log := w.log + [Inform(
                     if base.authKey == "" then DEFAULT_KEY else WireKey(base.authKey).GetOr(""), url,
                     base.authKey != "" && base.useAESGCM,
                     if base.authKey == "" then WireDefault else if base.state == STATE_CONNECTED then WireManaged else WireUnknown)])
  {
    RunsKeepInv(cfg, actions);
    var w := Run(cfg, actions);
    SoundStoreHasSenderKey(cfg, base, w.log);
    hide Run, Persistable, Sound, WireKey, LogSound, FileSound, SessionSound;
  }

  /** What the daemon and the shim find in any reachable state: the stored identity, or without a
      file a factory device and a blank one. */
  lemma FileIsFound(cfg: Config, actions: seq<Action>)
    ensures var w := Run(cfg, actions);
            && (w.file == None ==> DaemonLoaded(cfg, w.file) == Some(FACTORY_STORE) && SshLoaded(cfg, w.file) == Some(EMPTY_STORE))
            && (w.file.Some? ==>
                  Parse(cfg.urls, w.file.value).Ok?
                  && DaemonLoaded(cfg, w.file) == SshLoaded(cfg, w.file) == Some(Parse(cfg.urls, w.file.value).value))
  {
    RunsKeepInv(cfg, actions);
    hide Run, Persistable, Sound, Parse, LogSound, DaemonSound, SessionSound;
  }

  /** An applied answer leaves the file with the store the answer asks for, or the file as it was
      and the daemon stopped; an answer that asks for no change writes nothing. */
  lemma AnswerApplied(cfg: Config, w: World, base: Store, update: Update, wrote: bool)
    requires w.daemon == Deciding(base, update)
    ensures var target := Target(base, update, base.authKey != "" && base.useAESGCM);
            Next(cfg, w, DaemonApply(wrote)) ==
              if !update.resetRequested && target == base then w.(daemon := Idle)
              else if wrote && Persistable(cfg.urls, target) then w.(daemon := Idle, file := Some(Print(target)))
              else w.(daemon := Stopped)
  {
    hide Persistable, Print, Target;
  }

  /** An idle daemon takes up what the file holds, a waiting one that hears nothing goes idle, and a
      restart drops what daemon and shim were holding and nothing else. */
  lemma DaemonMoves(cfg: Config, actions: seq<Action>)
    ensures var w := Run(cfg, actions);
            && (w.daemon.Idle? && w.file == None ==> Next(cfg, w, DaemonLoad) == w.(daemon := Holding(FACTORY_STORE)))
            && (w.daemon.Idle? && w.file.Some? ==>
                  && Parse(cfg.urls, w.file.value).Ok?
                  && Next(cfg, w, DaemonLoad) == w.(daemon := Holding(Parse(cfg.urls, w.file.value).value)))
            && (w.daemon.Waiting? ==> Next(cfg, w, DaemonNoAnswer) == w.(daemon := Idle))
            && Next(cfg, w, Restart) == w.(daemon := Idle, session := Free)
  {
    FileIsFound(cfg, actions);
    hide Run, Parse, DaemonLoaded, SshLoaded;
  }

  /** An answer is decided on for the store the heartbeat was sent with; a noop or setparam is also
      logged as an answer to that heartbeat's key and URL; a refused setparam is no answer. */
  lemma AnswerReceived(cfg: Config, actions: seq<Action>, base: Store, response: Response)
    requires Run(cfg, actions).daemon == Waiting(base)
    ensures var w, update := Run(cfg, actions), ParseResponse(cfg.urls, response);
            var url := if base.informURL == "" then cfg.fallback else base.informURL;
            var key := if base.authKey == "" then DEFAULT_KEY else WireKey(base.authKey).GetOr("");
            Next(cfg, w, DaemonAnswer(response)) ==
              if update.None? then w.(daemon := Idle)
              else if response.Noop? || response.SetParam? then
                w.(daemon := Deciding(base, update.value), log := w.log + [Answered(key, url)])
              else w.(daemon := Deciding(base, update.value))
  {
    RunsKeepInv(cfg, actions);
    var w := Run(cfg, actions);
    SoundStoreHasSenderKey(cfg, base, w.log);
    AnswerStep(cfg, w, response);
    hide Run, Persistable, Sound, WireKey, LogSound, FileSound, SessionSound, ParseResponse, Next;
  }
}
