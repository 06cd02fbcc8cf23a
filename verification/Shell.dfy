/** The SSH shim's interpreter: every command line becomes a list of file effects and
    replies, and nothing else. */
module Shell {
  import opened Basics
  import opened Text
  import opened Adoption
  import opened EnvFile
  import opened Controller
  import opened Lifecycle
  import Runes
  import Tokens

  // ---- effects and replies ----

  /** All a command can do to the state file. */
  datatype Effect = NoEffect | SaveIdentity(url: string, key: string) | ResetIdentity

  datatype Reply =
    | Silent | Fine | Info | Banner | FactoryReset | AdoptionAccepted | AdoptionRequested(url: string)
    | InformAccepted | InformSet(url: string) | Hostname | Uname | Version | Echo(args: seq<string>)
    | StateFailure

  /** One command: its effect, and what is answered when the effect succeeds. */
  datatype Task = Task(effect: Effect, reply: Reply)

  const IGNORED := Task(SaveIdentity("", ""), Fine)
  const INFO := Task(NoEffect, Info)
  const RESET := Task(ResetIdentity, FactoryReset)

  // ---- dispatch ----

  predicate Contains(s: string, part: string) {
    Runes.HasPrefix(s, part) || (s != "" && Contains(s[1..], part))
  }

  function FindInformURL(args: seq<string>): string {
    if args == [] then ""
    else if (Runes.HasPrefix(args[0], "http://") || Runes.HasPrefix(args[0], "https://")) && Contains(args[0], "/inform") then args[0]
    else FindInformURL(args[1..])
  }

  function StripSlashes(path: string): (r: string)
    ensures |r| <= |path|
    decreases |path|
  {
    if path != "" && path[|path| - 1] == '/' then StripSlashes(path[..|path| - 1]) else path
  }

  function AfterLastSlash(path: string): string
    decreases |path|
  {
    if '/' in path then AfterLastSlash(path[IndexOf(path, '/') + 1..]) else path
  }

  /** path.Base. */
  function Base(path: string): string {
    if path == "" then "."
    else
      var stripped := StripSlashes(path);
      if stripped == "" then "/" else AfterLastSlash(stripped)
  }

  function SetInform(args: seq<string>): Task {
    var url := FindInformURL(args);
    Task(SaveIdentity(url, ""), if url == "" then InformAccepted else InformSet(url))
  }

  function Syswrapper(args: seq<string>): Task {
    if |args| < 2 then INFO
    else if args[1] == "set-adopt" then
      var url := if |args| > 2 then args[2] else "";
      var key := if |args| > 3 then args[3] else "";
      Task(SaveIdentity(url, key), if url == "" then AdoptionAccepted else AdoptionRequested(url))
    else if args[1] == "set-inform" then SetInform(args)
    else if args[1] == "info" || args[1] == "status" || args[1] == "get-info" then INFO
    else if args[1] == "restore-default" || args[1] == "reset2defaults" then RESET
    else IGNORED
  }

  function McaCli(args: seq<string>): Task {
    if |args| < 2 then Task(NoEffect, Banner)
    else if args[1] == "op" && |args| > 2 then SetInform(args[1..])
    else if args[1] == "set-inform" then SetInform(args)
    else if args[1] == "info" || args[1] == "status" then INFO
    else IGNORED
  }

  function Cat(args: seq<string>): Reply {
    if |args| < 2 then Silent
    else if args[1] == "/etc/version" || args[1] == "/usr/lib/version" then Version
    else if args[1] == "/proc/ubnthal/system.info" then Info
    else Silent
  }

  /** executeOne's switch over the base name of the command. */
  function Dispatch(args: seq<string>): Task
    requires args != []
  {
    var name := Base(args[0]);
    if name == "syswrapper.sh" then Syswrapper(args)
    else if name == "mca-cli-op" then if |args| > 1 && args[1] == "info" then INFO else SetInform(args)
    else if name == "info" then INFO
    else if name == "set-inform" then SetInform(args)
    else if name == "mca-cli" then McaCli(args)
    else if name == "ubntbox" then IGNORED
    else if name == "reset2defaults" || name == "restore-default" then RESET
    else if name == "hostname" then Task(NoEffect, Hostname)
    else if name == "uname" then Task(NoEffect, Uname)
    else if name == "cat" then Task(NoEffect, Cat(args))
    else if name == "echo" then Task(NoEffect, Echo(args[1..]))
    else if name == "true" || name == "exit" || name == "quit" then Task(NoEffect, Silent)
    else
      var url := FindInformURL(args);
      if url != "" then Task(SaveIdentity(url, ""), AdoptionRequested(url)) else IGNORED
  }

  /** The fields of a command without a leading sudo. */
  function WithoutSudo(args: seq<string>): seq<string> {
    if args != [] && args[0] == "sudo" then args[1..] else args
  }

  predicate IsShell(args: seq<string>) {
    |args| >= 3 && (args[0] == "sh" || args[0] == "/bin/sh") && args[1] == "-c"
  }

  // ---- what a command line asks for ----

  function Script(command: string): seq<Task>
    decreases |command|, 2, 0
  {
    ScriptAll(Tokens.Commands(command), |command|)
  }

  function ScriptAll(parts: seq<string>, limit: nat): seq<Task>
    requires forall p <- parts :: |p| <= limit
    decreases limit, 1, |parts|
  {
    if parts == [] then [] else ScriptOne(parts[0]) + ScriptAll(parts[1..], limit)
  }

  function ScriptOne(command: string): seq<Task>
    decreases |command|, 0, 0
  {
    var fields := Tokens.Fields(Runes.TrimSpace(command));
    var args := WithoutSudo(fields);
    if fields == [] then []
    else if args == [] then [Task(NoEffect, Fine)]
    else if IsShell(args) then
      var inner := Tokens.Join(args[2..]);
      InnerIsShorter(command);
      Script(inner)
    else [Dispatch(args)]
  }

  /** The line a nested shell re-parses is strictly shorter than the command holding it,
      so the two mutually recursive interpreters stop on every input. */
  lemma InnerIsShorter(command: string)
    requires IsShell(WithoutSudo(Tokens.Fields(Runes.TrimSpace(command))))
    ensures |Tokens.Join(WithoutSudo(Tokens.Fields(Runes.TrimSpace(command)))[2..])| < |command|
  {
    var trimmed := Runes.TrimSpace(command);
    var fields := Tokens.Fields(trimmed);
    var args := WithoutSudo(fields);
    var skip := if args == fields then 2 else 3;
    assert args[2..] == fields[skip..];
    Tokens.TailIsShorter(trimmed, skip);
  }

  // ---- running it ----

  function Utf8Rune(c: char): string {
    var n := c as int;
    if n < 0x80 then [c]
    else if n < 0x800 then [(0xC0 + n / 0x40) as char, (0x80 + n % 0x40) as char]
    else if n < 0x10000 then [(0xE0 + n / 0x1000) as char, (0x80 + n / 0x40 % 0x40) as char, (0x80 + n % 0x40) as char]
    else [(0xF0 + n / 0x40000) as char, (0x80 + n / 0x1000 % 0x40) as char, (0x80 + n / 0x40 % 0x40) as char, (0x80 + n % 0x40) as char]
  }

  /** The bytes that go into the state file. */
  function Utf8(s: string): string {
    if s == "" then "" else Utf8Rune(s[0]) + Utf8(s[1..])
  }

  datatype Outcome = Outcome(file: Option<string>, ok: bool)

  function SaveOutcome(urls: UrlPolicy, file: Option<string>, url: string, key: string, wrote: bool): Outcome {
    if url == "" && key == "" then Outcome(file, true)
    else
      var loaded := Load(urls, file);
      if loaded.Err? && loaded.error != Missing then Outcome(file, false)
      else
        var base := if loaded.Ok? then loaded.value else EMPTY_STORE;
        var merged := Merged(base, LocalUpdate(url, key));
        Outcome(Saved(urls, file, merged, wrote), wrote && Persistable(urls, merged))
  }

  /** One effect, given whether its write goes through. */
  function Perform(urls: UrlPolicy, file: Option<string>, effect: Effect, wrote: bool): Outcome {
    match effect
    case NoEffect => Outcome(file, true)
    case SaveIdentity(url, key) => SaveOutcome(urls, file, Utf8(url), Utf8(key), wrote)
    case ResetIdentity => Outcome(Saved(urls, file, FACTORY_STORE, wrote), wrote && Persistable(urls, FACTORY_STORE))
  }

  datatype Transcript = Transcript(file: Option<string>, out: seq<Reply>, code: int)

  /** Tasks run in order up to the first whose effect fails; wrote says which writes go through. */
  function RunScript(urls: UrlPolicy, file: Option<string>, script: seq<Task>, wrote: seq<bool>): Transcript
    requires |wrote| == |script|
    decreases |script|
  {
    if script == [] then Transcript(file, [], 0)
    else
      var result := Perform(urls, file, script[0].effect, wrote[0]);
      if !result.ok then Transcript(result.file, [StateFailure], 1)
      else
        var rest := RunScript(urls, result.file, script[1..], wrote[1..]);
        rest.(out := [script[0].reply] + rest.out)
  }

  lemma {:induction false} RunScriptConcat(urls: UrlPolicy, file: Option<string>, a: seq<Task>, b: seq<Task>, wa: seq<bool>, wb: seq<bool>)
    requires |wa| == |a| && |wb| == |b|
    ensures RunScript(urls, file, a + b, wa + wb)
         == var first := RunScript(urls, file, a, wa);
            if first.code != 0 then first
            else var second := RunScript(urls, first.file, b, wb); second.(out := first.out + second.out)
    decreases |a|
  {
    hide Perform;
    if a == [] {
      assert a + b == b && wa + wb == wb;
      var second := RunScript(urls, file, b, wb);
      assert [] + second.out == second.out;
    } else {
      assert (a + b)[1..] == a[1..] + b && (wa + wb)[1..] == wa[1..] + wb;
      var result := Perform(urls, file, a[0].effect, wa[0]);
      if result.ok {
        RunScriptConcat(urls, result.file, a[1..], b, wa[1..], wb);
      }
    }
  }

  class Handler {
    const urls: UrlPolicy
    const file: StateFile

    constructor (urls: UrlPolicy, file: StateFile)
      ensures this.urls == urls && this.file == file
    {
      this.urls := urls;
      this.file := file;
    }

    method SaveState(url: string, key: string) returns (ok: bool, ghost wrote: bool)
      modifies file
      ensures Outcome(file.contents, ok) == SaveOutcome(urls, old(file.contents), url, key, wrote)
      ensures file.reliable ==> wrote
    {
      hide Load, Merged, Persistable, Print;
      wrote := true;
      if url == "" && key == "" {
        return true, true;
      }
      var loaded := file.LoadEnv(urls);
      if loaded.Err? && loaded.error != Missing {
        return false, true;
      }
      var state := STATE_PROVISIONING;
      if key != "" {
        state := STATE_ADOPTING;
      }
      var update := EMPTY_STORE.(informURL := url, authKey := key, state := state);
      var merged, _ := Merge(if loaded.Ok? then loaded.value else EMPTY_STORE, update);
      ok := file.SaveEnv(urls, merged);
      wrote := ok || file.reliable;
    }

    method ResetState() returns (ok: bool)
      modifies file
      ensures Outcome(file.contents, ok) == Perform(urls, old(file.contents), ResetIdentity, ok)
      ensures file.reliable ==> ok
    {
      hide Persistable, Print;
      var factory;
      factory, ok := file.ResetEnv(urls);
    }

    /** Runs one or more commands and stops at the first failed state change. */
    method Execute(command: string) returns (out: seq<Reply>, code: int, ghost wrote: seq<bool>)
      modifies file
      ensures |wrote| == |Script(command)|
      ensures Transcript(file.contents, out, code) == RunScript(urls, old(file.contents), Script(command), wrote)
      ensures file.reliable ==> forall k :: 0 <= k < |wrote| ==> wrote[k]
      decreases |command|, 1
    {
      hide RunScript, Perform, ScriptOne, Tokens.Commands;
      var parts := Tokens.SplitCommands(command);
      out, code, wrote := [], 0, [];
      ghost var done: seq<Task> := [];
      assert RunScript(urls, file.contents, [], []) == Transcript(file.contents, [], 0) by { EmptyScript(urls, file.contents); }
      for i := 0 to |parts|
        invariant |wrote| == |done|
        invariant file.reliable ==> forall k :: 0 <= k < |wrote| ==> wrote[k]
        invariant Script(command) == done + ScriptAll(parts[i..], |command|)
        invariant RunScript(urls, old(file.contents), done, wrote) == Transcript(file.contents, out, 0)
      {
        ghost var before := file.contents;
        ghost var doneBefore, wroteBefore := done, wrote;
        assert parts[i..][0] == parts[i] && parts[i..][1..] == parts[i + 1..];
        ghost var one, rest := ScriptOne(parts[i]), ScriptAll(parts[i + 1..], |command|);
        assert ScriptAll(parts[i..], |command|) == one + rest;
        var text, status;
        ghost var w;
        text, status, w := ExecuteOne(parts[i]);
        RunScriptConcat(urls, old(file.contents), done, one, wrote, w);
        out := out + text;
        done, wrote := done + one, wrote + w;
        assert Script(command) == done + rest;
        if status != 0 {
          ghost var padding := seq(|rest|, _ => true);
          RunScriptConcat(urls, old(file.contents), done, rest, wrote, padding);
          return out, status, wrote + padding;
        }
      }
      assert done + ScriptAll([], |command|) == done;
    }

    method ExecuteOne(command: string) returns (out: seq<Reply>, code: int, ghost wrote: seq<bool>)
      modifies file
      ensures |wrote| == |ScriptOne(command)|
      ensures Transcript(file.contents, out, code) == RunScript(urls, old(file.contents), ScriptOne(command), wrote)
      ensures file.reliable ==> forall k :: 0 <= k < |wrote| ==> wrote[k]
      decreases |command|, 0
    {
      hide Perform, Dispatch, Tokens.Fields, Runes.TrimSpace, Tokens.Join;
      var args := Tokens.CommandFields(Runes.TrimSpace(command));
      if args == [] {
        return [], 0, [];
      }
      if args[0] == "sudo" {
        args := args[1..];
        if args == [] {
          assert RunScript(urls, file.contents, [Task(NoEffect, Fine)], [true]) == Transcript(file.contents, [Fine], 0)
            by { SingleTask(urls, file.contents, Task(NoEffect, Fine), true); NothingToDo(urls, file.contents, true); }
          return [Fine], 0, [true];
        }
      }
      if IsShell(args) {
        InnerIsShorter(command);
        out, code, wrote := Execute(Tokens.Join(args[2..]));
        return;
      }
      var task := Dispatch(args);
      ghost var went := true;
      ghost var before := file.contents;
      var ok := true;
      match task.effect {
        case NoEffect => NothingToDo(urls, before, went);
        case SaveIdentity(url, key) =>
          ok, went := SaveState(Utf8(url), Utf8(key));
          assert Outcome(file.contents, ok) == Perform(urls, before, task.effect, went) by { SavePerforms(urls, before, url, key, went); }
        case ResetIdentity =>
          ok := ResetState();
          went := ok;
      }
      SingleTask(urls, before, task, went);
      if !ok {
        return [StateFailure], 1, [went];
      }
      return [task.reply], 0, [went];
    }
  }

  lemma EmptyScript(urls: UrlPolicy, file: Option<string>)
    ensures RunScript(urls, file, [], []) == Transcript(file, [], 0)
  {
  }

  lemma NothingToDo(urls: UrlPolicy, file: Option<string>, wrote: bool)
    ensures Perform(urls, file, NoEffect, wrote) == Outcome(file, true)
  {
  }

  lemma SavePerforms(urls: UrlPolicy, file: Option<string>, url: string, key: string, wrote: bool)
    ensures Perform(urls, file, SaveIdentity(url, key), wrote) == SaveOutcome(urls, file, Utf8(url), Utf8(key), wrote)
  {
  }

  lemma SingleTask(urls: UrlPolicy, file: Option<string>, task: Task, wrote: bool)
    ensures RunScript(urls, file, [task], [wrote])
         == var result := Perform(urls, file, task.effect, wrote);
            if result.ok then Transcript(result.file, [task.reply], 0) else Transcript(result.file, [StateFailure], 1)
  {
    hide Perform;
    var result := Perform(urls, file, task.effect, wrote);
    assert [task][1..] == [] && [wrote][1..] == [];
    EmptyScript(urls, result.file);
    assert [task.reply] + [] == [task.reply];
  }

  // ---- an SSH session is a run of the lifecycle ----

  /** The lifecycle steps one effect amounts to. */
  function EffectActions(effect: Effect, wrote: bool): seq<Action> {
    match effect
    case NoEffect => []
    case SaveIdentity(url, key) => [SshLoad(Utf8(url), Utf8(key)), SshSave(wrote)]
    case ResetIdentity => [SshReset(wrote)]
  }

  function ScriptActions(urls: UrlPolicy, file: Option<string>, script: seq<Task>, wrote: seq<bool>): seq<Action>
    requires |wrote| == |script|
    decreases |script|
  {
    if script == [] then []
    else
      var result := Perform(urls, file, script[0].effect, wrote[0]);
      EffectActions(script[0].effect, wrote[0])
      + if result.ok then ScriptActions(urls, result.file, script[1..], wrote[1..]) else []
  }

  function Steps(cfg: Config, w: World, actions: seq<Action>): World
    decreases |actions|
  {
    if actions == [] then w else Steps(cfg, Next(cfg, w, actions[0]), actions[1..])
  }

  lemma {:induction false} StepsConcat(cfg: Config, w: World, a: seq<Action>, b: seq<Action>)
    ensures Steps(cfg, w, a + b) == Steps(cfg, Steps(cfg, w, a), b)
    decreases |a|
  {
    hide Next;
    if a == [] {
      assert a + b == b;
    } else {
      assert (a + b)[1..] == a[1..] + b;
      StepsConcat(cfg, Next(cfg, w, a[0]), a[1..], b);
    }
  }

  lemma EffectIsSteps(cfg: Config, w: World, effect: Effect, wrote: bool)
    requires w.session == Free
    ensures Steps(cfg, w, EffectActions(effect, wrote)) == w.(file := Perform(cfg.urls, w.file, effect, wrote).file)
  {
    hide Load, Merged, Persistable, Print, Utf8, SenderKey, ParseResponse;
    var actions := EffectActions(effect, wrote);
    match effect {
      case NoEffect =>
      case SaveIdentity(url, key) =>
        var loaded := Next(cfg, w, actions[0]);
        assert actions[1..] == [SshSave(wrote)] && actions[1..][1..] == [];
        assert Steps(cfg, w, actions) == Steps(cfg, loaded, [SshSave(wrote)]) == Next(cfg, loaded, SshSave(wrote));
      case ResetIdentity =>
        assert actions[1..] == [];
    }
  }

  /** Whatever line is sent over SSH, and whichever of its writes fail, the state file ends
      as some run of the lifecycle's SSH steps leaves it; everything proved of every
      lifecycle run therefore holds of every SSH session. */
  lemma {:induction false} ScriptIsSteps(cfg: Config, w: World, script: seq<Task>, wrote: seq<bool>)
    requires w.session == Free && |wrote| == |script|
    ensures Steps(cfg, w, ScriptActions(cfg.urls, w.file, script, wrote))
         == w.(file := RunScript(cfg.urls, w.file, script, wrote).file)
    decreases |script|
  {
    hide Perform, EffectActions, Next;
    if script != [] {
      var effect := script[0].effect;
      var result := Perform(cfg.urls, w.file, effect, wrote[0]);
      var first := EffectActions(effect, wrote[0]);
      var mid := w.(file := result.file);
      EffectIsSteps(cfg, w, effect, wrote[0]);
      if result.ok {
        ScriptIsSteps(cfg, mid, script[1..], wrote[1..]);
        StepsConcat(cfg, w, first, ScriptActions(cfg.urls, result.file, script[1..], wrote[1..]));
      } else {
        assert first + [] == first;
      }
    }
  }

  lemma {:induction false} StepsExtendRun(cfg: Config, past: seq<Action>, actions: seq<Action>)
    ensures Steps(cfg, Run(cfg, past), actions) == Run(cfg, past + actions)
    decreases |actions|
  {
    hide Next;
    if actions == [] {
      assert past + actions == past;
    } else {
      var next := past + [actions[0]];
      assert next[..|next| - 1] == past;
      StepsExtendRun(cfg, next, actions[1..]);
      assert next + actions[1..] == past + actions;
    }
  }

  /** After any run of the daemon and the shim, any further command line leaves the file
      loadable, never failed, and connected only for an answered key and URL. */
  lemma CommandsKeepFileSound(cfg: Config, past: seq<Action>, command: string, wrote: seq<bool>)
    requires |wrote| == |Script(command)| && Run(cfg, past).session == Free
    ensures FileSound(cfg, RunScript(cfg.urls, Run(cfg, past).file, Script(command), wrote).file, Run(cfg, past).log)
  {
    hide Script, RunScript, Next, FileSound, DaemonSound, SessionSound, LogSound;
    var w := Run(cfg, past);
    var actions := ScriptActions(cfg.urls, w.file, Script(command), wrote);
    ScriptIsSteps(cfg, w, Script(command), wrote);
    StepsExtendRun(cfg, past, actions);
    RunsKeepInv(cfg, past + actions);
  }
}
