/** What each command line of the SSH shim does to the state file and what it answers. */
module Commands {
  import opened Basics
  import opened Text
  import opened Adoption
  import opened EnvFile
  import opened Controller
  import opened Shell
  import Runes
  import Tokens

  // ---- the name of a command ----

  ghost predicate Slashes(s: string) {
    forall i :: 0 <= i < |s| ==> s[i] == '/'
  }

  lemma {:induction false} SlashesStrip(path: string, slashes: string)
    requires path != "" && path[|path| - 1] != '/' && Slashes(slashes)
    ensures StripSlashes(path + slashes) == path
    decreases |slashes|
  {
    var whole := path + slashes;
    if slashes == "" {
      assert whole == path;
    } else {
      assert whole[..|whole| - 1] == path + slashes[..|slashes| - 1];
      SlashesStrip(path, slashes[..|slashes| - 1]);
    }
  }

  lemma {:induction false} NameAfterSlash(dir: string, name: string)
    requires '/' !in name && (dir == "" || dir[|dir| - 1] == '/')
    ensures AfterLastSlash(dir + name) == name
    decreases |dir|
  {
    var path := dir + name;
    if dir == "" {
      assert path == name;
    } else {
      assert path[|dir| - 1] == '/';
      var i := IndexOf(path, '/');
      assert i < |dir|;
      assert path[i + 1..] == dir[i + 1..] + name;
      NameAfterSlash(dir[i + 1..], name);
    }
  }

  /** A command is known by its last path element, wherever it lies and however many slashes
      follow. */
  lemma BaseIs(dir: string, name: string, slashes: string)
    requires name != "" && '/' !in name && (dir == "" || dir[|dir| - 1] == '/') && Slashes(slashes)
    ensures Base(dir + name + slashes) == name
  {
    var path := dir + name;
    assert path[|path| - 1] == name[|name| - 1] && name[|name| - 1] in name;
    SlashesStrip(path, slashes);
    NameAfterSlash(dir, name);
    hide StripSlashes, AfterLastSlash;
  }

  lemma ShellsAreNotNames()
    ensures Base("sh") == "sh" && Base("/bin/sh") == "sh"
  {
    hide StripSlashes, AfterLastSlash;
    assert '/' !in "sh";
    BaseIs("", "sh", "");
    assert "" + "sh" + "" == "sh";
    BaseIs("/bin/", "sh", "");
    assert "/bin/" + "sh" + "" == "/bin/sh";
  }

  // ---- inform URLs ----

  /** An HTTP URL with an inform path somewhere in it. */
  ghost predicate IsInformURL(arg: string) {
    ("http://" <= arg || "https://" <= arg) && exists i :: 0 <= i <= |arg| && "/inform" <= arg[i..]
  }

  lemma {:induction false} ContainsIff(s: string, part: string)
    ensures Contains(s, part) <==> exists i :: 0 <= i <= |s| && part <= s[i..]
    decreases |s|
  {
    assert s[0..] == s;
    if s != "" {
      ContainsIff(s[1..], part);
      assert forall i :: 1 <= i <= |s| ==> s[i..] == s[1..][i - 1..];
      if i :| 0 <= i <= |s[1..]| && part <= s[1..][i..] {
        assert part <= s[i + 1..];
      }
    }
  }

  lemma InformURLIff(arg: string)
    ensures IsInformURL(arg) <==> (Runes.HasPrefix(arg, "http://") || Runes.HasPrefix(arg, "https://")) && Contains(arg, "/inform")
  {
    ContainsIff(arg, "/inform");
  }

  /** Position of the first inform URL from a position on, or the number of words. */
  ghost predicate FirstURLAt(args: seq<string>, start: nat, k: nat) {
    && start <= k <= |args|
    && (k < |args| ==> IsInformURL(args[k]))
    && forall j :: start <= j < k ==> !IsInformURL(args[j])
  }

  lemma {:induction false} FindsFirstURL(args: seq<string>, k: nat)
    requires FirstURLAt(args, 0, k)
    ensures FindInformURL(args) == if k < |args| then args[k] else ""
    decreases |args|
  {
    hide IsInformURL, Contains;
    if args != [] {
      InformURLIff(args[0]);
      if k > 0 {
        assert forall j :: 0 <= j < |args| - 1 ==> args[1..][j] == args[j + 1];
        FindsFirstURL(args[1..], k - 1);
      }
    }
  }

  // ---- lines of one command ----

  ghost predicate Unchained(line: string) {
    && ';' !in line && '\n' !in line
    && forall i :: 0 <= i < |line| - 1 ==> !(line[i] == '&' && line[i + 1] == '&')
  }

  /** The line is one command with these words, with or without sudo before them. */
  ghost predicate Says(line: string, args: seq<string>) {
    && Unchained(line) && args != []
    && var fields := Tokens.Fields(Runes.TrimSpace(line));
       (fields == args && args[0] != "sudo") || fields == ["sudo"] + args
  }

  lemma {:induction false} NothingSeparated(line: string)
    requires Unchained(line)
    ensures Tokens.Separated(line) == line
    decreases |line|
  {
    if line != "" {
      assert line[0] in line && forall c <- line[1..] :: c in line;
      NothingSeparated(line[1..]);
    }
  }

  lemma OneCommand(line: string)
    requires Unchained(line)
    ensures Tokens.Commands(line) == if Runes.TrimSpace(line) == "" then [] else [Runes.TrimSpace(line)]
  {
    NothingSeparated(line);
    SplitLoneLine(line, ';');
    NonBlankLine(line);
    hide Split, Runes.TrimSpace, Tokens.Separated, Tokens.NonBlank;
  }

  lemma NonBlankLine(line: string)
    ensures Tokens.NonBlank([line]) == if Runes.TrimSpace(line) == "" then [] else [Runes.TrimSpace(line)]
  {
    hide Runes.TrimSpace;
    assert [line][1..] == [];
  }

  lemma SaidWords(line: string, args: seq<string>)
    requires Says(line, args)
    ensures WithoutSudo(Tokens.Fields(Runes.TrimSpace(line))) == args && Tokens.Fields(Runes.TrimSpace(line)) != []
    ensures Runes.TrimSpace(line) != ""
    ensures forall arg <- args :: arg != ""
  {
    Tokens.FieldsFit(Runes.TrimSpace(line));
    assert Tokens.Fields("") == [];
    hide Tokens.Fields, Runes.TrimSpace;
    assert (["sudo"] + args)[1..] == args && forall arg <- args :: arg in ["sudo"] + args;
  }

  lemma {:induction false} LimitIsFree(parts: seq<string>, limit: nat, other: nat)
    requires forall p <- parts :: |p| <= limit && |p| <= other
    ensures ScriptAll(parts, limit) == ScriptAll(parts, other)
    decreases |parts|
  {
    hide ScriptOne;
    if parts != [] {
      LimitIsFree(parts[1..], limit, other);
    }
  }

  /** A line of one command asks for what that command asks for. */
  lemma LoneScript(line: string, args: seq<string>)
    requires Says(line, args)
    ensures !IsShell(args) ==> Script(line) == [Dispatch(args)]
    ensures IsShell(args) ==> Script(line) == Script(Tokens.Join(args[2..]))
  {
    var trimmed := Runes.TrimSpace(line);
    SaidWords(line, args);
    OneCommand(line);
    Runes.TrimTwice(line);
    hide Tokens.Fields, Runes.TrimSpace, Dispatch, Tokens.Commands, Tokens.Join, Says;
    assert [trimmed][1..] == [];
    assert ScriptOne(trimmed) + ScriptAll([], |line|) == ScriptOne(trimmed);
    assert Script(line) == ScriptOne(trimmed);
  }

  /** A shell asked to run a line asks for what the line asks for. */
  lemma NestedShell(line: string, shell: string, words: seq<string>)
    requires shell in ["sh", "/bin/sh"] && words != [] && Says(line, [shell, "-c"] + words)
    ensures Script(line) == Script(Tokens.Join(words))
  {
    hide Says, Script, Tokens.Join;
    var args := [shell, "-c"] + words;
    assert |args| >= 3 && args[0] == shell && args[1] == "-c" && args[2..] == words;
    assert IsShell(args);
    hide IsShell;
    LoneScript(line, args);
  }

  /** sudo alone is acknowledged. */
  lemma SudoAlone(urls: UrlPolicy, file: Option<string>, line: string, wrote: bool)
    requires Unchained(line) && Tokens.Fields(Runes.TrimSpace(line)) == ["sudo"]
    ensures |Script(line)| == 1 && RunScript(urls, file, Script(line), [wrote]) == Transcript(file, [Fine], 0)
  {
    var task := Task(NoEffect, Fine);
    SudoScript(line);
    hide Script, Unchained, Tokens.Fields, Runes.TrimSpace;
    SingleTask(urls, file, task, wrote);
  }

  lemma SudoScript(line: string)
    requires Unchained(line) && Tokens.Fields(Runes.TrimSpace(line)) == ["sudo"]
    ensures Script(line) == [Task(NoEffect, Fine)]
  {
    var trimmed := Runes.TrimSpace(line);
    assert Tokens.Fields("") == [];
    OneCommand(line);
    Runes.TrimTwice(line);
    hide Tokens.Fields, Runes.TrimSpace, Tokens.Commands, Unchained, Dispatch;
    assert [trimmed][1..] == [] && ["sudo"][1..] == [];
    assert ScriptOne(trimmed) + ScriptAll([], |line|) == ScriptOne(trimmed);
  }

  // ---- what a command may come to ----

  /** The command answers and leaves the file alone. */
  ghost predicate Answers(urls: UrlPolicy, file: Option<string>, line: string, reply: Reply) {
    |Script(line)| == 1 && forall wrote :: RunScript(urls, file, Script(line), [wrote]) == Transcript(file, [reply], 0)
  }

  /** The store with a URL, a key or both put in. A new one starts adoption again. */
  ghost function WithIdentity(base: Store, url: string, key: string): Store {
    var newKey := if key == "" then base.authKey else key;
    base.(informURL := if url == "" then base.informURL else url,
          authKey := newKey,
          state := if newKey == "" then STATE_PROVISIONING
                   else if Moves(base, LocalUpdate(url, key)) then STATE_ADOPTING
                   else base.state)
  }

  /** The command saves an identity and answers; when the file does not load, the store may not
      be saved or the write fails, the file stays and the command fails. */
  ghost predicate Stores(urls: UrlPolicy, file: Option<string>, line: string, url: string, key: string, reply: Reply) {
    && |Script(line)| == 1
    && forall wrote :: RunScript(urls, file, Script(line), [wrote]) ==
         var loaded := Load(urls, file);
         var store := WithIdentity(loaded.GetOr(EMPTY_STORE), url, key);
         if (loaded.Err? && loaded.error != Missing) || !wrote || !Persistable(urls, store) then Transcript(file, [StateFailure], 1)
         else Transcript(Some(Print(store)), [reply], 0)
  }

  /** The command leaves the factory store, unless the write fails. */
  ghost predicate Resets(urls: UrlPolicy, file: Option<string>, line: string) {
    && |Script(line)| == 1
    && forall wrote :: RunScript(urls, file, Script(line), [wrote]) ==
         if wrote then Transcript(Some(Print(FACTORY_STORE)), [FactoryReset], 0) else Transcript(file, [StateFailure], 1)
  }

  lemma StoredIdentity(base: Store, url: string, key: string)
    ensures Merged(base, LocalUpdate(url, key)) == WithIdentity(base, url, key)
  {
    MergedFields(base, LocalUpdate(url, key));
    LocalUpdateState(base, url, key);
    hide Merged, Moves;
  }

  lemma {:induction false} Utf8IsBlankIff(s: string)
    ensures Utf8(s) == "" <==> s == ""
  {
  }

  lemma TaskAnswers(urls: UrlPolicy, file: Option<string>, line: string, reply: Reply)
    requires Script(line) == [Task(NoEffect, reply)] || Script(line) == [Task(SaveIdentity("", ""), reply)]
    ensures Answers(urls, file, line, reply)
  {
    hide Script;
    forall wrote
      ensures RunScript(urls, file, Script(line), [wrote]) == Transcript(file, [reply], 0)
    {
      SingleTask(urls, file, Script(line)[0], wrote);
    }
  }

  lemma TaskStores(urls: UrlPolicy, file: Option<string>, line: string, url: string, key: string, reply: Reply)
    requires Script(line) == [Task(SaveIdentity(url, key), reply)] && (url != "" || key != "")
    ensures Stores(urls, file, line, Utf8(url), Utf8(key), reply)
  {
    Utf8IsBlankIff(url);
    Utf8IsBlankIff(key);
    var loaded := Load(urls, file);
    StoredIdentity(loaded.GetOr(EMPTY_STORE), Utf8(url), Utf8(key));
    hide Script, Load, Merged, Persistable, Print, WithIdentity, Utf8;
    forall wrote
      ensures RunScript(urls, file, Script(line), [wrote]) ==
                var store := WithIdentity(loaded.GetOr(EMPTY_STORE), Utf8(url), Utf8(key));
                if (loaded.Err? && loaded.error != Missing) || !wrote || !Persistable(urls, store) then Transcript(file, [StateFailure], 1)
                else Transcript(Some(Print(store)), [reply], 0)
    {
      SingleTask(urls, file, Script(line)[0], wrote);
    }
  }

  lemma TaskResets(urls: UrlPolicy, file: Option<string>, line: string)
    requires Script(line) == [Task(ResetIdentity, FactoryReset)]
    ensures Resets(urls, file, line)
  {
    hide Script, Persistable, Print, Perform;
    forall wrote
      ensures RunScript(urls, file, Script(line), [wrote])
           == if wrote then Transcript(Some(Print(FACTORY_STORE)), [FactoryReset], 0) else Transcript(file, [StateFailure], 1)
    {
      SingleTask(urls, file, Script(line)[0], wrote);
      ResetPerforms(urls, file, wrote);
    }
  }

  lemma ResetPerforms(urls: UrlPolicy, file: Option<string>, wrote: bool)
    ensures Perform(urls, file, ResetIdentity, wrote) == Outcome(if wrote then Some(Print(FACTORY_STORE)) else file, wrote)
  {
    FactoryStoreIsPersistable(urls);
    hide Persistable, Print;
  }

  // ---- the commands ----

  /** Names of one length differ in some letter. */
  lemma NamesDiffer()
    ensures |"info"| == |"echo"| == |"true"| == |"exit"| == |"quit"| == 4
    ensures "info" != "echo" && "info" != "true" && "info" != "exit" && "info" != "quit"
    ensures "echo" != "true" && "echo" != "exit" && "echo" != "quit"
    ensures |"mca-cli"| == |"ubntbox"| == 7 && "mca-cli" != "ubntbox"
    ensures |"mca-cli-op"| == |"set-inform"| == 10 && "mca-cli-op" != "set-inform"
    ensures |"syswrapper.sh"| == 13 && |"reset2defaults"| == 14 && |"restore-default"| == 15
    ensures |"hostname"| == 8 && |"uname"| == 5 && |"cat"| == 3 && |"sh"| == 2
    ensures |"set-adopt"| == 9 && |"status"| == 6 && |"get-info"| == 8 && |"op"| == 2
  {
    assert "info"[0] == 'i' && "echo"[0] == 'e' && "true"[0] == 't' && "exit"[0] == 'e' && "quit"[0] == 'q';
    assert "echo"[1] == 'c' && "exit"[1] == 'x' && "mca-cli"[0] == 'm' && "ubntbox"[0] == 'u';
    assert "mca-cli-op"[0] == 'm' && "set-inform"[0] == 's';
  }

  lemma DispatchSyswrapper(args: seq<string>)
    requires args != [] && Base(args[0]) == "syswrapper.sh"
    ensures Dispatch(args) == Syswrapper(args)
  {
    hide Base, Syswrapper, McaCli, Cat, SetInform, FindInformURL;
  }

  lemma DispatchMcaCli(args: seq<string>)
    requires args != [] && Base(args[0]) == "mca-cli"
    ensures Dispatch(args) == McaCli(args)
  {
    NamesDiffer();
    hide Base, Syswrapper, McaCli, Cat, SetInform, FindInformURL;
  }

  lemma NamedIsNoShell(args: seq<string>)
    requires args != [] && Base(args[0]) != "sh"
    ensures !IsShell(args)
  {
    ShellsAreNotNames();
    hide Base;
  }

  lemma LoneTask(line: string, args: seq<string>)
    requires Says(line, args) && Base(args[0]) != "sh"
    ensures Script(line) == [Dispatch(args)]
    ensures forall arg <- args :: arg != ""
  {
    NamedIsNoShell(args);
    hide Base, Dispatch, Script, Says, IsShell;
    LoneScript(line, args);
    SaidWords(line, args);
  }

  // ---- set-adopt ----

  /** Commands that hand over a URL and a key. */
  ghost predicate IsSetAdopt(args: seq<string>) {
    |args| >= 2 && Base(args[0]) == "syswrapper.sh" && args[1] == "set-adopt"
  }

  lemma SetAdoptTask(args: seq<string>)
    requires IsSetAdopt(args) && forall arg <- args :: arg != ""
    ensures Dispatch(args) == if |args| == 2 then Task(SaveIdentity("", ""), AdoptionAccepted)
                              else Task(SaveIdentity(args[2], if |args| == 3 then "" else args[3]), AdoptionRequested(args[2]))
  {
    DispatchSyswrapper(args);
    hide Base, Dispatch, SetInform;
    assert |args| > 2 ==> args[2] in args;
  }

  /** `syswrapper.sh set-adopt URL KEY` stores exactly that URL and that key; the key may be left
      out, and with neither nothing is stored. */
  lemma SetAdoptStores(urls: UrlPolicy, file: Option<string>, line: string, args: seq<string>)
    requires Says(line, args) && IsSetAdopt(args)
    ensures if |args| == 2 then Answers(urls, file, line, AdoptionAccepted)
            else Stores(urls, file, line, Utf8(args[2]), if |args| == 3 then "" else Utf8(args[3]), AdoptionRequested(args[2]))
  {
    SyswrapperIsNoShell(args[0]);
    LoneTask(line, args);
    SetAdoptTask(args);
    hide Says, Script, IsSetAdopt, Answers, Stores, Dispatch;
    if |args| == 2 {
      TaskAnswers(urls, file, line, AdoptionAccepted);
    } else {
      assert args[2] in args;
      assert Utf8("") == "";
      TaskStores(urls, file, line, args[2], if |args| == 3 then "" else args[3], AdoptionRequested(args[2]));
    }
  }

  lemma SyswrapperIsNoShell(word: string)
    requires Base(word) == "syswrapper.sh"
    ensures Base(word) != "sh"
  {
    hide Base;
  }

  /** On a device without a state file the store is exactly the URL and the key under adopting,
      saved when both are acceptable; otherwise the command fails and there still is no file. */
  lemma SetAdoptOnNewDevice(urls: UrlPolicy, line: string, command: string, url: string, key: string)
    requires Says(line, [command, "set-adopt", url, key]) && Base(command) == "syswrapper.sh"
    ensures |Script(line)| == 1
    ensures var after := RunScript(urls, None, Script(line), [true]);
            if |Utf8(url)| <= 2048 && urls(Utf8(url)) && '#' !in Utf8(url) && Clean(Utf8(url))
               && WireKey(Utf8(key)).Some? && WireKey(Utf8(key)) != Some(DEFAULT_KEY) && Clean(Utf8(key)) then
              && after.out == [AdoptionRequested(url)] && after.code == 0
              && Load(urls, after.file) == Ok(Store(Utf8(url), Utf8(key), "", false, "", STATE_ADOPTING))
            else after == Transcript(None, [StateFailure], 1)
  {
    hide Says, Script, RunScript, Base, Utf8, Clean, WireKey, Persistable, Print, Parse, Dispatch, WithIdentity, Stores, Answers;
    var args := [command, "set-adopt", url, key];
    SyswrapperIsNoShell(command);
    LoneTask(line, args);
    assert url in args && key in args;
    assert IsSetAdopt(args);
    SetAdoptStores(urls, None, line, args);
    Utf8IsBlankIff(url);
    Utf8IsBlankIff(key);
    FreshIdentity(urls, Utf8(url), Utf8(key));
    StoresOnNewDevice(urls, line, Utf8(url), Utf8(key), AdoptionRequested(url));
  }

  lemma StoresOnNewDevice(urls: UrlPolicy, line: string, url: string, key: string, reply: Reply)
    requires Stores(urls, None, line, url, key, reply)
    ensures |Script(line)| == 1
    ensures RunScript(urls, None, Script(line), [true]) ==
              var store := WithIdentity(EMPTY_STORE, url, key);
              if Persistable(urls, store) then Transcript(Some(Print(store)), [reply], 0) else Transcript(None, [StateFailure], 1)
  {
    hide Script, RunScript, Persistable, Print, WithIdentity;
  }

  lemma FreshIdentity(urls: UrlPolicy, url: string, key: string)
    requires url != "" && key != ""
    ensures WithIdentity(EMPTY_STORE, url, key) == Store(url, key, "", false, "", STATE_ADOPTING)
    ensures var store := WithIdentity(EMPTY_STORE, url, key);
            && (Persistable(urls, store) <==>
                  && |url| <= 2048 && urls(url) && '#' !in url && Clean(url)
                  && WireKey(key).Some? && WireKey(key) != Some(DEFAULT_KEY) && Clean(key))
            && (Persistable(urls, store) ==> Parse(urls, Print(store)) == Ok(store))
  {
    var store := Store(url, key, "", false, "", STATE_ADOPTING);
    assert Clean("");
    PersistableIff(urls, store);
    assert WithIdentity(EMPTY_STORE, url, key) == store by { hide WireKey, Clean; }
    hide Clean, WireKey, Persistable, Print, Parse, WithIdentity;
    if Persistable(urls, store) {
      SavedStoreLoads(urls, store);
    }
    assert STATE_ADOPTING != "factory" by { assert |STATE_ADOPTING| == 8 && |"factory"| == 7; }
  }

  // ---- set-inform ----

  /** Commands that look for a URL among their words, and where they start to look. */
  ghost predicate IsSetInform(args: seq<string>, start: nat) {
    args != [] &&
    var name := Base(args[0]);
    if start == 0 then
      || name == "set-inform"
      || (name == "mca-cli-op" && (|args| > 1 ==> args[1] != "info"))
      || (name == "syswrapper.sh" && |args| > 1 && args[1] == "set-inform")
      || (name == "mca-cli" && |args| > 1 && args[1] == "set-inform")
    else start == 1 && name == "mca-cli" && |args| > 2 && args[1] == "op"
  }

  lemma SetInformDispatch(args: seq<string>, start: nat)
    requires IsSetInform(args, start)
    ensures Base(args[0]) != "sh" && Dispatch(args) == SetInform(args[start..])
  {
    NamesDiffer();
    assert args[0..] == args;
    hide Base, SetInform, FindInformURL, Cat;
    assert start == 0 && |args| > 1 && args[1] == "set-inform" ==> args[1] != "op" && args[1] != "set-adopt" by {
      assert |"set-inform"| == 10 && |"op"| == 2 && |"set-adopt"| == 9;
    }
  }

  lemma SetInformTask(args: seq<string>, start: nat, k: nat)
    requires start <= |args| && FirstURLAt(args, start, k)
    ensures SetInform(args[start..]) == if k == |args| then Task(SaveIdentity("", ""), InformAccepted)
                                        else Task(SaveIdentity(args[k], ""), if args[k] == "" then InformAccepted else InformSet(args[k]))
  {
    var words := args[start..];
    hide IsInformURL;
    assert forall j :: 0 <= j < |words| ==> words[j] == args[start + j];
    assert FirstURLAt(words, 0, k - start);
    FindsFirstURL(words, k - start);
    hide FindInformURL;
  }

  /** `set-inform`, `mca-cli-op`, and the forms of `syswrapper.sh` and `mca-cli` that stand for
      them store the first inform URL among their words, and no key; without one they answer only. */
  lemma SetInformStores(urls: UrlPolicy, file: Option<string>, line: string, args: seq<string>, start: nat, k: nat)
    requires Says(line, args) && IsSetInform(args, start) && FirstURLAt(args, start, k)
    ensures if k == |args| then Answers(urls, file, line, InformAccepted)
            else Stores(urls, file, line, Utf8(args[k]), "", InformSet(args[k]))
  {
    SetInformDispatch(args, start);
    LoneTask(line, args);
    SetInformTask(args, start, k);
    hide Says, Script, IsSetInform, Answers, Stores, Dispatch, Base, SetInform, IsInformURL;
    if k == |args| {
      TaskAnswers(urls, file, line, InformAccepted);
    } else {
      assert args[k] in args;
      assert Utf8("") == "";
      TaskStores(urls, file, line, args[k], "", InformSet(args[k]));
    }
  }

  // ---- resets ----

  /** Commands that reset. */
  ghost predicate IsReset(args: seq<string>) {
    args != [] &&
    (|| Base(args[0]) == "reset2defaults" || Base(args[0]) == "restore-default"
     || (Base(args[0]) == "syswrapper.sh" && |args| > 1 && (args[1] == "reset2defaults" || args[1] == "restore-default")))
  }

  lemma ResetTask(args: seq<string>)
    requires IsReset(args)
    ensures Base(args[0]) != "sh" && Dispatch(args) == Task(ResetIdentity, FactoryReset)
  {
    hide Base, SetInform, FindInformURL, Cat, McaCli;
  }

  /** A reset command leaves the factory store. */
  lemma ResetClears(urls: UrlPolicy, file: Option<string>, line: string, args: seq<string>)
    requires Says(line, args) && IsReset(args)
    ensures Resets(urls, file, line)
  {
    ResetTask(args);
    LoneTask(line, args);
    hide Says, Script, IsReset, Resets, Dispatch, Base;
    TaskResets(urls, file, line);
  }

  // ---- the rest ----

  /** What a command that only reads answers; None for any other command. */
  ghost function Reading(args: seq<string>): Option<Reply>
    requires args != []
  {
    var name, more := Base(args[0]), |args| > 1;
    if name == "info" then Some(Info)
    else if name == "mca-cli-op" && more && args[1] == "info" then Some(Info)
    else if name == "syswrapper.sh" && (!more || args[1] == "info" || args[1] == "status" || args[1] == "get-info") then Some(Info)
    else if name == "mca-cli" && !more then Some(Banner)
    else if name == "mca-cli" && (args[1] == "info" || args[1] == "status") then Some(Info)
    else if name == "hostname" then Some(Hostname)
    else if name == "uname" then Some(Uname)
    else if name == "cat" then
      Some(if more && (args[1] == "/etc/version" || args[1] == "/usr/lib/version") then Version
           else if more && args[1] == "/proc/ubnthal/system.info" then Info
           else Silent)
    else if name == "echo" then Some(Echo(args[1..]))
    else if name == "true" || name == "exit" || name == "quit" then Some(Silent)
    else None
  }

  lemma ReadingTask(args: seq<string>)
    requires args != [] && Reading(args).Some?
    ensures Base(args[0]) != "sh" && Dispatch(args) == Task(NoEffect, Reading(args).value)
  {
    NamesDiffer();
    hide Base, SetInform, FindInformURL;
  }

  /** Commands that only read leave the file alone. */
  lemma ReadOnlyAnswers(urls: UrlPolicy, file: Option<string>, line: string, args: seq<string>)
    requires Says(line, args) && Reading(args).Some?
    ensures Answers(urls, file, line, Reading(args).value)
  {
    ReadingTask(args);
    LoneTask(line, args);
    hide Says, Script, Reading, Answers, Dispatch, Base;
    TaskAnswers(urls, file, line, Reading(args).value);
  }

  /** `ubntbox`, and subcommands that `syswrapper.sh` and `mca-cli` do not know. */
  ghost predicate IsIgnored(args: seq<string>) {
    args != [] &&
    (|| Base(args[0]) == "ubntbox"
     || (Base(args[0]) == "syswrapper.sh" && |args| > 1
         && args[1] !in ["set-adopt", "set-inform", "info", "status", "get-info", "restore-default", "reset2defaults"])
     || (Base(args[0]) == "mca-cli" && |args| > 1
         && args[1] !in ["set-inform", "info", "status"] && (args[1] == "op" ==> |args| == 2)))
  }

  lemma IgnoredTask(args: seq<string>)
    requires IsIgnored(args)
    ensures Base(args[0]) != "sh" && Dispatch(args) == Task(SaveIdentity("", ""), Fine)
  {
    assert "mca-cli" != "ubntbox" by { assert "mca-cli"[0] == 'm' && "ubntbox"[0] == 'u'; }
    hide Base, SetInform, FindInformURL, Cat;
  }

  /** They are acknowledged only. */
  lemma IgnoredAnswers(urls: UrlPolicy, file: Option<string>, line: string, args: seq<string>)
    requires Says(line, args) && IsIgnored(args)
    ensures Answers(urls, file, line, Fine)
  {
    IgnoredTask(args);
    LoneTask(line, args);
    hide Says, Script, IsIgnored, Answers, Dispatch, Base;
    TaskAnswers(urls, file, line, Fine);
  }

  /** None of the names the shim knows. */
  ghost predicate IsUnknown(name: string) {
    && name != "syswrapper.sh" && name != "mca-cli-op" && name != "info" && name != "set-inform" && name != "mca-cli"
    && name != "ubntbox" && name != "reset2defaults" && name != "restore-default" && name != "hostname" && name != "uname"
    && name != "cat" && name != "echo" && name != "true" && name != "exit" && name != "quit"
  }

  lemma UnknownTask(args: seq<string>, k: nat)
    requires args != [] && IsUnknown(Base(args[0])) && FirstURLAt(args, 0, k)
    requires forall arg <- args :: arg != ""
    ensures Dispatch(args) == if k == |args| then Task(SaveIdentity("", ""), Fine)
                              else Task(SaveIdentity(args[k], ""), AdoptionRequested(args[k]))
  {
    FindsFirstURL(args, k);
    assert k < |args| ==> args[k] in args;
    hide Base, SetInform, FindInformURL, Cat, McaCli, Syswrapper, IsInformURL;
  }

  /** Any other command is never run: the first inform URL among its words is stored, and without
      one it is acknowledged only. */
  lemma UnknownCommand(urls: UrlPolicy, file: Option<string>, line: string, args: seq<string>, k: nat)
    requires Says(line, args) && IsUnknown(Base(args[0])) && !IsShell(args) && FirstURLAt(args, 0, k)
    ensures if k == |args| then Answers(urls, file, line, Fine)
            else Stores(urls, file, line, Utf8(args[k]), "", AdoptionRequested(args[k]))
  {
    SaidWords(line, args);
    UnknownTask(args, k);
    LoneScript(line, args);
    hide Says, Script, Base, Answers, Stores, Dispatch, IsShell, IsInformURL, IsUnknown, Tokens.Fields, Runes.TrimSpace;
    if k == |args| {
      TaskAnswers(urls, file, line, Fine);
    } else {
      assert args[k] in args;
      assert Utf8("") == "";
      TaskStores(urls, file, line, args[k], "", AdoptionRequested(args[k]));
    }
  }

  // ---- lines as they are typed ----

  /** A line spelled from words says those words. */
  lemma SpelledLine(args: seq<string>, styles: seq<Tokens.Style>)
    requires args != [] && args[0] != "sudo" && |args| == |styles|
    requires forall i :: 0 <= i < |args| ==> Tokens.Encodable(args[i], styles[i])
    requires var line := Tokens.Join(Tokens.EncodeAll(args, styles)); Unchained(line) && Runes.TrimSpace(line) == line
    ensures Says(Tokens.Join(Tokens.EncodeAll(args, styles)), args)
  {
    Tokens.FieldsInvertEncoding(args, styles);
    hide Tokens.Fields, Runes.TrimSpace, Tokens.Join, Tokens.EncodeAll, Unchained;
  }

  /** So does one with sudo in front. */
  lemma SpelledSudoLine(args: seq<string>, styles: seq<Tokens.Style>)
    requires args != [] && |args| + 1 == |styles|
    requires forall i :: 0 <= i <= |args| ==> Tokens.Encodable((["sudo"] + args)[i], styles[i])
    requires var line := Tokens.Join(Tokens.EncodeAll(["sudo"] + args, styles)); Unchained(line) && Runes.TrimSpace(line) == line
    ensures Says(Tokens.Join(Tokens.EncodeAll(["sudo"] + args, styles)), args)
  {
    Tokens.FieldsInvertEncoding(["sudo"] + args, styles);
    hide Tokens.Fields, Runes.TrimSpace, Tokens.Join, Tokens.EncodeAll, Unchained;
  }

  // ---- several commands on a line ----

  lemma SeparatedPair(rest: string)
    ensures Tokens.Separated("&&" + rest) == ";" + Tokens.Separated(rest)
  {
    assert ("&&" + rest)[2..] == rest;
  }

  lemma SeparatedRune(c: char, rest: string)
    requires c == '&' && rest != "" ==> rest[0] != '&'
    ensures Tokens.Separated([c] + rest) == [if c == '\n' then ';' else c] + Tokens.Separated(rest)
  {
    assert ([c] + rest)[1..] == rest;
  }

  lemma {:induction false} SeparatedAt(a: string, sep: string, b: string)
    requires sep in [";", "\n", "&&"] && (sep == "&&" ==> a == "" || a[|a| - 1] != '&')
    ensures Tokens.Separated(a + (sep + b)) == Tokens.Separated(a) + (";" + Tokens.Separated(b))
    decreases |a|
  {
    if a == "" {
      if sep == "&&" { SeparatedPair(b); } else { SeparatedRune(sep[0], b); }
      assert a + (sep + b) == sep + b;
      assert Tokens.Separated(a) + (";" + Tokens.Separated(b)) == ";" + Tokens.Separated(b);
    } else if |a| >= 2 && a[0] == '&' && a[1] == '&' {
      var rest := a[2..];
      SeparatedAt(rest, sep, b);
      CutAndRejoin(a, 2);
      assert a[..2] == "&&";
      SeparatedPair(rest);
      SeparatedPair(rest + (sep + b));
      hide Tokens.Separated;
      Regroup("&&", rest, sep + b);
      Regroup(";", Tokens.Separated(rest), ";" + Tokens.Separated(b));
    } else {
      var c, rest := a[0], a[1..];
      SeparatedAt(rest, sep, b);
      CutAndRejoin(a, 1);
      assert a[..1] == [c];
      SeparatedRune(c, rest);
      assert rest == "" ==> (rest + (sep + b))[0] == sep[0];
      SeparatedRune(c, rest + (sep + b));
      hide Tokens.Separated;
      Regroup([c], rest, sep + b);
      Regroup([if c == '\n' then ';' else c], Tokens.Separated(rest), ";" + Tokens.Separated(b));
    }
  }

  lemma {:induction false} SplitAt(a: string, b: string, sep: char)
    ensures Split(a + ([sep] + b), sep) == Split(a, sep) + Split(b, sep)
    decreases |a|
  {
    hide IndexOf;
    var i := IndexOf(a, sep);
    if i == |a| {
      SplitLoneLine(a, sep);
      SplitLine(a, b, sep);
      Regroup(a, [sep], b);
    } else {
      var first, rest := a[..i], a[i + 1..];
      SplitAt(rest, b, sep);
      SplitStep(a, sep);
      hide Split;
      SplitLine(first, rest + ([sep] + b), sep);
      CutAndRejoin(a, i);
      Regroup(first + [sep], rest, [sep] + b);
      RegroupParts([first], Split(rest, sep), Split(b, sep));
    }
  }

  lemma RegroupParts(a: seq<string>, b: seq<string>, c: seq<string>)
    ensures a + (b + c) == a + b + c
  {
  }

  lemma {:induction false} NonBlankJoins(a: seq<string>, b: seq<string>)
    ensures Tokens.NonBlank(a + b) == Tokens.NonBlank(a) + Tokens.NonBlank(b)
    decreases |a|
  {
    hide Runes.TrimSpace;
    if a == [] {
      assert a + b == b;
    } else {
      assert (a + b)[1..] == a[1..] + b;
      NonBlankJoins(a[1..], b);
    }
  }

  lemma {:induction false} ScriptsJoin(a: seq<string>, b: seq<string>, limit: nat)
    requires (forall p <- a :: |p| <= limit) && forall p <- b :: |p| <= limit
    ensures ScriptAll(a + b, limit) == ScriptAll(a, limit) + ScriptAll(b, limit)
    decreases |a|
  {
    hide ScriptOne;
    if a == [] {
      assert a + b == b;
    } else {
      assert (a + b)[1..] == a[1..] + b;
      ScriptsJoin(a[1..], b, limit);
    }
  }

  lemma CommandsJoin(a: string, sep: string, b: string)
    requires sep in [";", "\n", "&&"] && (sep == "&&" ==> a == "" || a[|a| - 1] != '&')
    ensures Tokens.Commands(a + sep + b) == Tokens.Commands(a) + Tokens.Commands(b)
  {
    Regroup(a, sep, b);
    SeparatedAt(a, sep, b);
    SplitAt(Tokens.Separated(a), Tokens.Separated(b), ';');
    NonBlankJoins(Split(Tokens.Separated(a), ';'), Split(Tokens.Separated(b), ';'));
    hide Tokens.Separated, Tokens.NonBlank, Split;
  }

  /** Commands joined by a semicolon, a newline or a double ampersand run one after the other. */
  lemma ChainedScript(a: string, sep: string, b: string)
    requires sep in [";", "\n", "&&"] && (sep == "&&" ==> a == "" || a[|a| - 1] != '&')
    ensures Script(a + sep + b) == Script(a) + Script(b)
  {
    CommandsJoin(a, sep, b);
    hide Tokens.Commands, ScriptAll;
    var limit := |a + sep + b|;
    LimitIsFree(Tokens.Commands(a), |a|, limit);
    LimitIsFree(Tokens.Commands(b), |b|, limit);
    ScriptsJoin(Tokens.Commands(a), Tokens.Commands(b), limit);
  }

  /** A blank line asks for nothing. */
  lemma BlankLine(line: string)
    requires Unchained(line) && Runes.TrimSpace(line) == ""
    ensures Script(line) == []
  {
    OneCommand(line);
    hide Runes.TrimSpace, Tokens.Commands;
  }

  /** ASCII text goes into the state file as it is. */
  lemma {:induction false} AsciiStays(s: string)
    requires forall i :: 0 <= i < |s| ==> s[i] as int < 0x80
    ensures Utf8(s) == s
  {
    if s != "" {
      AsciiStays(s[1..]);
      assert s == [s[0]] + s[1..];
    }
  }

  // ---- white space in runes and in bytes ----

  lemma OneByte(c: char)
    requires c as int < 0x80
    ensures Runes.IsSpace(c) <==> LeadingSpace(Utf8Rune(c)) > 0
    ensures Runes.IsSpace(c) <==> TrailingSpace(Utf8Rune(c)) > 0
  {
  }

  lemma TwoBytes(c: char)
    requires 0x80 <= c as int < 0x800
    ensures Runes.IsSpace(c) <==> LeadingSpace(Utf8Rune(c)) > 0
    ensures Runes.IsSpace(c) <==> TrailingSpace(Utf8Rune(c)) > 0
  {
    var n := c as int;
    var high, low := 0xC0 + n / 0x40, 0x80 + n % 0x40;
    assert n == 0x40 * (high - 0xC0) + (low - 0x80) && 0x80 <= low < 0xC0 && 0xC2 <= high < 0xE0;
  }

  lemma ThreeBytes(c: char)
    requires 0x800 <= c as int < 0x10000
    ensures Runes.IsSpace(c) <==> LeadingSpace(Utf8Rune(c)) > 0
    ensures Runes.IsSpace(c) <==> TrailingSpace(Utf8Rune(c)) > 0
  {
    var n := c as int;
    var high, mid, low := 0xE0 + n / 0x1000, 0x80 + n / 0x40 % 0x40, 0x80 + n % 0x40;
    assert n == 0x1000 * (high - 0xE0) + 0x40 * (mid - 0x80) + (low - 0x80);
    assert 0x80 <= low < 0xC0 && 0x80 <= mid < 0xC0 && 0xE0 <= high < 0xF0;
  }

  lemma FourBytes(c: char)
    requires 0x10000 <= c as int
    ensures !Runes.IsSpace(c) && LeadingSpace(Utf8Rune(c)) == 0 && TrailingSpace(Utf8Rune(c)) == 0
  {
  }

  /** The tokenizer's white space and the state file's are the same, once written as UTF-8. */
  lemma SameWhiteSpace(c: char)
    ensures Runes.IsSpace(c) <==> LeadingSpace(Utf8Rune(c)) > 0
    ensures Runes.IsSpace(c) <==> TrailingSpace(Utf8Rune(c)) > 0
  {
    hide Runes.IsSpace, LeadingSpace, TrailingSpace, Utf8Rune;
    if c as int < 0x80 {
      OneByte(c);
    } else if c as int < 0x800 {
      TwoBytes(c);
    } else if c as int < 0x10000 {
      ThreeBytes(c);
    } else {
      FourBytes(c);
    }
  }
}
