/** What a passive snapshot says about each bridge member: its role, its observed link, the
    addresses learned behind it, and so what it asks of the represented ports. Maps are walked
    in no particular order; every answer is stated as a relation that allows them all. */
module Members {
  import opened Basics
  import opened Runes
  import opened Ports
  import opened MemberOrder

  datatype Role = Unknown | UplinkRole | Access | BridgeRole | Ignored

  datatype Stats = Stats(counters: Counters, countersSet: bool, speed: int)

  datatype Observation = Observation(iface: string, up: Option<bool>, speed: int, media: string, stats: Stats)

  datatype Snapshot = Snapshot(
    uplinkPort: int, iface: string, bridge: string, up: Option<bool>, stats: Stats, macs: seq<MacEntry>,
    devices: map<string, seq<MacEntry>>, remote: map<string, bool>, memberPorts: map<string, Observation>,
    pins: map<string, int>, roles: map<string, Role>)

  // ---- looking a member up by name ----

  /** The exact trimmed name first, then any key that differs only in case and outer blanks. */
  ghost predicate MayFind<V>(m: map<string, V>, name: string, r: Option<V>) {
    if TrimSpace(name) in m then r == Some(m[TrimSpace(name)])
    else if r.None? then forall key :: key in m ==> Normal(key) != Normal(name)
    else exists key :: key in m && Normal(key) == Normal(name) && m[key] == r.value
  }

  method FindByName<V>(m: map<string, V>, name: string) returns (r: Option<V>)
    ensures MayFind(m, name, r)
  {
    if TrimSpace(name) in m {
      return Some(m[TrimSpace(name)]);
    }
    var left := m.Keys;
    while left != {}
      invariant left <= m.Keys && forall key :: key in m.Keys - left ==> Normal(key) != Normal(name)
      decreases |left|
    {
      var key :| key in left;
      if Normal(key) == Normal(name) {
        return Some(m[key]);
      }
      left := left - {key};
    }
    return None;
  }

  /** With distinct keys the order of the walk does not matter. */
  lemma FoundOnce<V>(m: map<string, V>, name: string, r: Option<V>, again: Option<V>)
    requires Apart(m.Keys) && MayFind(m, name, r) && MayFind(m, name, again)
    ensures r == again
  {
    hide Normal, TrimSpace;
  }

  lemma SomethingIsFound<V>(m: map<string, V>, name: string) returns (r: Option<V>)
    ensures MayFind(m, name, r)
  {
    hide Normal, TrimSpace;
    if TrimSpace(name) in m {
      r := Some(m[TrimSpace(name)]);
    } else if key :| key in m && Normal(key) == Normal(name) {
      r := Some(m[key]);
    } else {
      r := None;
    }
  }

  /** Whether some walk of the role map ends with this role. */
  ghost predicate MayBe(s: Snapshot, name: string, role: Role) {
    exists r :: MayFind(s.roles, name, r) && role == r.GetOr(Unknown)
  }

  method MemberRole(s: Snapshot, name: string) returns (role: Role)
    ensures MayBe(s, name, role)
  {
    hide MayFind;
    var r := FindByName(s.roles, name);
    return r.GetOr(Unknown);
  }

  lemma RoleIsOne(s: Snapshot, name: string, role: Role, again: Role)
    requires Apart(s.roles.Keys) && MayBe(s, name, role) && MayBe(s, name, again)
    ensures role == again
  {
    hide MayFind, Apart;
    var r :| MayFind(s.roles, name, r) && role == r.GetOr(Unknown);
    var t :| MayFind(s.roles, name, t) && again == t.GetOr(Unknown);
    FoundOnce(s.roles, name, r, t);
  }

  // ---- addresses behind the uplink ----

  predicate CarriesUplink(s: Snapshot, name: string, role: Role) {
    role == UplinkRole || IsUplinkDevice(name, s.iface)
  }

  ghost predicate MayCarry(s: Snapshot, name: string, carries: bool) {
    exists role :: MayBe(s, name, role) && carries == CarriesUplink(s, name, role)
  }

  /** The comparison keys of the addresses learned on these members. */
  ghost function KeysBehind(s: Snapshot, members: set<string>, macKey: string -> string): set<string> {
    set d, e | d in members && d in s.devices && e in s.devices[d] && macKey(e.mac) != "" :: macKey(e.mac)
  }

  /** The addresses a caller marked as remote. */
  function Marked(s: Snapshot, macKey: string -> string): set<string> {
    set v | v in s.remote && s.remote[v] && macKey(v) != "" :: macKey(v)
  }

  ghost predicate MayBeUplinks(s: Snapshot, members: set<string>) {
    members <= s.devices.Keys && forall d :: d in s.devices ==> MayCarry(s, d, d in members)
  }

  /** The addresses to keep off the access ports: those the caller marked, or when there are
      none, those learned on an uplink member. */
  ghost predicate MayBeRemote(s: Snapshot, macKey: string -> string, remote: set<string>) {
    if Marked(s, macKey) != {} then remote == Marked(s, macKey)
    else exists members :: MayBeUplinks(s, members) && remote == KeysBehind(s, members, macKey)
  }

  method NormalizeRemoteMACSet(s: Snapshot, macKey: string -> string) returns (remote: set<string>)
    ensures remote == Marked(s, macKey)
  {
    var left := s.remote.Keys;
    remote := {};
    while left != {}
      invariant left <= s.remote.Keys
      invariant remote == set v | v in s.remote.Keys - left && s.remote[v] && macKey(v) != "" :: macKey(v)
      decreases |left|
    {
      var value :| value in left;
      if s.remote[value] && macKey(value) != "" {
        remote := remote + {macKey(value)};
      }
      left := left - {value};
    }
  }

  method AddressKeys(entries: seq<MacEntry>, macKey: string -> string) returns (keys: set<string>)
    ensures keys == set e | e in entries && macKey(e.mac) != "" :: macKey(e.mac)
  {
    keys := {};
    for i := 0 to |entries|
      invariant keys == set e | e in entries[..i] && macKey(e.mac) != "" :: macKey(e.mac)
    {
      assert entries[..i + 1] == entries[..i] + [entries[i]];
      if macKey(entries[i].mac) != "" {
        keys := keys + {macKey(entries[i].mac)};
      }
    }
    assert entries[..|entries|] == entries;
  }

  method RemoteMACsByBridgeMember(s: Snapshot, macKey: string -> string) returns (remote: set<string>, ghost members: set<string>)
    ensures MayBeUplinks(s, members) && remote == KeysBehind(s, members, macKey)
  {
    hide MayBe, CarriesUplink;
    var left := s.devices.Keys;
    remote, members := {}, {};
    while left != {}
      invariant left <= s.devices.Keys && members <= s.devices.Keys - left
      invariant forall d :: d in s.devices.Keys - left ==> MayCarry(s, d, d in members)
      invariant remote == KeysBehind(s, members, macKey)
      decreases |left|
    {
      var member :| member in left;
      var role := MemberRole(s, member);
      left := left - {member};
      if CarriesUplink(s, member, role) {
        var keys := AddressKeys(s.devices[member], macKey);
        assert KeysBehind(s, members + {member}, macKey) == remote + keys;
        remote, members := remote + keys, members + {member};
      }
    }
  }

  method RemoteMACs(s: Snapshot, macKey: string -> string) returns (remote: set<string>)
    ensures MayBeRemote(s, macKey, remote)
  {
    hide MayBeUplinks, KeysBehind, Marked;
    remote := NormalizeRemoteMACSet(s, macKey);
    if remote == {} {
      ghost var members;
      remote, members := RemoteMACsByBridgeMember(s, macKey);
    }
  }

  lemma RemoteIsOne(s: Snapshot, macKey: string -> string, remote: set<string>, again: set<string>)
    requires Apart(s.roles.Keys) && MayBeRemote(s, macKey, remote) && MayBeRemote(s, macKey, again)
    ensures remote == again
  {
    hide MayBe, CarriesUplink, KeysBehind, Marked, Apart;
    if Marked(s, macKey) == {} {
      var a :| MayBeUplinks(s, a) && remote == KeysBehind(s, a, macKey);
      var b :| MayBeUplinks(s, b) && again == KeysBehind(s, b, macKey);
      forall d | d in s.devices
        ensures d in a <==> d in b
      {
        var r :| MayBe(s, d, r) && (d in a) == CarriesUplink(s, d, r);
        var t :| MayBe(s, d, t) && (d in b) == CarriesUplink(s, d, t);
        RoleIsOne(s, d, r, t);
      }
      assert a == b;
    }
  }

  predicate Local(e: MacEntry, remote: set<string>, macKey: string -> string) {
    macKey(e.mac) == "" || macKey(e.mac) !in remote
  }

  function LocalEntries(entries: seq<MacEntry>, remote: set<string>, macKey: string -> string): seq<MacEntry>
    decreases |entries|
  {
    if entries == [] then []
    else
      var init := LocalEntries(entries[..|entries| - 1], remote, macKey);
      if Local(entries[|entries| - 1], remote, macKey) then init + [entries[|entries| - 1]] else init
  }

  method FilterRemoteMACEntries(entries: seq<MacEntry>, remote: set<string>, macKey: string -> string)
    returns (out: seq<MacEntry>)
    ensures out == LocalEntries(entries, remote, macKey)
  {
    if entries == [] || remote == {} {
      AllLocal(entries, remote, macKey);
      return entries;
    }
    hide Local;
    out := [];
    for i := 0 to |entries|
      invariant out == LocalEntries(entries[..i], remote, macKey)
    {
      assert entries[..i + 1][..i] == entries[..i];
      if Local(entries[i], remote, macKey) {
        out := out + [entries[i]];
      }
    }
    assert entries[..|entries|] == entries;
  }

  lemma {:induction false} AllLocal(entries: seq<MacEntry>, remote: set<string>, macKey: string -> string)
    requires entries == [] || remote == {}
    ensures LocalEntries(entries, remote, macKey) == entries
    decreases |entries|
  {
    if entries != [] {
      AllLocal(entries[..|entries| - 1], remote, macKey);
      assert entries == entries[..|entries| - 1] + [entries[|entries| - 1]];
    }
  }

  /** Filtering keeps the local entries, all of them, and no other. */
  lemma {:induction false} LocalEntriesAre(entries: seq<MacEntry>, remote: set<string>, macKey: string -> string, e: MacEntry)
    ensures e in LocalEntries(entries, remote, macKey) <==> e in entries && Local(e, remote, macKey)
    decreases |entries|
  {
    hide Local;
    if entries != [] {
      LocalEntriesAre(entries[..|entries| - 1], remote, macKey, e);
      assert entries == entries[..|entries| - 1] + [entries[|entries| - 1]];
    }
  }

  // ---- what a member asks for ----

  /** An uplink member reports on the uplink port; any other member with local addresses wants
      a port for them, the pinned one if it has a pin. */
  datatype Task =
    | Report(name: string, seen: Option<Observation>)
    | Claim(name: string, seen: Option<Observation>, macs: seq<MacEntry>, pin: int)

  function PinOf(s: Snapshot, name: string): int {
    if TrimSpace(name) in s.pins then s.pins[TrimSpace(name)] else 0
  }

  ghost predicate Eligible(role: Role) {
    role != BridgeRole && role != Ignored
  }

  /** What this member may ask for, if anything. */
  ghost predicate MayAsk(s: Snapshot, remote: set<string>, macKey: string -> string, name: string, task: Option<Task>)
    requires name in s.devices
  {
    if s.devices[name] == [] then task == None
    else exists role, seen ::
        MayBe(s, name, role) && MayFind(s.memberPorts, name, seen)
        && task == Asked(s, remote, macKey, name, role, seen)
  }

  ghost function Asked(s: Snapshot, remote: set<string>, macKey: string -> string, name: string, role: Role,
                       seen: Option<Observation>): Option<Task>
    requires name in s.devices
  {
    if !Eligible(role) then None
    else if CarriesUplink(s, name, role) then Some(Report(name, seen))
    else if LocalEntries(s.devices[name], remote, macKey) == [] then None
    else Some(Claim(name, seen, LocalEntries(s.devices[name], remote, macKey), PinOf(s, name)))
  }

  /** The tasks of these members in order, those that ask for nothing left out. */
  ghost predicate MayAskInOrder(s: Snapshot, remote: set<string>, macKey: string -> string, names: seq<string>, tasks: seq<Task>)
    requires forall name <- names :: name in s.devices
    decreases |names|
  {
    if names == [] then tasks == []
    else
      exists task ::
        MayAsk(s, remote, macKey, names[|names| - 1], task)
        && (task.Some? ==> tasks != [] && tasks[|tasks| - 1] == task.value)
        && MayAskInOrder(s, remote, macKey, names[..|names| - 1], if task.Some? then tasks[..|tasks| - 1] else tasks)
  }

  /** The tasks one reading of the snapshot may give. */
  ghost predicate MayAskFor(s: Snapshot, macKey: string -> string, remote: set<string>, tasks: seq<Task>) {
    MayBeRemote(s, macKey, remote) &&
    exists names ::
      Lists(names, s.devices.Keys) && Ordered(names, s.iface, s.bridge)
      && (forall name <- names :: name in s.devices) && MayAskInOrder(s, remote, macKey, names, tasks)
  }

  /** Members, roles and observations whose names differ by more than case and outer blanks. */
  ghost predicate NamesApart(s: Snapshot) {
    Apart(s.devices.Keys) && Apart(s.roles.Keys) && Apart(s.memberPorts.Keys)
  }

  lemma AskIsOne(s: Snapshot, remote: set<string>, macKey: string -> string, name: string, task: Option<Task>, again: Option<Task>)
    requires name in s.devices && NamesApart(s)
    requires MayAsk(s, remote, macKey, name, task) && MayAsk(s, remote, macKey, name, again)
    ensures task == again
  {
    hide MayBe, MayFind, CarriesUplink, LocalEntries, PinOf, Apart;
    if s.devices[name] != [] {
      var role, seen :| MayBe(s, name, role) && MayFind(s.memberPorts, name, seen)
        && task == Asked(s, remote, macKey, name, role, seen);
      var role', seen' :| MayBe(s, name, role') && MayFind(s.memberPorts, name, seen')
        && again == Asked(s, remote, macKey, name, role', seen');
      RoleIsOne(s, name, role, role');
      FoundOnce(s.memberPorts, name, seen, seen');
    }
  }

  /** The last member's task and what the others asked for. */
  lemma LastAsked(s: Snapshot, remote: set<string>, macKey: string -> string, names: seq<string>, tasks: seq<Task>)
    returns (task: Option<Task>, rest: seq<Task>)
    requires names != [] && forall name <- names :: name in s.devices
    requires MayAskInOrder(s, remote, macKey, names, tasks)
    ensures MayAsk(s, remote, macKey, names[|names| - 1], task)
    ensures MayAskInOrder(s, remote, macKey, names[..|names| - 1], rest)
    ensures tasks == if task.Some? then rest + [task.value] else rest
  {
    hide MayAsk;
    task :| MayAsk(s, remote, macKey, names[|names| - 1], task) && (task.Some? ==> tasks != [] && tasks[|tasks| - 1] == task.value)
      && MayAskInOrder(s, remote, macKey, names[..|names| - 1], if task.Some? then tasks[..|tasks| - 1] else tasks);
    rest := if task.Some? then tasks[..|tasks| - 1] else tasks;
    assert task.Some? ==> tasks == tasks[..|tasks| - 1] + [task.value];
  }

  lemma {:induction false} TasksAreOne(s: Snapshot, remote: set<string>, macKey: string -> string, names: seq<string>,
                                       tasks: seq<Task>, again: seq<Task>)
    requires NamesApart(s) && forall name <- names :: name in s.devices
    requires MayAskInOrder(s, remote, macKey, names, tasks) && MayAskInOrder(s, remote, macKey, names, again)
    ensures tasks == again
    decreases |names|
  {
    hide MayAsk, NamesApart;
    if names != [] {
      var init, name := names[..|names| - 1], names[|names| - 1];
      var task, rest := LastAsked(s, remote, macKey, names, tasks);
      var task', rest' := LastAsked(s, remote, macKey, names, again);
      hide MayAskInOrder;
      AskIsOne(s, remote, macKey, name, task, task');
      TasksAreOne(s, remote, macKey, init, rest, rest');
    }
  }

  /** Two readings of a snapshot with distinct names agree on the remote addresses and ask for
      the same things in the same order, whatever order each map was walked in each time. */
  lemma ReadingIsOne(s: Snapshot, macKey: string -> string, remote: set<string>, tasks: seq<Task>,
                     remote': set<string>, tasks': seq<Task>)
    requires NamesApart(s) && MayAskFor(s, macKey, remote, tasks) && MayAskFor(s, macKey, remote', tasks')
    ensures remote == remote' && tasks == tasks'
  {
    hide MayBeRemote, Lists, Ordered, MayAskInOrder, Apart;
    var names :| Lists(names, s.devices.Keys) && Ordered(names, s.iface, s.bridge)
      && (forall name <- names :: name in s.devices) && MayAskInOrder(s, remote, macKey, names, tasks);
    var names' :| Lists(names', s.devices.Keys) && Ordered(names', s.iface, s.bridge)
      && (forall name <- names' :: name in s.devices) && MayAskInOrder(s, remote', macKey, names', tasks');
    RemoteIsOne(s, macKey, remote, remote');
    SortingIgnoresOrder(s.devices.Keys, names, names', s.iface, s.bridge);
    TasksAreOne(s, remote, macKey, names, tasks, tasks');
  }

  /** Every claim names a member with local addresses and carries exactly those. */
  ghost predicate ClaimFits(s: Snapshot, remote: set<string>, macKey: string -> string, task: Task) {
    task.name in s.devices
    && (task.Claim? ==>
          && task.macs != [] && task.macs == LocalEntries(s.devices[task.name], remote, macKey)
          && task.pin == PinOf(s, task.name))
  }

  lemma {:induction false} TasksFit(s: Snapshot, remote: set<string>, macKey: string -> string, names: seq<string>, tasks: seq<Task>)
    requires forall name <- names :: name in s.devices
    requires MayAskInOrder(s, remote, macKey, names, tasks)
    ensures forall task <- tasks :: ClaimFits(s, remote, macKey, task)
    decreases |names|
  {
    hide MayBe, MayFind, CarriesUplink, LocalEntries, PinOf;
    if names != [] {
      var task, rest := LastAsked(s, remote, macKey, names, tasks);
      TasksFit(s, remote, macKey, names[..|names| - 1], rest);
      assert task.Some? ==> ClaimFits(s, remote, macKey, task.value);
    }
  }

  lemma AskedTasksFit(s: Snapshot, macKey: string -> string, remote: set<string>, tasks: seq<Task>)
    requires MayAskFor(s, macKey, remote, tasks)
    ensures forall task <- tasks :: ClaimFits(s, remote, macKey, task)
  {
    hide MayBeRemote, Lists, Ordered, MayAskInOrder, ClaimFits;
    var names :| Lists(names, s.devices.Keys) && Ordered(names, s.iface, s.bridge)
      && (forall name <- names :: name in s.devices) && MayAskInOrder(s, remote, macKey, names, tasks);
    TasksFit(s, remote, macKey, names, tasks);
  }

  // ---- every eligible member asks, and asks once ----

  /** Some reading of the roles makes this member claim a port. */
  ghost predicate MayClaim(s: Snapshot, remote: set<string>, macKey: string -> string, name: string) {
    && name in s.devices && LocalEntries(s.devices[name], remote, macKey) != []
    && exists role :: MayBe(s, name, role) && Eligible(role) && !CarriesUplink(s, name, role)
  }

  /** Every reading of the roles does: it is an eligible member, not the uplink, with local
      addresses. */
  ghost predicate MustClaim(s: Snapshot, remote: set<string>, macKey: string -> string, name: string) {
    && name in s.devices && LocalEntries(s.devices[name], remote, macKey) != []
    && forall role :: MayBe(s, name, role) ==> Eligible(role) && !CarriesUplink(s, name, role)
  }

  /** The members of a snapshot that claim a port. */
  ghost function Claimants(s: Snapshot, remote: set<string>, macKey: string -> string): set<string> {
    set name | name in s.devices && MayClaim(s, remote, macKey, name)
  }

  lemma SomeRole(s: Snapshot, name: string) returns (role: Role)
    ensures MayBe(s, name, role)
  {
    hide MayFind;
    var r := SomethingIsFound(s.roles, name);
    role := r.GetOr(Unknown);
  }

  /** When the role map's names are distinct there is no difference. */
  lemma ClaimantsAreCertain(s: Snapshot, remote: set<string>, macKey: string -> string, name: string)
    requires Apart(s.roles.Keys)
    ensures MayClaim(s, remote, macKey, name) <==> MustClaim(s, remote, macKey, name)
  {
    hide MayBe, CarriesUplink, LocalEntries, Apart, Eligible;
    var sure := SomeRole(s, name);
    forall role | MayBe(s, name, role)
      ensures role == sure
    {
      RoleIsOne(s, name, role, sure);
    }
  }

  lemma NothingLocalOfNothing(remote: set<string>, macKey: string -> string)
    ensures LocalEntries([], remote, macKey) == []
  {
  }

  lemma AskedClaim(s: Snapshot, remote: set<string>, macKey: string -> string, name: string, task: Option<Task>)
    requires name in s.devices && MayAsk(s, remote, macKey, name, task)
    ensures task.Some? ==> task.value.name == name
    ensures task.Some? && task.value.Claim? ==> MayClaim(s, remote, macKey, name)
    ensures MustClaim(s, remote, macKey, name) ==> task.Some? && task.value.Claim?
  {
    hide MayBe, MayFind, CarriesUplink, LocalEntries, PinOf, Eligible;
    NothingLocalOfNothing(remote, macKey);
  }

  lemma {:induction false} ClaimInOrder(s: Snapshot, remote: set<string>, macKey: string -> string, names: seq<string>,
                                        tasks: seq<Task>, name: string)
    requires forall n <- names :: n in s.devices
    requires MayAskInOrder(s, remote, macKey, names, tasks)
    ensures forall task <- tasks :: task.name in names && (task.Claim? ==> MayClaim(s, remote, macKey, task.name))
    ensures name in names && MustClaim(s, remote, macKey, name) ==> exists task <- tasks :: task.Claim? && task.name == name
    decreases |names|
  {
    if names != [] {
      var task, rest := LastAsked(s, remote, macKey, names, tasks);
      hide MayAsk, MayClaim, MustClaim, MayAskInOrder;
      ClaimInOrder(s, remote, macKey, names[..|names| - 1], rest, name);
      AskedClaim(s, remote, macKey, names[|names| - 1], task);
      assert names == names[..|names| - 1] + [names[|names| - 1]];
      assert forall t <- rest :: t in tasks;
      assert task.Some? ==> tasks[|rest|] == task.value && task.value in tasks;
    }
  }

  ghost predicate NoRepeats(names: seq<string>) {
    forall i, j :: 0 <= i < j < |names| ==> names[i] != names[j]
  }

  lemma ListsHasNoRepeats(names: seq<string>, keys: set<string>)
    requires Lists(names, keys)
    ensures NoRepeats(names)
  {
    forall i, j | 0 <= i < j < |names|
      ensures names[i] != names[j]
    {
      var x := names[j];
      assert names == names[..j] + names[j..];
      assert multiset(names) == multiset(names[..j]) + multiset(names[j..]);
      assert x in names[j..] && multiset(keys)[x] <= 1;
      assert x !in multiset(names[..j]);
      assert names[i] in names[..j];
    }
  }

  /** No two tasks of one reading come from the same member. */
  ghost predicate Once(tasks: seq<Task>) {
    forall j, k :: 0 <= j < k < |tasks| ==> tasks[j].name != tasks[k].name
  }

  lemma {:induction false} OnceInOrder(s: Snapshot, remote: set<string>, macKey: string -> string, names: seq<string>, tasks: seq<Task>)
    requires (forall n <- names :: n in s.devices) && NoRepeats(names)
    requires MayAskInOrder(s, remote, macKey, names, tasks)
    ensures Once(tasks)
    decreases |names|
  {
    if names != [] {
      var init, name := names[..|names| - 1], names[|names| - 1];
      var task, rest := LastAsked(s, remote, macKey, names, tasks);
      hide MayAsk, MayClaim, MustClaim, MayAskInOrder;
      OnceInOrder(s, remote, macKey, init, rest);
      ClaimInOrder(s, remote, macKey, init, rest, name);
      AskedClaim(s, remote, macKey, name, task);
      forall k | 0 <= k < |rest|
        ensures rest[k].name != name
      {
        assert rest[k] in rest && rest[k].name in init;
      }
    }
  }

  /** In every reading each member that must claim a port does, with exactly its local addresses
      and its pin; nobody else who may not claim one does; and nobody asks twice. */
  lemma EveryClaimantAsksOnce(s: Snapshot, macKey: string -> string, remote: set<string>, tasks: seq<Task>)
    requires MayAskFor(s, macKey, remote, tasks)
    ensures Once(tasks)
    ensures forall name :: MustClaim(s, remote, macKey, name) ==> exists task :: task in tasks && task.Claim? && task.name == name
    ensures forall task <- tasks :: task.Claim? ==>
              && MayClaim(s, remote, macKey, task.name)
              && task.macs == LocalEntries(s.devices[task.name], remote, macKey) && task.pin == PinOf(s, task.name)
  {
    AskedTasksFit(s, macKey, remote, tasks);
    hide MayBeRemote, Lists, Ordered, MayAskInOrder, MayClaim, LocalEntries, PinOf;
    var names :| Lists(names, s.devices.Keys) && Ordered(names, s.iface, s.bridge)
      && (forall name <- names :: name in s.devices) && MayAskInOrder(s, remote, macKey, names, tasks);
    ListsHasNoRepeats(names, s.devices.Keys);
    OnceInOrder(s, remote, macKey, names, tasks);
    ClaimInOrder(s, remote, macKey, names, tasks, "");
    forall name | MustClaim(s, remote, macKey, name)
      ensures exists task :: task in tasks && task.Claim? && task.name == name
    {
      KeysAreListed(names, s.devices.Keys, name);
      ClaimInOrder(s, remote, macKey, names, tasks, name);
    }
    forall task | task in tasks
      ensures ClaimFits(s, remote, macKey, task)
    {
    }
  }

  lemma KeysAreListed(names: seq<string>, keys: set<string>, name: string)
    requires Lists(names, keys) && name in keys
    ensures name in names
  {
    assert name in multiset(keys);
    assert name in multiset(names);
  }
}
