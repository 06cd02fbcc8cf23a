/** Laying a passive snapshot over the represented ports: each bridge member's addresses and
    link state go to one port, pinned or next free, and ports nobody uses go dark. */
module Observe {
  import opened Basics
  import opened Runes
  import opened Ports
  import opened MemberOrder
  import opened Members

  ghost predicate Numbered(ports: seq<Port>) {
    forall i :: 0 <= i < |ports| ==> ports[i].index == i + 1
  }

  // ---- one port ----

  predicate HasCounters(stats: Stats) {
    stats.countersSet || stats.counters != NO_COUNTERS
  }

  function Counting(p: Port, stats: Stats): Port {
    if HasCounters(stats) then p.(counters := stats.counters, countersSet := true) else p
  }

  function Cleared(p: Port): Port {
    p.(up := false, speed := 0, macs := [], countersSet := false, counters := NO_COUNTERS)
  }

  function Described(p: Port, o: Observation): Port {
    p.(iface := Kept(TrimSpace(o.iface), p.iface), media := Kept(TrimSpace(o.media), p.media))
  }

  function Linked(p: Port, o: Observation): Port {
    var up := o.up == Some(true);
    p.(up := up, speed := if up && o.speed > 0 then o.speed else p.speed)
  }

  function Shown(p: Port, o: Observation): Port {
    Counting(Linked(Described(p, o), o), o.stats)
  }

  /** The port shows only what was seen of this member. */
  function Observed(p: Port, seen: Option<Observation>): Port {
    if seen.None? then Cleared(p) else Shown(Cleared(p), seen.value)
  }

  lemma ObservedHoldsNoMACs(p: Port, seen: Option<Observation>)
    ensures Observed(p, seen).macs == []
  {
    hide TrimSpace, Kept, HasCounters;
  }

  // ---- handing out ports ----

  /** What stays the same while ports are handed out: the uplink port, the number of ports and
      the ports neither pinned nor uplink. */
  datatype Plan = Plan(uplink: int, count: nat, free: seq<int>)

  predicate Pinned(plan: Plan, task: Task) {
    task.Claim? && 1 <= task.pin <= plan.count
  }

  predicate Unpinned(plan: Plan, task: Task) {
    task.Claim? && !Pinned(plan, task)
  }

  /** How many free ports the tasks have used up. */
  function Used(plan: Plan, tasks: seq<Task>): nat
    decreases |tasks|
  {
    if tasks == [] then 0
    else
      var before := Used(plan, tasks[..|tasks| - 1]);
      if Unpinned(plan, tasks[|tasks| - 1]) && before < |plan.free| then before + 1 else before
  }

  /** The port a task gets when so many free ports are taken. */
  function PortFor(plan: Plan, task: Task, taken: nat): int {
    if task.Report? then plan.uplink
    else if Pinned(plan, task) then task.pin
    else if taken < |plan.free| && 1 <= plan.free[taken] <= plan.count then plan.free[taken]
    else plan.uplink
  }

  function Slot(plan: Plan, tasks: seq<Task>, k: nat): int
    requires k < |tasks|
  {
    PortFor(plan, tasks[k], Used(plan, tasks[..k]))
  }

  /** The port after this task: what was shown there before is gone. */
  function Holding(p: Port, plan: Plan, task: Task, slot: int): Port {
    var q := Observed(p, task.seen);
    var named := if task.name != "" && (task.Report? || slot != plan.uplink) then q.(name := task.name) else q;
    if task.Report? then named else named.(macs := task.macs)
  }

  ghost predicate Sensible(plan: Plan) {
    1 <= plan.uplink <= plan.count
  }

  lemma SlotIsAPort(plan: Plan, tasks: seq<Task>, k: nat)
    requires Sensible(plan) && k < |tasks|
    ensures 1 <= Slot(plan, tasks, k) <= plan.count
  {
  }

  function Filled(ports: seq<Port>, plan: Plan, tasks: seq<Task>): (out: seq<Port>)
    requires Sensible(plan) && |ports| == plan.count
    ensures |out| == |ports|
    decreases |tasks|
  {
    if tasks == [] then ports
    else
      var init := Filled(ports, plan, tasks[..|tasks| - 1]);
      SlotIsAPort(plan, tasks, |tasks| - 1);
      var slot := Slot(plan, tasks, |tasks| - 1);
      init[slot - 1 := Holding(init[slot - 1], plan, tasks[|tasks| - 1], slot)]
  }

  function Taken(plan: Plan, tasks: seq<Task>): set<int> {
    {plan.uplink} + set k | 0 <= k < |tasks| :: Slot(plan, tasks, k)
  }

  function Darkened(ports: seq<Port>, used: set<int>): seq<Port> {
    seq(|ports|, i requires 0 <= i < |ports| => if ports[i].index in used then ports[i] else Cleared(ports[i]))
  }

  function Emptied(ports: seq<Port>): (out: seq<Port>)
    ensures |out| == |ports|
  {
    seq(|ports|, i requires 0 <= i < |ports| => ports[i].(macs := []))
  }

  /** The ports below this number that are neither the uplink nor pinned. */
  function FreePorts(n: nat, uplink: int, pinned: set<int>): seq<int> {
    if n == 0 then []
    else FreePorts(n - 1, uplink, pinned) + if n != uplink && n !in pinned then [n] else []
  }

  /** Every port some pin names, whether or not its member is present. */
  function PinnedPorts(pins: map<string, int>, count: nat): set<int> {
    set member | member in pins && 1 <= pins[member] <= count :: pins[member]
  }

  /** The numbers of the ports that are neither the uplink nor pinned, in list order. */
  function FreeIndexes(ports: seq<Port>, uplink: int, pinned: set<int>): seq<int>
    decreases |ports|
  {
    if ports == [] then []
    else
      var last := ports[|ports| - 1].index;
      FreeIndexes(ports[..|ports| - 1], uplink, pinned) + if last != uplink && last !in pinned then [last] else []
  }

  function PlanOf(s: Snapshot, uplink: int, ports: seq<Port>): Plan {
    Plan(uplink, |ports|, FreeIndexes(ports, uplink, PinnedPorts(s.pins, |ports|)))
  }

  /** The plan of a list numbered from one. */
  function PlanFor(s: Snapshot, uplink: int, count: nat): Plan {
    Plan(uplink, count, FreePorts(count, uplink, PinnedPorts(s.pins, count)))
  }

  lemma {:induction false} FreeByNumber(ports: seq<Port>, uplink: int, pinned: set<int>)
    requires Numbered(ports)
    ensures FreeIndexes(ports, uplink, pinned) == FreePorts(|ports|, uplink, pinned)
    decreases |ports|
  {
    if ports != [] {
      FreeByNumber(ports[..|ports| - 1], uplink, pinned);
    }
  }

  lemma PlanByNumber(s: Snapshot, uplink: int, ports: seq<Port>)
    requires Numbered(ports)
    ensures PlanOf(s, uplink, ports) == PlanFor(s, uplink, |ports|)
  {
    hide PinnedPorts;
    FreeByNumber(ports, uplink, PinnedPorts(s.pins, |ports|));
  }

  lemma {:induction false} FreeBySameNumbers(a: seq<Port>, b: seq<Port>, uplink: int, pinned: set<int>)
    requires |a| == |b| && forall i :: 0 <= i < |a| ==> a[i].index == b[i].index
    ensures FreeIndexes(a, uplink, pinned) == FreeIndexes(b, uplink, pinned)
    decreases |a|
  {
    if a != [] {
      FreeBySameNumbers(a[..|a| - 1], b[..|b| - 1], uplink, pinned);
    }
  }

  lemma {:induction false} FreePortsAre(n: nat, uplink: int, pinned: set<int>)
    ensures forall f :: f in FreePorts(n, uplink, pinned) <==> 1 <= f <= n && f != uplink && f !in pinned
    ensures forall i, j :: 0 <= i < j < |FreePorts(n, uplink, pinned)| ==> FreePorts(n, uplink, pinned)[i] < FreePorts(n, uplink, pinned)[j]
  {
    if n != 0 {
      FreePortsAre(n - 1, uplink, pinned);
      var init := FreePorts(n - 1, uplink, pinned);
      forall i | 0 <= i < |init|
        ensures init[i] < n
      {
        assert init[i] in init;
      }
    }
  }

  /** The ports once the members' tasks are carried out. */
  function WithDevices(ports: seq<Port>, s: Snapshot, uplink: int, tasks: seq<Task>): (out: seq<Port>)
    requires 1 <= uplink <= |ports|
    ensures |out| == |ports|
  {
    var plan := PlanOf(s, uplink, ports);
    Darkened(Filled(Emptied(ports), plan, tasks), Taken(plan, tasks))
  }

  // ---- the whole step ----

  function FirstMarked(ports: seq<Port>): int {
    if ports == [] then 1 else if ports[0].uplink then ports[0].index else FirstMarked(ports[1..])
  }

  function UplinkIndex(ports: seq<Port>, s: Snapshot): int {
    if 1 <= s.uplinkPort <= |ports| then s.uplinkPort else FirstMarked(ports)
  }

  function UplinkShown(p: Port, s: Snapshot): Port {
    var up := s.up == Some(true);
    Counting(p.(up := up, speed := if up then s.stats.speed else 0), s.stats)
  }

  lemma {:induction false} FirstMarkedIsAPort(ports: seq<Port>, n: nat)
    requires forall i :: 0 <= i < |ports| ==> ports[i].index == n + i + 1
    ensures FirstMarked(ports) == 1 || n + 1 <= FirstMarked(ports) <= n + |ports|
  {
    if ports != [] && !ports[0].uplink {
      FirstMarkedIsAPort(ports[1..], n + 1);
    }
  }

  lemma UplinkIndexIsAPort(ports: seq<Port>, s: Snapshot)
    requires Numbered(ports) && ports != []
    ensures 1 <= UplinkIndex(ports, s) <= |ports|
  {
    hide FirstMarked;
    FirstMarkedIsAPort(ports, 0);
  }

  function Applied(ports: seq<Port>, s: Snapshot, tasks: seq<Task>): (out: seq<Port>)
    requires ports != [] ==> 1 <= UplinkIndex(ports, s) <= |ports|
    ensures |out| == |ports|
  {
    if ports == [] then ports
    else
      var uplink := UplinkIndex(ports, s);
      var shown := ports[uplink - 1 := UplinkShown(ports[uplink - 1], s)];
      if s.devices != map[] then WithDevices(shown, s, uplink, tasks)
      else if s.macs != [] then shown[uplink - 1 := shown[uplink - 1].(macs := s.macs)]
      else shown
  }

  // ---- the steps in place ----

  method UplinkPortIndex(ports: array<Port>) returns (index: int)
    ensures index == FirstMarked(ports[..])
  {
    for i := 0 to ports.Length
      invariant FirstMarked(ports[..]) == FirstMarked(ports[i..])
    {
      if ports[i].uplink {
        return ports[i].index;
      }
      assert ports[i..][1..] == ports[i + 1..];
    }
    return 1;
  }

  method ValidPinnedPortSet(pins: map<string, int>, count: nat) returns (out: set<int>)
    ensures out == PinnedPorts(pins, count)
  {
    var left := pins.Keys;
    out := {};
    while left != {}
      invariant left <= pins.Keys
      invariant out == set member | member in pins.Keys - left && 1 <= pins[member] <= count :: pins[member]
      decreases |left|
    {
      var member :| member in left;
      if 1 <= pins[member] <= count {
        out := out + {pins[member]};
      }
      left := left - {member};
    }
  }

  method AccessIndexes(ports: array<Port>, uplink: int, pinned: set<int>) returns (free: seq<int>)
    ensures free == FreeIndexes(ports[..], uplink, pinned)
  {
    free := [];
    for i := 0 to ports.Length
      invariant free == FreeIndexes(ports[..i], uplink, pinned)
    {
      assert ports[..i + 1][..i] == ports[..i];
      if ports[i].index != uplink && ports[i].index !in pinned {
        free := free + [ports[i].index];
      }
    }
    assert ports[..ports.Length] == ports[..];
  }

  method ClearPort(ports: array<Port>, i: nat)
    requires i < ports.Length
    modifies ports
    ensures ports[..] == old(ports[..])[i := Cleared(old(ports[i]))]
  {
    ports[i] := ports[i].(up := false, speed := 0, macs := [], countersSet := false, counters := NO_COUNTERS);
  }

  method ApplyMemberPortObservation(ports: array<Port>, i: nat, s: Snapshot, member: string) returns (ghost seen: Option<Observation>)
    requires i < ports.Length
    modifies ports
    ensures MayFind(s.memberPorts, member, seen)
    ensures ports[..] == old(ports[..])[i := Observed(old(ports[i]), seen)]
    ensures ports[i].macs == []
  {
    hide MayFind, Cleared, Described, Linked, HasCounters;
    ghost var before := ports[i];
    ClearPort(ports, i);
    var found := FindByName(s.memberPorts, member);
    seen := found;
    if found.Some? {
      var o := found.value;
      var p := Linked(Described(ports[i], o), o);
      if HasCounters(o.stats) {
        p := p.(counters := o.stats.counters, countersSet := true);
      }
      ports[i] := p;
    }
    ObservedHoldsNoMACs(before, seen);
  }

  /** A free number outside the list, which a list numbered from one has none of, means the uplink. */
  method Choose(s: Snapshot, plan: Plan, name: string, next: nat) returns (port: int, taken: nat)
    requires Sensible(plan)
    ensures 1 <= port <= plan.count
    ensures forall seen, macs ::
              var task := Claim(name, seen, macs, PinOf(s, name));
              port == PortFor(plan, task, next)
              && taken == if Unpinned(plan, task) && next < |plan.free| then next + 1 else next
  {
    port, taken := plan.uplink, next;
    var pin := PinOf(s, name);
    if 1 <= pin <= plan.count {
      port := pin;
    } else if next < |plan.free| {
      port, taken := plan.free[next], next + 1;
    }
    if port < 1 || port > plan.count {
      port := plan.uplink;
    }
  }

  /** One turn of the assignment: what a member asks for is carried out at once. */
  method PlaceMember(ports: array<Port>, s: Snapshot, remote: set<string>, macKey: string -> string, plan: Plan, name: string, next: nat)
    returns (ghost task: Option<Task>, port: int, taken: nat)
    requires Sensible(plan) && plan.count == ports.Length && name in s.devices
    modifies ports
    ensures MayAsk(s, remote, macKey, name, task)
    ensures task.None? ==> ports[..] == old(ports[..]) && taken == next && port == plan.uplink
    ensures task.Some? ==> port == PortFor(plan, task.value, next) && 1 <= port <= plan.count
    ensures task.Some? ==> taken == if Unpinned(plan, task.value) && next < |plan.free| then next + 1 else next
    ensures task.Some? ==> ports[..] == old(ports[..])[port - 1 := Holding(old(ports[..])[port - 1], plan, task.value, port)]
  {
    hide MayBe, MayFind, LocalEntries, PinOf, Observed, CarriesUplink;
    task, port, taken := None, plan.uplink, next;
    var macs := s.devices[name];
    if macs == [] {
      return;
    }
    var role := MemberRole(s, name);
    if role == BridgeRole || role == Ignored {
      ghost var seen := SomethingIsFound(s.memberPorts, name);
      assert task == Asked(s, remote, macKey, name, role, seen);
      return;
    }
    if CarriesUplink(s, name, role) {
      ghost var seen := ApplyMemberPortObservation(ports, port - 1, s, name);
      if name != "" {
        ports[port - 1] := ports[port - 1].(name := name);
      }
      task := Some(Report(name, seen));
      assert task == Asked(s, remote, macKey, name, role, seen);
      return;
    }
    macs := FilterRemoteMACEntries(macs, remote, macKey);
    if macs == [] {
      ghost var seen := SomethingIsFound(s.memberPorts, name);
      assert task == Asked(s, remote, macKey, name, role, seen);
      return;
    }
    port, taken := Choose(s, plan, name, next);
    ghost var seen := ApplyMemberPortObservation(ports, port - 1, s, name);
    assert ports[port - 1].macs + macs == macs;
    ports[port - 1] := ports[port - 1].(macs := ports[port - 1].macs + macs);
    if name != "" && port != plan.uplink {
      ports[port - 1] := ports[port - 1].(name := name);
    }
    task := Some(Claim(name, seen, macs, PinOf(s, name)));
    assert task == Asked(s, remote, macKey, name, role, seen);
  }

  lemma SlotsAppended(plan: Plan, tasks: seq<Task>, task: Task)
    ensures forall k :: 0 <= k < |tasks| ==> Slot(plan, tasks + [task], k) == Slot(plan, tasks, k)
    ensures Slot(plan, tasks + [task], |tasks|) == PortFor(plan, task, Used(plan, tasks))
    ensures Used(plan, tasks + [task])
         == if Unpinned(plan, task) && Used(plan, tasks) < |plan.free| then Used(plan, tasks) + 1 else Used(plan, tasks)
  {
    hide PortFor, Unpinned;
    var all := tasks + [task];
    assert all[..|tasks|] == tasks;
    assert forall k :: 0 <= k < |tasks| ==> all[..k] == tasks[..k] && all[k] == tasks[k];
  }

  lemma TakenAppended(plan: Plan, tasks: seq<Task>, task: Task)
    ensures Taken(plan, tasks + [task]) == Taken(plan, tasks) + {PortFor(plan, task, Used(plan, tasks))}
  {
    hide PortFor, Unpinned, Used, Slot;
    var all := tasks + [task];
    SlotsAppended(plan, tasks, task);
    forall p
      ensures p in Taken(plan, all) <==> p in Taken(plan, tasks) + {Slot(plan, all, |tasks|)}
    {
      if p in Taken(plan, tasks) && p != plan.uplink {
        var k :| 0 <= k < |tasks| && Slot(plan, tasks, k) == p;
        assert Slot(plan, all, k) == p;
      }
    }
  }

  lemma FilledAppended(ports: seq<Port>, plan: Plan, tasks: seq<Task>, task: Task)
    requires Sensible(plan) && |ports| == plan.count
    ensures var slot, before := PortFor(plan, task, Used(plan, tasks)), Filled(ports, plan, tasks);
            && 1 <= slot <= |ports|
            && Filled(ports, plan, tasks + [task]) == before[slot - 1 := Holding(before[slot - 1], plan, task, slot)]
  {
    hide Holding, PortFor, Unpinned, Used, Slot;
    var all := tasks + [task];
    SlotsAppended(plan, tasks, task);
    SlotIsAPort(plan, all, |tasks|);
    assert all[..|all| - 1] == tasks;
  }

  lemma AskedNext(s: Snapshot, remote: set<string>, macKey: string -> string, names: seq<string>, i: nat,
                  tasks: seq<Task>, task: Option<Task>)
    requires i < |names| && forall name <- names :: name in s.devices
    requires MayAskInOrder(s, remote, macKey, names[..i], tasks) && MayAsk(s, remote, macKey, names[i], task)
    ensures MayAskInOrder(s, remote, macKey, names[..i + 1], if task.Some? then tasks + [task.value] else tasks)
  {
    hide MayAsk;
    var some := names[..i + 1];
    assert some[..i] == names[..i] && some[i] == names[i];
    var all := if task.Some? then tasks + [task.value] else tasks;
    assert task.Some? ==> all[..|all| - 1] == tasks;
  }

  method EmptyMACs(ports: array<Port>)
    modifies ports
    ensures ports[..] == Emptied(old(ports[..]))
  {
    for i := 0 to ports.Length
      invariant forall j :: 0 <= j < i ==> ports[j] == old(ports[j]).(macs := [])
      invariant forall j :: i <= j < ports.Length ==> ports[j] == old(ports[j])
    {
      ports[i] := ports[i].(macs := []);
    }
  }

  method ClearUnused(ports: array<Port>, used: set<int>)
    modifies ports
    ensures ports[..] == Darkened(old(ports[..]), used)
  {
    hide Cleared;
    for i := 0 to ports.Length
      invariant forall j :: 0 <= j < i ==> ports[j] == if old(ports[j]).index in used then old(ports[j]) else Cleared(old(ports[j]))
      invariant forall j :: i <= j < ports.Length ==> ports[j] == old(ports[j])
    {
      if ports[i].index !in used {
        ClearPort(ports, i);
      }
    }
  }

  /** What no step may change about a port. */
  datatype Place = Place(index: int, uplink: bool, profileUplink: bool)

  ghost function PlaceOf(p: Port): Place {
    Place(p.index, p.uplink, p.profileUplink)
  }

  lemma StepsKeepPlace(p: Port, o: Observation, stats: Stats)
    ensures PlaceOf(Cleared(p)) == PlaceOf(p) && PlaceOf(Counting(p, stats)) == PlaceOf(p)
    ensures PlaceOf(Described(p, o)) == PlaceOf(p) && PlaceOf(Linked(p, o)) == PlaceOf(p)
  {
    hide TrimSpace, Kept, HasCounters;
  }

  lemma ObservedKeepsPlace(p: Port, seen: Option<Observation>)
    ensures PlaceOf(Observed(p, seen)) == PlaceOf(p) && PlaceOf(Cleared(p)) == PlaceOf(p)
  {
    hide Cleared, Counting, Described, Linked, PlaceOf;
    var o := seen.GetOr(Observation("", None, 0, "", Stats(NO_COUNTERS, false, 0)));
    StepsKeepPlace(p, o, o.stats);
    StepsKeepPlace(Cleared(p), o, o.stats);
    StepsKeepPlace(Described(Cleared(p), o), o, o.stats);
    StepsKeepPlace(Linked(Described(Cleared(p), o), o), o, o.stats);
  }

  lemma PlacingKeepsPlace(p: Port, plan: Plan, task: Task, slot: int)
    ensures PlaceOf(Holding(p, plan, task, slot)) == PlaceOf(p)
  {
    hide Observed;
    ObservedKeepsPlace(p, task.seen);
  }

  lemma {:induction false} FillingKeepsShape(ports: seq<Port>, plan: Plan, tasks: seq<Task>)
    requires Sensible(plan) && |ports| == plan.count
    ensures SameShape(ports, Filled(ports, plan, tasks))
    decreases |tasks|
  {
    hide Holding, PortFor, Used;
    if tasks != [] {
      var init, slot := Filled(ports, plan, tasks[..|tasks| - 1]), Slot(plan, tasks, |tasks| - 1);
      FillingKeepsShape(ports, plan, tasks[..|tasks| - 1]);
      SlotIsAPort(plan, tasks, |tasks| - 1);
      PlacingKeepsPlace(init[slot - 1], plan, tasks[|tasks| - 1], slot);
    }
  }

  method PlaceMembers(ports: array<Port>, s: Snapshot, remote: set<string>, macKey: string -> string, plan: Plan, names: seq<string>)
    returns (used: set<int>, ghost tasks: seq<Task>)
    requires Sensible(plan) && plan.count == ports.Length && forall name <- names :: name in s.devices
    modifies ports
    ensures MayAskInOrder(s, remote, macKey, names, tasks)
    ensures ports[..] == Filled(old(ports[..]), plan, tasks) && used == Taken(plan, tasks)
  {
    hide MayAskInOrder, MayAsk, Holding, PortFor, Used, Taken, Unpinned, Filled, Sensible;
    ghost var start := ports[..];
    used, tasks := {plan.uplink}, [];
    var next := 0;
    NothingYet(start, s, remote, macKey, plan);
    assert names[..0] == [];
    for i := 0 to |names|
      invariant MayAskInOrder(s, remote, macKey, names[..i], tasks)
      invariant ports[..] == Filled(start, plan, tasks) && used == Taken(plan, tasks) && next == Used(plan, tasks)
    {
      ghost var task;
      var port;
      assert names[i] in names;
      task, port, next := PlaceMember(ports, s, remote, macKey, plan, names[i], next);
      AskedNext(s, remote, macKey, names, i, tasks, task);
      used := used + {port};
      if task.Some? {
        SlotsAppended(plan, tasks, task.value);
        TakenAppended(plan, tasks, task.value);
        FilledAppended(start, plan, tasks, task.value);
        tasks := tasks + [task.value];
      } else {
        UplinkIsTaken(plan, tasks);
      }
    }
    assert names[..|names|] == names;
  }

  lemma NothingYet(ports: seq<Port>, s: Snapshot, remote: set<string>, macKey: string -> string, plan: Plan)
    requires Sensible(plan) && |ports| == plan.count
    ensures Taken(plan, []) == {plan.uplink} && Used(plan, []) == 0 && Filled(ports, plan, []) == ports
    ensures MayAskInOrder(s, remote, macKey, [], [])
  {
  }

  method ApplyDeviceMACs(ports: array<Port>, s: Snapshot, macKey: string -> string, uplink: int)
    returns (ghost remote: set<string>, ghost tasks: seq<Task>)
    requires 1 <= uplink <= ports.Length
    modifies ports
    ensures MayAskFor(s, macKey, remote, tasks)
    ensures ports[..] == WithDevices(old(ports[..]), s, uplink, tasks)
  {
    hide MayBeRemote, MayAskInOrder, Filled, Ordered, FreeIndexes, PinnedPorts, Taken, Darkened;
    EmptyMACs(ports);
    FreeBySameNumbers(old(ports[..]), ports[..], uplink, PinnedPorts(s.pins, ports.Length));
    var far := RemoteMACs(s, macKey);
    remote := far;
    var pinned := ValidPinnedPortSet(s.pins, ports.Length);
    var free := AccessIndexes(ports, uplink, pinned);
    var plan := Plan(uplink, ports.Length, free);
    var names := SortedDeviceNames(s.devices.Keys, s.iface, s.bridge);
    NamesAreKeys(names, s.devices.Keys);
    var used;
    used, tasks := PlaceMembers(ports, s, far, macKey, plan, names);
    ClearUnused(ports, used);
  }

  lemma UplinkIsTaken(plan: Plan, tasks: seq<Task>)
    ensures Taken(plan, tasks) + {plan.uplink} == Taken(plan, tasks)
  {
  }

  lemma NamesAreKeys(names: seq<string>, keys: set<string>)
    requires Lists(names, keys)
    ensures forall name <- names :: name in keys
  {
    forall name | name in names
      ensures name in keys
    {
      assert name in multiset(names);
    }
  }

  method ShowUplink(ports: array<Port>, i: nat, s: Snapshot)
    requires i < ports.Length
    modifies ports
    ensures ports[..] == old(ports[..])[i := UplinkShown(old(ports[i]), s)]
  {
    hide HasCounters;
    var p := ports[i].(up := s.up == Some(true), speed := s.stats.speed);
    if !p.up {
      p := p.(speed := 0);
    }
    if HasCounters(s.stats) {
      p := p.(counters := s.stats.counters, countersSet := true);
    }
    ports[i] := p;
  }

  /** The snapshot laid over a copy of the list. */
  method Apply(ports: array<Port>, s: Snapshot, macKey: string -> string)
    returns (out: array<Port>, ghost remote: set<string>, ghost tasks: seq<Task>)
    requires ports.Length != 0 ==> 1 <= UplinkIndex(ports[..], s) <= ports.Length
    ensures ports.Length == 0 || fresh(out)
    ensures s.devices != map[] && ports.Length != 0 ==> MayAskFor(s, macKey, remote, tasks)
    ensures out[..] == Applied(ports[..], s, tasks)
    ensures ports[..] == old(ports[..])
  {
    hide MayAskFor, UplinkShown, WithDevices, FirstMarked;
    remote, tasks := {}, [];
    if ports.Length == 0 {
      return ports, remote, tasks;
    }
    out := new Port[ports.Length](i requires 0 <= i < ports.Length reads ports => ports[i]);
    assert out[..] == ports[..];
    var index := s.uplinkPort;
    if index < 1 || index > out.Length {
      index := UplinkPortIndex(out);
    }
    ShowUplink(out, index - 1, s);
    assert out[..] == ports[..][index - 1 := UplinkShown(ports[index - 1], s)];
    if s.devices != map[] {
      remote, tasks := ApplyDeviceMACs(out, s, macKey, index);
    } else if s.macs != [] {
      out[index - 1] := out[index - 1].(macs := s.macs);
    }
  }
}
