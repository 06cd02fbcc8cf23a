/** Which port each member gets, from the names alone, and what that port shows. */
module Placement {
  import opened Basics
  import opened Runes
  import opened Ports
  import opened MemberOrder
  import opened Members
  import opened Observe
  import opened Assignment
  import opened Capacity

  // ---- who claims ----

  /** A member claims a port when it has a local address, some spelling of its name has no role
      or the access role, and it is not the uplink interface by name. */
  lemma ClaimantsAre(s: Snapshot, remote: set<string>, macKey: string -> string, name: string)
    ensures name in Claimants(s, remote, macKey) <==>
              && name in s.devices
              && (exists e :: e in s.devices[name] && Local(e, remote, macKey))
              && (exists role :: role in {Unknown, Access} && MayBe(s, name, role))
              && (Normal(name) == "" || Normal(name) != Normal(s.iface))
  {
    hide MayBe, Local, Normal;
    if name in s.devices {
      var entries := LocalEntries(s.devices[name], remote, macKey);
      if entries != [] {
        LocalEntriesAre(s.devices[name], remote, macKey, entries[0]);
      }
      forall e | e in s.devices[name] && Local(e, remote, macKey)
        ensures entries != []
      {
        LocalEntriesAre(s.devices[name], remote, macKey, e);
      }
      hide LocalEntries;
      forall role | MayBe(s, name, role)
        ensures role in {Unknown, Access} && (Normal(name) == "" || Normal(name) != Normal(s.iface)) <==>
                  Eligible(role) && !CarriesUplink(s, name, role)
      {
      }
    }
  }

  /** A task is a report exactly for an uplink member: one with the uplink role, or one named like
      the uplink interface and neither ignored nor the bridge. */
  lemma ReportsAreUplinks(s: Snapshot, macKey: string -> string, remote: set<string>, tasks: seq<Task>, k: nat)
    requires MayAskFor(s, macKey, remote, tasks) && k < |tasks| && tasks[k].Report?
    ensures exists role :: MayBe(s, tasks[k].name, role)
              && (role == UplinkRole
                  || (role in {Unknown, Access} && Normal(tasks[k].name) != "" && Normal(tasks[k].name) == Normal(s.iface)))
  {
    hide MayBeRemote, Lists, Ordered;
    var names :| Lists(names, s.devices.Keys) && Ordered(names, s.iface, s.bridge)
      && (forall name <- names :: name in s.devices) && MayAskInOrder(s, remote, macKey, names, tasks);
    hide MayAskInOrder;
    ReportInOrder(s, remote, macKey, names, tasks, k);
  }

  lemma {:induction false} ReportInOrder(s: Snapshot, remote: set<string>, macKey: string -> string, names: seq<string>,
                                         tasks: seq<Task>, k: nat)
    requires (forall n <- names :: n in s.devices) && MayAskInOrder(s, remote, macKey, names, tasks)
    requires k < |tasks| && tasks[k].Report?
    ensures exists role :: MayBe(s, tasks[k].name, role)
              && (role == UplinkRole
                  || (role in {Unknown, Access} && Normal(tasks[k].name) != "" && Normal(tasks[k].name) == Normal(s.iface)))
    decreases |names|
  {
    var task, rest := LastAsked(s, remote, macKey, names, tasks);
    hide MayBe, MayFind, Normal, LocalEntries, PinOf;
    if k < |rest| {
      ReportInOrder(s, remote, macKey, names[..|names| - 1], rest, k);
    } else {
      var name := names[|names| - 1];
      var role, seen :| MayBe(s, name, role) && MayFind(s.memberPorts, name, seen)
        && task == Asked(s, remote, macKey, name, role, seen);
    }
  }

  // ---- the order of the tasks ----

  lemma {:induction false} TasksOrdered(s: Snapshot, remote: set<string>, macKey: string -> string, names: seq<string>, tasks: seq<Task>)
    requires (forall n <- names :: n in s.devices) && Ordered(names, s.iface, s.bridge)
    requires MayAskInOrder(s, remote, macKey, names, tasks)
    ensures forall j, k :: 0 <= j < k < |tasks| ==> !Before(tasks[k].name, tasks[j].name, s.iface, s.bridge)
    decreases |names|
  {
    hide Before;
    if names != [] {
      var init, name := names[..|names| - 1], names[|names| - 1];
      var task, rest := LastAsked(s, remote, macKey, names, tasks);
      hide MayAsk, MayClaim, MustClaim, MayAskInOrder;
      TasksOrdered(s, remote, macKey, init, rest);
      ClaimInOrder(s, remote, macKey, init, rest, name);
      AskedClaim(s, remote, macKey, name, task);
      forall j | 0 <= j < |rest|
        ensures !Before(name, rest[j].name, s.iface, s.bridge)
      {
        assert rest[j] in rest && rest[j].name in init;
        var i :| 0 <= i < |init| && init[i] == rest[j].name;
        assert names[i] == init[i];
      }
    }
  }

  /** Members are served in the order of their names. */
  lemma ServedInOrder(s: Snapshot, macKey: string -> string, remote: set<string>, tasks: seq<Task>, j: nat, k: nat)
    requires MayAskFor(s, macKey, remote, tasks) && j < k < |tasks|
    ensures Precedes(tasks[j].name, tasks[k].name, s.iface, s.bridge) || Normal(tasks[j].name) == Normal(tasks[k].name)
  {
    hide MayBeRemote, Lists, Ordered, MayAskInOrder, Before, Precedes, Normal;
    var names :| Lists(names, s.devices.Keys) && Ordered(names, s.iface, s.bridge)
      && (forall name <- names :: name in s.devices) && MayAskInOrder(s, remote, macKey, names, tasks);
    TasksOrdered(s, remote, macKey, names, tasks);
    BeforeOrSame(tasks[j].name, tasks[k].name, s.iface, s.bridge);
  }

  lemma NamesDiffer(s: Snapshot, macKey: string -> string, remote: set<string>, tasks: seq<Task>, j: nat, k: nat)
    requires Apart(s.devices.Keys) && MayAskFor(s, macKey, remote, tasks) && j < k < |tasks|
    ensures Normal(tasks[j].name) != Normal(tasks[k].name)
  {
    hide MayAskFor, LocalEntries, PinOf, MayClaim, MustClaim, Normal;
    AskedTasksFit(s, macKey, remote, tasks);
    EveryClaimantAsksOnce(s, macKey, remote, tasks);
    assert tasks[j] in tasks && tasks[k] in tasks;
    assert ClaimFits(s, remote, macKey, tasks[j]) && ClaimFits(s, remote, macKey, tasks[k]);
  }

  /** With distinct names, who is served earlier is exactly whose name precedes. */
  lemma EarlierIff(s: Snapshot, macKey: string -> string, remote: set<string>, tasks: seq<Task>, j: nat, k: nat)
    requires NamesApart(s) && MayAskFor(s, macKey, remote, tasks) && j < |tasks| && k < |tasks|
    ensures j < k <==> Precedes(tasks[j].name, tasks[k].name, s.iface, s.bridge)
  {
    hide MayAskFor, Normal, Precedes, Apart;
    if j < k {
      NamesDiffer(s, macKey, remote, tasks, j, k);
      ServedInOrder(s, macKey, remote, tasks, j, k);
    } else if k < j {
      NamesDiffer(s, macKey, remote, tasks, k, j);
      ServedInOrder(s, macKey, remote, tasks, k, j);
      OneWay(tasks[k].name, tasks[j].name, s.iface, s.bridge);
    } else {
      OneWayHere(tasks[k].name, s.iface, s.bridge);
    }
  }

  lemma OneWay(a: string, b: string, iface: string, bridge: string)
    requires Precedes(a, b, iface, bridge)
    ensures !Precedes(b, a, iface, bridge)
  {
    hide Precedes, Before;
    BeforeIff(a, b, iface, bridge);
    BeforeIff(b, a, iface, bridge);
    NamesCompare(a, b, iface, bridge);
  }

  // ---- the port of a member ----

  ghost predicate HasPin(s: Snapshot, count: nat, name: string) {
    TrimSpace(name) in s.pins && 1 <= s.pins[TrimSpace(name)] <= count
  }

  /** The claimants without a usable pin whose names precede this one. */
  ghost function Ahead(s: Snapshot, remote: set<string>, macKey: string -> string, count: nat, name: string): set<string> {
    set m | m in Claimants(s, remote, macKey) && !HasPin(s, count, m) && Precedes(m, name, s.iface, s.bridge)
  }

  /** The ports that are neither the uplink nor anybody's pin, from the lowest up. */
  ghost predicate FreeList(s: Snapshot, uplink: int, count: nat, free: seq<int>) {
    && (forall i, j :: 0 <= i < j < |free| ==> free[i] < free[j])
    && (forall f :: f in free <==> 1 <= f <= count && f != uplink && forall m :: m in s.pins ==> s.pins[m] != f)
  }

  lemma {:induction false} IncreasingIsOne(a: seq<int>, b: seq<int>)
    requires forall i, j :: 0 <= i < j < |a| ==> a[i] < a[j]
    requires forall i, j :: 0 <= i < j < |b| ==> b[i] < b[j]
    requires forall x :: x in a <==> x in b
    ensures a == b
    decreases |a|
  {
    if a == [] {
      if b != [] { var _ := HasAnElement(b); }
    } else {
      assert a[0] in a && a[0] in b;
      assert b[0] in b && b[0] in a;
      assert a[0] == b[0];
      forall x
        ensures x in a[1..] <==> x in b[1..]
      {
        assert x in a[1..] <==> x in a && x != a[0];
        assert x in b[1..] <==> x in b && x != b[0];
      }
      IncreasingIsOne(a[1..], b[1..]);
      assert a == [a[0]] + a[1..] && b == [b[0]] + b[1..];
    }
  }

  lemma HasAnElement(a: seq<int>) returns (x: int)
    requires a != []
    ensures x in a
  {
    x := a[0];
  }

  lemma FreeListIs(s: Snapshot, uplink: int, count: nat, free: seq<int>)
    requires FreeList(s, uplink, count, free)
    ensures free == PlanFor(s, uplink, count).free
  {
    FreePortsAre(count, uplink, PinnedPorts(s.pins, count));
    IncreasingIsOne(free, PlanFor(s, uplink, count).free);
  }

  lemma ClaimsBefore(s: Snapshot, macKey: string -> string, remote: set<string>, tasks: seq<Task>, k: nat)
    requires NamesApart(s) && MayAskFor(s, macKey, remote, tasks) && k < |tasks|
    ensures Claiming(tasks[..k]) == set m | m in Claiming(tasks) && Precedes(m, tasks[k].name, s.iface, s.bridge)
  {
    hide MayAskFor, NamesApart, Precedes;
    forall j: nat | j < |tasks|
      ensures j < k <==> Precedes(tasks[j].name, tasks[k].name, s.iface, s.bridge)
    {
      EarlierIff(s, macKey, remote, tasks, j, k);
    }
    forall j | 0 <= j < k
      ensures tasks[..k][j] == tasks[j]
    {
    }
  }

  lemma AheadIs(s: Snapshot, macKey: string -> string, remote: set<string>, tasks: seq<Task>, plan: Plan, k: nat)
    requires NamesApart(s) && MayAskFor(s, macKey, remote, tasks) && k < |tasks|
    ensures Wanting(plan, tasks[..k]) == |Ahead(s, remote, macKey, plan.count, tasks[k].name)|
  {
    AskedIsRead(s, macKey, remote, tasks);
    ReadClaimsArePinned(s, remote, macKey, tasks);
    ClaimingIsClaimants(s, macKey, remote, tasks);
    ClaimsBefore(s, macKey, remote, tasks, k);
    assert forall task <- tasks[..k] :: task in tasks;
    assert Once(tasks[..k]);
    hide MayAskFor, NamesApart, Precedes, Claimants, Claiming, Read, Once;
    WantingIsACount(s, plan, tasks[..k]);
    hide Wanting;
    assert WithoutPin(s, plan.count, Claiming(tasks[..k])) == Ahead(s, remote, macKey, plan.count, tasks[k].name);
  }

  /** The port a claiming member is given. A usable pin decides; otherwise it is the n-th free
      port, where n members without a usable pin come before it in name order; and when there
      are not so many free ports it is the uplink. */
  lemma MemberGetsPort(s: Snapshot, macKey: string -> string, remote: set<string>, tasks: seq<Task>,
                       uplink: int, count: nat, free: seq<int>, name: string)
    requires NamesApart(s) && MayAskFor(s, macKey, remote, tasks) && FreeList(s, uplink, count, free)
    requires name in Claimants(s, remote, macKey)
    ensures name in Claiming(tasks)
    ensures Homes(PlanFor(s, uplink, count), tasks)[name] ==
              if HasPin(s, count, name) then s.pins[TrimSpace(name)]
              else
                var ahead := |Ahead(s, remote, macKey, count, name)|;
                if ahead < |free| then free[ahead] else uplink
  {
    var plan := PlanFor(s, uplink, count);
    FreeListIs(s, uplink, count, free);
    PlanNames(s, uplink, count);
    ClaimingIsClaimants(s, macKey, remote, tasks);
    var k := Turn(tasks, name);
    AheadIs(s, macKey, remote, tasks, plan, k);
    TurnHasPin(s, macKey, remote, tasks, name);
    hide MayAskFor, NamesApart, Claimants, Claiming, Ahead, PinOf, PlanFor;
    assert Homes(plan, tasks)[name] == Slot(plan, tasks, k);
    SlotIs(plan, tasks, k);
    hide Slot, Homes, Wanting;
    assert HasPin(s, count, name) <==> 1 <= tasks[k].pin <= count by { PinIs(s, count, name); }
    PinIs(s, count, name);
  }

  lemma PinIs(s: Snapshot, count: nat, name: string)
    ensures HasPin(s, count, name) <==> 1 <= PinOf(s, name) <= count
    ensures HasPin(s, count, name) ==> PinOf(s, name) == s.pins[TrimSpace(name)]
  {
  }

  lemma TurnHasPin(s: Snapshot, macKey: string -> string, remote: set<string>, tasks: seq<Task>, name: string)
    requires MayAskFor(s, macKey, remote, tasks) && name in Claiming(tasks)
    ensures tasks[Turn(tasks, name)].pin == PinOf(s, name)
  {
    hide MayAskFor, PinOf, LocalEntries;
    AskedIsRead(s, macKey, remote, tasks);
    ReadClaimsArePinned(s, remote, macKey, tasks);
    assert tasks[Turn(tasks, name)] in tasks;
  }

  lemma SlotIs(plan: Plan, tasks: seq<Task>, k: nat)
    requires k < |tasks| && tasks[k].Claim? && forall f <- plan.free :: 1 <= f <= plan.count
    ensures Slot(plan, tasks, k) ==
              if 1 <= tasks[k].pin <= plan.count then tasks[k].pin
              else if Wanting(plan, tasks[..k]) < |plan.free| then plan.free[Wanting(plan, tasks[..k])]
              else plan.uplink
  {
    UsedIs(plan, tasks[..k]);
    hide Used, Wanting;
    var taken := Used(plan, tasks[..k]);
    assert taken < |plan.free| ==> plan.free[taken] in plan.free;
  }

  lemma Chains(a: string, b: string, c: string, iface: string, bridge: string)
    requires Precedes(a, b, iface, bridge) && Precedes(b, c, iface, bridge)
    ensures Precedes(a, c, iface, bridge)
  {
    hide Precedes, Before, Normal;
    BeforeIff(a, b, iface, bridge);
    BeforeIff(b, c, iface, bridge);
    BeforeIff(c, a, iface, bridge);
    BeforeIff(a, c, iface, bridge);
    BeforeOrSame(a, b, iface, bridge);
    BeforeOrSame(b, c, iface, bridge);
    BeforesChain(a, b, c, iface, bridge);
  }

  lemma BeforesChain(a: string, b: string, c: string, iface: string, bridge: string)
    requires Before(a, b, iface, bridge) && Before(b, c, iface, bridge)
    ensures Before(a, c, iface, bridge)
  {
    hide SortKey, KeyBefore;
    KeysChain(SortKey(a, iface, bridge), SortKey(b, iface, bridge), SortKey(c, iface, bridge));
  }

  /** Of two members without usable pins the one whose name comes first gets the lower port, and
      it has one off the uplink whenever the other has. */
  lemma EarlierNameLowerPort(s: Snapshot, macKey: string -> string, remote: set<string>, tasks: seq<Task>,
                             uplink: int, count: nat, free: seq<int>, first: string, second: string)
    requires NamesApart(s) && MayAskFor(s, macKey, remote, tasks) && FreeList(s, uplink, count, free)
    requires {first, second} <= Claimants(s, remote, macKey) && !HasPin(s, count, first) && !HasPin(s, count, second)
    requires Precedes(first, second, s.iface, s.bridge)
    ensures first in Claiming(tasks) && second in Claiming(tasks)
    ensures var homes := Homes(PlanFor(s, uplink, count), tasks);
            homes[second] != uplink ==> homes[first] != uplink && homes[first] < homes[second]
  {
    MemberGetsPort(s, macKey, remote, tasks, uplink, count, free, first);
    MemberGetsPort(s, macKey, remote, tasks, uplink, count, free, second);
    var some, all := Ahead(s, remote, macKey, count, first), Ahead(s, remote, macKey, count, second);
    hide MayAskFor, NamesApart, Claimants, Claiming, Homes, PlanFor, HasPin;
    assert some <= all && first in all && first !in some by {
      OneWayHere(first, s.iface, s.bridge);
      forall m | m in some
        ensures m in all
      {
        Chains(m, first, second, s.iface, s.bridge);
      }
      hide Precedes;
    }
    hide Ahead;
    SmallerSet(some, all, first);
    assert forall i :: 0 <= i < |free| ==> free[i] in free;
  }

  lemma OneWayHere(a: string, iface: string, bridge: string)
    ensures !Precedes(a, a, iface, bridge)
  {
    hide Normal, KindOf, FirstNumber, Alphabetic;
  }

  lemma SmallerSet(some: set<string>, all: set<string>, x: string)
    requires some <= all && x in all && x !in some
    ensures |some| < |all|
  {
    assert all == some + (all - some) && x in all - some;
  }

  // ---- what the ports show ----

  /** The uplink port: the snapshot's choice when it is one of the ports, otherwise the port
      marked as uplink, and the first when there is no mark. */
  lemma UplinkIndexIs(ports: seq<Port>, s: Snapshot)
    ensures 1 <= s.uplinkPort <= |ports| ==> UplinkIndex(ports, s) == s.uplinkPort
    ensures !(1 <= s.uplinkPort <= |ports|) && (forall p <- ports :: !p.uplink) ==> UplinkIndex(ports, s) == 1
    ensures forall u :: !(1 <= s.uplinkPort <= |ports|) && Numbered(ports) && UplinkAt(ports, u) ==> UplinkIndex(ports, s) == u + 1
  {
    if forall p <- ports :: !p.uplink {
      NoneMarked(ports);
    }
    hide FirstMarked;
    forall u | Numbered(ports) && UplinkAt(ports, u)
      ensures FirstMarked(ports) == u + 1
    {
      MarkedAt(ports, u);
    }
  }

  lemma {:induction false} NoneMarked(ports: seq<Port>)
    requires forall p <- ports :: !p.uplink
    ensures FirstMarked(ports) == 1
  {
    if ports != [] {
      assert ports[0] in ports && forall p <- ports[1..] :: p in ports;
      NoneMarked(ports[1..]);
    }
  }

  lemma {:induction false} MarkedAt(ports: seq<Port>, u: nat)
    requires u < |ports| && ports[u].uplink && forall i :: 0 <= i < u ==> !ports[i].uplink
    ensures FirstMarked(ports) == ports[u].index
    decreases |ports|
  {
    if u > 0 {
      assert ports[1..][u - 1] == ports[u];
      MarkedAt(ports[1..], u - 1);
    }
  }

  /** The uplink port as the uplink interface was seen: its speed while it is up, and its
      counters when any was read. */
  lemma UplinkShownIs(p: Port, s: Snapshot)
    ensures var up, read := s.up == Some(true), s.stats.countersSet || s.stats.counters != NO_COUNTERS;
            UplinkShown(p, s) == p.(up := up, speed := if up then s.stats.speed else 0,
                                    counters := if read then s.stats.counters else p.counters,
                                    countersSet := p.countersSet || read)
  {
  }

  /** Without bridge members only the uplink port changes: it shows the uplink interface, and
      the addresses the snapshot lists, if any. */
  lemma WithoutMembers(ports: seq<Port>, s: Snapshot, tasks: seq<Task>)
    requires s.devices == map[] && ports != [] && 1 <= UplinkIndex(ports, s) <= |ports|
    ensures var u, out := UplinkIndex(ports, s) - 1, Applied(ports, s, tasks);
            && (forall i :: 0 <= i < |ports| && i != u ==> out[i] == ports[i])
            && out[u] == UplinkShown(ports[u], s).(macs := if s.macs == [] then ports[u].macs else s.macs)
  {
    hide UplinkIndex, UplinkShown;
    UplinkShownKeepsMACs(ports[UplinkIndex(ports, s) - 1], s);
  }

  lemma UplinkShownKeepsMACs(p: Port, s: Snapshot)
    ensures UplinkShown(p, s).macs == p.macs
  {
    hide HasCounters;
  }

  /** What was observed of a member says whether its port is up, how fast, and what it counted. */
  lemma FaceSeenIs(o: Observation)
    ensures var up, read := o.up == Some(true), o.stats.countersSet || o.stats.counters != NO_COUNTERS;
            FaceSeen(Some(o)) == Face(up, if up && o.speed > 0 then o.speed else 0,
                                      if read then o.stats.counters else NO_COUNTERS, read, [])
    ensures FaceSeen(None) == Face(false, 0, NO_COUNTERS, false, [])
  {
  }

  /** Everything about a port that no snapshot touches. */
  ghost predicate SameFixtures(p: Port, q: Port) {
    q == p.(name := q.name, iface := q.iface, media := q.media,
            up := q.up, speed := q.speed, counters := q.counters, countersSet := q.countersSet, macs := q.macs)
  }

  lemma FixturesChain(p: Port, q: Port, r: Port)
    requires SameFixtures(p, q) && SameFixtures(q, r)
    ensures SameFixtures(p, r)
  {
  }

  lemma StepsKeepFixtures(p: Port, o: Observation)
    ensures SameFixtures(p, Cleared(p)) && SameFixtures(p, Described(p, o)) && SameFixtures(p, Linked(p, o)) && SameFixtures(p, Counting(p, o.stats))
    ensures Cleared(p).name == p.name && Described(p, o).name == p.name && Linked(p, o).name == p.name && Counting(p, o.stats).name == p.name
    ensures Cleared(p).iface == p.iface && Linked(p, o).iface == p.iface && Counting(p, o.stats).iface == p.iface
    ensures Cleared(p).media == p.media && Linked(p, o).media == p.media && Counting(p, o.stats).media == p.media
    ensures Described(p, o).iface == (if TrimSpace(o.iface) == "" then p.iface else TrimSpace(o.iface))
    ensures Described(p, o).media == if TrimSpace(o.media) == "" then p.media else TrimSpace(o.media)
  {
    hide TrimSpace, HasCounters;
  }

  /** The name, interface and medium a port has after a task. */
  ghost predicate Labelled(p: Port, q: Port, task: Task, uplink: bool) {
    && SameFixtures(p, q)
    && q.name == (if task.name != "" && (task.Report? || !uplink) then task.name else p.name)
    && (task.seen.None? ==> q.iface == p.iface && q.media == p.media)
    && (task.seen.Some? ==>
          && q.iface == (if TrimSpace(task.seen.value.iface) == "" then p.iface else TrimSpace(task.seen.value.iface))
          && q.media == if TrimSpace(task.seen.value.media) == "" then p.media else TrimSpace(task.seen.value.media))
  }

  lemma ObservedKeepsFixtures(p: Port, o: Observation)
    ensures var q := Shown(Cleared(p), o);
            && SameFixtures(p, q) && q.name == p.name
            && q.iface == (if TrimSpace(o.iface) == "" then p.iface else TrimSpace(o.iface))
            && q.media == if TrimSpace(o.media) == "" then p.media else TrimSpace(o.media)
  {
    hide TrimSpace, Cleared, Described, Linked, Counting, SameFixtures;
    var p1 := Cleared(p);
    var p2 := Described(p1, o);
    var p3 := Linked(p2, o);
    var p4 := Counting(p3, o.stats);
    StepsKeepFixtures(p, o);
    StepsKeepFixtures(p1, o);
    StepsKeepFixtures(p2, o);
    StepsKeepFixtures(p3, o);
    FixturesChain(p, p1, p2);
    FixturesChain(p, p2, p3);
    FixturesChain(p, p3, p4);
  }

  /** A task names its port, unless it is a claim that ended on the uplink, and describes it by
      what was seen. */
  lemma HoldingLabels(p: Port, plan: Plan, task: Task, slot: int)
    ensures Labelled(p, Holding(p, plan, task, slot), task, slot == plan.uplink)
  {
    hide TrimSpace, Cleared, Shown;
    if task.seen.Some? {
      ObservedKeepsFixtures(p, task.seen.value);
    } else {
      StepsKeepFixtures(p, Observation("", None, 0, "", Stats(NO_COUNTERS, false, 0)));
    }
  }

  /** What a port is called after the tasks so far. */
  ghost predicate CalledAfter(p: Port, q: Port, plan: Plan, tasks: seq<Task>, port: int) {
    && SameFixtures(p, q)
    && (NobodyAt(plan, tasks, port) ==> q.name == p.name && q.iface == p.iface && q.media == p.media)
    && forall k :: LastAt(plan, tasks, port, k) ==>
         && (tasks[k].name != "" && (tasks[k].Report? || port != plan.uplink) ==> q.name == tasks[k].name)
         && (tasks[k].seen.Some? && TrimSpace(tasks[k].seen.value.iface) != "" ==> q.iface == TrimSpace(tasks[k].seen.value.iface))
         && (tasks[k].seen.Some? && TrimSpace(tasks[k].seen.value.media) != "" ==> q.media == TrimSpace(tasks[k].seen.value.media))
  }

  lemma {:induction false} FilledLabels(ports: seq<Port>, plan: Plan, tasks: seq<Task>, i: nat)
    requires Sensible(plan) && |ports| == plan.count && i < |ports|
    ensures CalledAfter(ports[i], Filled(ports, plan, tasks)[i], plan, tasks, i + 1)
    decreases |tasks|
  {
    hide Holding, PortFor, Slot, TrimSpace, SameFixtures;
    if tasks == [] {
      assert SameFixtures(ports[i], ports[i]) by { Itself(ports[i]); }
    } else {
      var n := |tasks| - 1;
      var init, slot := Filled(ports, plan, tasks[..n]), Slot(plan, tasks, n);
      FilledLabels(ports, plan, tasks[..n], i);
      SlotIsAPort(plan, tasks, n);
      HoldingLabels(init[slot - 1], plan, tasks[n], slot);
      forall k | 0 <= k < n
        ensures Slot(plan, tasks[..n], k) == Slot(plan, tasks, k)
      {
        SlotsOfPrefix(plan, tasks, n, k);
      }
      var after := Filled(ports, plan, tasks)[i];
      if slot == i + 1 {
        FixturesChain(ports[i], init[i], after);
        assert !NobodyAt(plan, tasks, i + 1);
      } else {
        assert after == init[i];
        var port := i + 1;
        forall k | LastAt(plan, tasks, port, k)
          ensures LastAt(plan, tasks[..n], port, k)
        {
        }
      }
    }
  }

  lemma Itself(p: Port)
    ensures SameFixtures(p, p)
  {
  }

  /** After a snapshot is laid over the ports, a port is called after the last member put there
      and keeps everything a snapshot does not speak of; a port nobody was put on keeps its
      name, interface and medium as well. */
  lemma PortIsCalled(ports: seq<Port>, s: Snapshot, tasks: seq<Task>, i: nat)
    requires Numbered(ports) && i < |ports| && s.devices != map[]
    ensures 1 <= UplinkIndex(ports, s) <= |ports|
    ensures CalledAfter(ports[i], Applied(ports, s, tasks)[i], PlanFor(s, UplinkIndex(ports, s), |ports|), tasks, i + 1)
  {
    UplinkIndexIsAPort(ports, s);
    hide UplinkIndex, UplinkShown, PlanFor, Cleared, Applied, Filled, NobodyAt, LastAt, TrimSpace, SameFixtures;
    var uplink := UplinkIndex(ports, s);
    var plan := PlanFor(s, uplink, |ports|);
    PlanNames(s, uplink, |ports|);
    AppliedAt(ports, s, tasks, i);
    var shown := ports[uplink - 1 := UplinkShown(ports[uplink - 1], s)];
    FilledLabels(Emptied(shown), plan, tasks, i);
    StartIsCalled(ports[i], s);
    StillCalled(ports[i], Emptied(shown)[i], Filled(Emptied(shown), plan, tasks)[i], plan, tasks, i + 1);
    hide CalledAfter;
  }

  lemma StillCalled(first: Port, p: Port, q: Port, plan: Plan, tasks: seq<Task>, port: int)
    requires SameFixtures(first, p) && p.name == first.name && p.iface == first.iface && p.media == first.media
    requires CalledAfter(p, q, plan, tasks, port)
    ensures CalledAfter(first, q, plan, tasks, port) && CalledAfter(first, Cleared(q), plan, tasks, port)
  {
    hide NobodyAt, LastAt, SameFixtures, Cleared;
    FixturesChain(first, p, q);
    StepsKeepFixtures(q, Observation("", None, 0, "", Stats(NO_COUNTERS, false, 0)));
    FixturesChain(first, q, Cleared(q));
  }

  lemma StartIsCalled(p: Port, s: Snapshot)
    ensures SameFixtures(p, p.(macs := [])) && SameFixtures(p, UplinkShown(p, s).(macs := []))
    ensures UplinkShown(p, s).name == p.name && UplinkShown(p, s).iface == p.iface && UplinkShown(p, s).media == p.media
  {
    hide HasCounters;
  }

  // ---- remote addresses ----

  /** The addresses kept off the access ports: the ones the caller marked or, when none is marked,
      those learned on members that carry the uplink, by role or by name. */
  lemma RemoteAddressesAre(s: Snapshot, macKey: string -> string, remote: set<string>, key: string)
    requires Apart(s.roles.Keys) && MayBeRemote(s, macKey, remote)
    ensures key in remote <==>
              key != "" &&
              if exists v :: v in s.remote && s.remote[v] && macKey(v) != "" then
                exists v :: v in s.remote && s.remote[v] && macKey(v) == key
              else
                exists d, e, role :: LearnedOnUplink(s, macKey, d, e, role, key)
  {
    hide MayBe, Normal, Apart;
    if v :| v in s.remote && s.remote[v] && macKey(v) != "" {
      assert macKey(v) in Marked(s, macKey);
    } else {
      assert Marked(s, macKey) == {};
      var members :| MayBeUplinks(s, members) && remote == KeysBehind(s, members, macKey);
      if d, e, role :| LearnedOnUplink(s, macKey, d, e, role, key) {
        var again :| MayBe(s, d, again) && (d in members) == CarriesUplink(s, d, again);
        RoleIsOne(s, d, role, again);
        assert d in members;
        assert key != "" ==> key in KeysBehind(s, members, macKey);
      }
      if key in remote {
        var d, e :| d in members && d in s.devices && e in s.devices[d] && macKey(e.mac) != "" && macKey(e.mac) == key;
        var role :| MayBe(s, d, role) && (d in members) == CarriesUplink(s, d, role);
        assert LearnedOnUplink(s, macKey, d, e, role, key);
      }
    }
  }

  /** An address learned on a member that carries the uplink, by its role or by its name. */
  ghost predicate LearnedOnUplink(s: Snapshot, macKey: string -> string, d: string, e: MacEntry, role: Role, key: string) {
    && d in s.devices && e in s.devices[d] && macKey(e.mac) == key && MayBe(s, d, role)
    && (role == UplinkRole || (Normal(d) != "" && Normal(d) == Normal(s.iface)))
  }

  // ---- what was seen of a member ----

  /** A lookup by name: an entry under the trimmed name itself decides; otherwise, with distinct keys,
      the one entry whose key differs in case and outer blanks only. */
  lemma FindMeans<V>(m: map<string, V>, name: string, r: Option<V>, v: V)
    requires MayFind(m, name, r)
    ensures TrimSpace(name) in m ==> r == Some(m[TrimSpace(name)])
    ensures Apart(m.Keys) ==> (r == Some(v) <==> exists key :: key in m && Normal(key) == Normal(name) && m[key] == v)
  {
    NormalTwice(name);
    hide Normal, TrimSpace;
  }

  /** Every task carries what was seen of its member. */
  lemma TasksAreSeen(s: Snapshot, macKey: string -> string, remote: set<string>, tasks: seq<Task>, k: nat)
    requires MayAskFor(s, macKey, remote, tasks) && k < |tasks|
    ensures MayFind(s.memberPorts, tasks[k].name, tasks[k].seen)
  {
    hide MayBeRemote, Lists, Ordered;
    var names :| Lists(names, s.devices.Keys) && Ordered(names, s.iface, s.bridge)
      && (forall name <- names :: name in s.devices) && MayAskInOrder(s, remote, macKey, names, tasks);
    hide MayAskInOrder;
    SeenInOrder(s, remote, macKey, names, tasks, k);
  }

  lemma {:induction false} SeenInOrder(s: Snapshot, remote: set<string>, macKey: string -> string, names: seq<string>,
                                       tasks: seq<Task>, k: nat)
    requires (forall n <- names :: n in s.devices) && MayAskInOrder(s, remote, macKey, names, tasks) && k < |tasks|
    ensures MayFind(s.memberPorts, tasks[k].name, tasks[k].seen)
    decreases |names|
  {
    var task, rest := LastAsked(s, remote, macKey, names, tasks);
    hide MayBe, MayFind, Normal, LocalEntries, PinOf, CarriesUplink;
    if k < |rest| {
      SeenInOrder(s, remote, macKey, names[..|names| - 1], rest, k);
    }
  }
}
