/** The represented switch ports: how a profile's list is built, and the steps that edit
    it in place without disturbing its numbering or its single uplink. */
module Ports {
  import opened Basics
  import opened Runes

  // ---- entities ----

  datatype MacEntry = MacEntry(
    mac: string, hostname: string, ip: string, age: int, uptime: int, vlan: int, fixed: bool, kind: string)

  datatype Source = ConfigUplink | ConfigPort | Lldp | OtherSource(name: string)

  datatype Neighbor = Neighbor(
    mac: string, hostname: string, ip: string, deviceType: string, vlan: int, age: int, uptime: int,
    remotePort: int, remotePortID: string, source: Source, fixed: bool)

  datatype Counters = Counters(
    rxBytes: int, txBytes: int, rxPackets: int, txPackets: int, rxErrors: int, txErrors: int)

  const NO_COUNTERS := Counters(0, 0, 0, 0, 0, 0)

  /** Text metadata that is only ever overridden and shown. */
  datatype Labels = Labels(
    mac: string, ip: string, netmask: string, portConfID: string, networkConfID: string,
    nativeNetworkConfID: string, networkName: string)

  const NO_LABELS := Labels("", "", "", "", "", "", "")

  datatype Wan = Wan(uptimePercent: Option<real>, latencyMS: int, downtimeSeconds: int, connected: Option<bool>)

  const NO_WAN := Wan(None, 0, 0, None)

  datatype Rates = Rates(rx: int, tx: int)

  datatype Port = Port(
    index: int, name: string, iface: string, labels: Labels, ipv6: seq<string>,
    role: string, profileRole: string, networkGroup: string, vlan: int, wan: Wan,
    media: string, uplink: bool, profileUplink: bool, disabled: bool, up: bool, speed: int,
    counters: Counters, countersSet: bool, rates: Option<Rates>,
    macs: seq<MacEntry>, neighbors: seq<Neighbor>)

  // ---- the shape every list keeps ----

  ghost predicate UplinkAt(ports: seq<Port>, u: int) {
    0 <= u < |ports| && forall i :: 0 <= i < |ports| ==> (ports[i].uplink <==> i == u)
  }

  /** Numbered from one in order, with exactly one uplink. */
  ghost predicate WellFormed(ports: seq<Port>) {
    && (forall i :: 0 <= i < |ports| ==> ports[i].index == i + 1)
    && exists u :: UplinkAt(ports, u)
  }

  /** Same length, same numbers, same uplink marks. */
  ghost predicate SameShape(before: seq<Port>, after: seq<Port>) {
    |after| == |before| &&
    forall i :: 0 <= i < |before| ==>
      after[i].index == before[i].index && after[i].uplink == before[i].uplink && after[i].profileUplink == before[i].profileUplink
  }

  lemma SameShapeKeepsWellFormed(before: seq<Port>, after: seq<Port>)
    requires WellFormed(before) && SameShape(before, after)
    ensures WellFormed(after) && forall u :: UplinkAt(before, u) ==> UplinkAt(after, u)
  {
    var u :| UplinkAt(before, u);
    assert UplinkAt(after, u);
  }

  // ---- building ----

  datatype Group = Group(count: int, speed: int, media: string, uplink: bool)

  datatype Layout = Layout(
    speed: int, uplinkSpeed: int, media: string, uplinkMedia: string, uplinkPort: int,
    groups: seq<Group>, names: seq<string>, roles: seq<string>, networkGroups: seq<string>)

  function MediaForSpeed(speed: int): string {
    if speed >= 10000 then "SFP+" else "GE"
  }

  function NormalLayout(l: Layout): Layout {
    var speed := if l.speed <= 0 then 1000 else l.speed;
    var uplinkSpeed := if l.uplinkSpeed <= 0 then speed else l.uplinkSpeed;
    l.(speed := speed, uplinkSpeed := uplinkSpeed,
       media := if l.media == "" then MediaForSpeed(speed) else l.media,
       uplinkMedia := if l.uplinkMedia == "" then MediaForSpeed(uplinkSpeed) else l.uplinkMedia)
  }

  function Itoa(n: nat): string {
    (if n < 10 then "" else Itoa(n / 10)) + [(n % 10 + '0' as int) as char]
  }

  function OneBased(index: int, values: seq<string>): string {
    if index < 1 || index > |values| then "" else TrimSpace(values[index - 1])
  }

  function PortName(index: nat, names: seq<string>): string {
    if OneBased(index, names) != "" then OneBased(index, names) else "Port " + Itoa(index)
  }

  function GeneratedPort(l: Layout, index: nat, speed: int, media: string, uplink: bool, profileUplink: bool): Port {
    var role := Normal(OneBased(index, l.roles));
    Port(index, PortName(index, l.names), "", NO_LABELS, [], role, role, TrimSpace(OneBased(index, l.networkGroups)), 0, NO_WAN,
         media, uplink, profileUplink, false, true, speed, NO_COUNTERS, false, None, [], [])
  }

  /** The group each port of a grouped layout belongs to. */
  function Expand(groups: seq<Group>): seq<Group> {
    if groups == [] then [] else Copies(groups[0]) + Expand(groups[1..])
  }

  function Copies(g: Group): seq<Group> {
    seq(if g.count < 0 then 0 else g.count, _ => g)
  }

  /** Where the first uplink group starts, counting from one; zero when no group is one. */
  function GroupUplink(groups: seq<Group>): int {
    if groups == [] then 0
    else if groups[0].uplink then 1
    else
      var rest := GroupUplink(groups[1..]);
      if rest == 0 then 0 else |Copies(groups[0])| + rest
  }

  /** Whether the groups describe exactly the wanted number of ports. */
  predicate Grouped(count: int, groups: seq<Group>) {
    groups != [] && (forall g <- groups :: g.count >= 1) && |Expand(groups)| == count
  }

  function GroupPort(l: Layout, g: Group, index: nat, uplinkIndex: int): Port {
    var speed := if g.speed <= 0 then l.speed else g.speed;
    var media := if g.media == "" then MediaForSpeed(speed) else g.media;
    if index == uplinkIndex then GeneratedPort(l, index, l.uplinkSpeed, l.uplinkMedia, true, g.uplink)
    else GeneratedPort(l, index, speed, media, false, g.uplink)
  }

  function PlainPort(l: Layout, index: nat): Port {
    if index == 1 then GeneratedPort(l, 1, l.uplinkSpeed, l.uplinkMedia, true, true)
    else GeneratedPort(l, index, l.speed, l.media, false, false)
  }

  function FirstUplink(l: Layout): int {
    if GroupUplink(l.groups) == 0 then 1 else GroupUplink(l.groups)
  }

  /** The list before an explicit uplink choice. */
  function Generated(count: int, l: Layout): seq<Port>
    requires count >= 1
  {
    if Grouped(count, l.groups) then
      seq(count, i requires 0 <= i < |Expand(l.groups)| => GroupPort(l, Expand(l.groups)[i], i + 1, FirstUplink(l)))
    else seq(count, i requires 0 <= i => PlainPort(l, i + 1))
  }

  function WithUplink(ports: seq<Port>, uplinkPort: int): seq<Port> {
    if uplinkPort <= 0 || uplinkPort > |ports| then ports
    else seq(|ports|, i requires 0 <= i < |ports| => ports[i].(uplink := i == uplinkPort - 1))
  }

  function SwitchPorts(count: int, layout: Layout): seq<Port> {
    WithUplink(Generated(if count < 1 then 1 else count, NormalLayout(layout)), layout.uplinkPort)
  }

  lemma {:induction false} ExpandSplits(before: seq<Group>, after: seq<Group>)
    ensures Expand(before + after) == Expand(before) + Expand(after)
    decreases |before|
  {
    if before == [] {
      assert before + after == after;
    } else {
      assert (before + after)[1..] == before[1..] + after;
      ExpandSplits(before[1..], after);
    }
  }

  lemma {:induction false} GroupUplinkSplits(before: seq<Group>, g: Group)
    requires forall x <- before :: x.count >= 1
    ensures GroupUplink(before + [g])
         == if GroupUplink(before) != 0 then GroupUplink(before) else if g.uplink then |Expand(before)| + 1 else 0
    ensures 0 <= GroupUplink(before) <= |Expand(before)|
    decreases |before|
  {
    if before == [] {
      assert before + [g] == [g];
    } else {
      assert (before + [g])[1..] == before[1..] + [g];
      GroupUplinkSplits(before[1..], g);
    }
  }

  /** The number of ports and the first uplink port the groups describe, unless one is empty. */
  method MeasureGroups(groups: seq<Group>) returns (ok: bool, total: int, uplinkIndex: int)
    ensures ok <==> forall g <- groups :: g.count >= 1
    ensures ok ==> total == |Expand(groups)| && uplinkIndex == GroupUplink(groups)
  {
    total, uplinkIndex := 0, 0;
    for k := 0 to |groups|
      invariant total == |Expand(groups[..k])| && uplinkIndex == GroupUplink(groups[..k])
      invariant forall g <- groups[..k] :: g.count >= 1
    {
      var group := groups[k];
      if group.count < 1 {
        assert group in groups;
        return false, 0, 0;
      }
      assert groups[..k + 1] == groups[..k] + [group];
      ExpandSplits(groups[..k], [group]);
      GroupUplinkSplits(groups[..k], group);
      assert Expand([group]) == Copies(group);
      if group.uplink && uplinkIndex == 0 {
        uplinkIndex := total + 1;
      }
      total := total + group.count;
    }
    assert groups[..|groups|] == groups;
    return true, total, uplinkIndex;
  }

  /** The ports of one group stand together, after those of the groups before it. */
  lemma GroupSpan(groups: seq<Group>, k: nat)
    requires k < |groups| && groups[k].count >= 0
    ensures var start := |Expand(groups[..k])|;
            && |Expand(groups[..k + 1])| == start + groups[k].count <= |Expand(groups)|
            && forall i :: start <= i < start + groups[k].count ==> Expand(groups)[i] == groups[k]
  {
    assert groups[..k + 1] == groups[..k] + [groups[k]];
    assert groups == groups[..k + 1] + groups[k + 1..];
    ExpandSplits(groups[..k], [groups[k]]);
    ExpandSplits(groups[..k + 1], groups[k + 1..]);
    assert Expand([groups[k]]) == Copies(groups[k]);
  }

  /** The ports of one group, numbered from the one after index. */
  method GroupPorts(l: Layout, group: Group, index: nat, uplinkIndex: int) returns (ports: seq<Port>)
    requires group.count >= 0
    ensures |ports| == group.count
    ensures forall j :: 0 <= j < group.count ==> ports[j] == GroupPort(l, group, index + j + 1, uplinkIndex)
  {
    hide GeneratedPort, MediaForSpeed;
    var speed := group.speed;
    if speed <= 0 {
      speed := l.speed;
    }
    var media := group.media;
    if media == "" {
      media := MediaForSpeed(speed);
    }
    ports := [];
    for n := 0 to group.count
      invariant |ports| == n && forall j :: 0 <= j < n ==> ports[j] == GroupPort(l, group, index + j + 1, uplinkIndex)
    {
      var isUplink := index + n + 1 == uplinkIndex;
      var portSpeed, portMedia := speed, media;
      if isUplink {
        portSpeed, portMedia := l.uplinkSpeed, l.uplinkMedia;
      }
      ports := ports + [GeneratedPort(l, index + n + 1, portSpeed, portMedia, isUplink, group.uplink)];
    }
  }

  /** These are the first ports of the groups' members, in order. */
  ghost predicate StartsWith(ports: seq<Port>, l: Layout, members: seq<Group>, uplinkIndex: int) {
    |ports| <= |members| && forall j :: 0 <= j < |ports| ==> ports[j] == GroupPort(l, members[j], j + 1, uplinkIndex)
  }

  lemma StartsWithMore(ports: seq<Port>, more: seq<Port>, l: Layout, members: seq<Group>, g: Group, uplinkIndex: int)
    requires StartsWith(ports, l, members, uplinkIndex) && |ports| + |more| <= |members|
    requires forall i :: |ports| <= i < |ports| + |more| ==> members[i] == g
    requires forall j :: 0 <= j < |more| ==> more[j] == GroupPort(l, g, |ports| + j + 1, uplinkIndex)
    ensures StartsWith(ports + more, l, members, uplinkIndex)
  {
    hide GroupPort;
  }

  lemma StartedWithAll(ports: seq<Port>, count: int, l: Layout)
    requires count >= 1 && Grouped(count, l.groups)
    requires StartsWith(ports, l, Expand(l.groups), FirstUplink(l)) && |ports| == count
    ensures ports == Generated(count, l)
  {
    hide GroupPort, PlainPort, Expand, GroupUplink;
  }

  /** The ports of all groups, numbered on from group to group. */
  method NumberGroups(l: Layout, uplinkIndex: int) returns (ports: seq<Port>)
    requires forall g <- l.groups :: g.count >= 1
    ensures |ports| == |Expand(l.groups)| && StartsWith(ports, l, Expand(l.groups), uplinkIndex)
  {
    hide GroupPort, Expand, StartsWith;
    ports := [];
    var index := 0;
    assert l.groups[..0] == [] && l.groups[..|l.groups|] == l.groups;
    ExpandNothing(l, Expand(l.groups), uplinkIndex);
    for k := 0 to |l.groups|
      invariant index == |Expand(l.groups[..k])| == |ports|
      invariant StartsWith(ports, l, Expand(l.groups), uplinkIndex)
    {
      var group := l.groups[k];
      assert group in l.groups;
      GroupSpan(l.groups, k);
      var more := GroupPorts(l, group, index, uplinkIndex);
      StartsWithMore(ports, more, l, Expand(l.groups), group, uplinkIndex);
      ports := ports + more;
      index := index + group.count;
    }
  }

  method GroupedSwitchPorts(count: int, l: Layout) returns (ports: seq<Port>)
    requires count >= 1
    ensures ports == if Grouped(count, l.groups) then Generated(count, l) else []
  {
    if l.groups == [] {
      return [];
    }
    hide Expand, GroupUplink, Generated, StartsWith;
    var ok, total, uplinkIndex := MeasureGroups(l.groups);
    if !ok || total != count {
      return [];
    }
    if uplinkIndex == 0 {
      uplinkIndex := 1;
    }
    ports := NumberGroups(l, uplinkIndex);
    StartedWithAll(ports, count, l);
  }

  lemma ExpandNothing(l: Layout, members: seq<Group>, uplinkIndex: int)
    ensures Expand([]) == [] && StartsWith([], l, members, uplinkIndex)
  {
  }

  method ApplyUplinkPort(ports: array<Port>, uplinkPort: int)
    modifies ports
    ensures ports[..] == WithUplink(old(ports[..]), uplinkPort)
  {
    if uplinkPort <= 0 || uplinkPort > ports.Length {
      return;
    }
    for i := 0 to ports.Length
      invariant forall j :: 0 <= j < i ==> ports[j] == old(ports[j]).(uplink := false)
      invariant forall j :: i <= j < ports.Length ==> ports[j] == old(ports[j])
    {
      ports[i] := ports[i].(uplink := false);
    }
    ports[uplinkPort - 1] := ports[uplinkPort - 1].(uplink := true);
  }

  method SwitchPortsWithLayout(count: int, layout: Layout) returns (ports: array<Port>)
    ensures fresh(ports) && ports[..] == SwitchPorts(count, layout)
  {
    hide GeneratedPort, GroupPort, MediaForSpeed;
    var wanted := if count < 1 then 1 else count;
    var l := NormalLayout(layout);
    var list := GroupedSwitchPorts(wanted, l);
    if list == [] {
      for i := 1 to wanted + 1
        invariant |list| == i - 1 && forall j :: 0 <= j < |list| ==> list[j] == PlainPort(l, j + 1)
      {
        var speed, media := l.speed, l.media;
        if i == 1 {
          speed, media := l.uplinkSpeed, l.uplinkMedia;
        }
        list := list + [GeneratedPort(l, i, speed, media, i == 1, i == 1)];
      }
      assert list == Generated(wanted, l);
    }
    ports := new Port[|list|](i requires 0 <= i < |list| => list[i]);
    assert ports[..] == list;
    ApplyUplinkPort(ports, l.uplinkPort);
  }

  /** Every layout gives a list numbered from one with exactly one uplink, at the chosen
      port when that exists. */
  lemma SwitchPortsAreWellFormed(count: int, layout: Layout)
    ensures WellFormed(SwitchPorts(count, layout))
    ensures |SwitchPorts(count, layout)| == if count < 1 then 1 else count
    ensures 1 <= layout.uplinkPort <= |SwitchPorts(count, layout)| ==> UplinkAt(SwitchPorts(count, layout), layout.uplinkPort - 1)
  {
    hide NormalLayout, PortName, Normal, TrimSpace, MediaForSpeed;
    var l := NormalLayout(layout);
    var wanted := if count < 1 then 1 else count;
    var ports := Generated(wanted, l);
    if Grouped(wanted, l.groups) {
      GroupUplinkSplits(l.groups, Group(1, 0, "", false));
      assert UplinkAt(ports, FirstUplink(l) - 1);
    } else {
      assert UplinkAt(ports, 0);
    }
    if 1 <= layout.uplinkPort <= |ports| {
      assert UplinkAt(WithUplink(ports, layout.uplinkPort), layout.uplinkPort - 1);
    }
  }

  // ---- overrides ----

  datatype Override = Override(
    port: int, name: string, iface: string, labels: Labels, ipv6: seq<string>, role: string, networkGroup: string,
    vlan: int, wan: Wan, speed: int, media: string, up: Option<bool>, disabled: bool,
    counters: Counters, countersSet: bool, rates: Option<Rates>)

  function Kept(value: string, old_: string): string {
    if value != "" then value else old_
  }

  function SetStrings(p: Port, o: Override): Port {
    p.(name := Kept(TrimSpace(o.name), p.name),
       iface := Kept(TrimSpace(o.iface), p.iface),
       labels := Labels(
         Kept(Normal(o.labels.mac), p.labels.mac), Kept(TrimSpace(o.labels.ip), p.labels.ip),
         Kept(TrimSpace(o.labels.netmask), p.labels.netmask), Kept(TrimSpace(o.labels.portConfID), p.labels.portConfID),
         Kept(TrimSpace(o.labels.networkConfID), p.labels.networkConfID),
         Kept(TrimSpace(o.labels.nativeNetworkConfID), p.labels.nativeNetworkConfID),
         Kept(TrimSpace(o.labels.networkName), p.labels.networkName)),
       role := Kept(Normal(o.role), p.role),
       networkGroup := Kept(TrimSpace(o.networkGroup), p.networkGroup))
  }

  function SetAssignment(p: Port, o: Override): Port {
    p.(vlan := o.vlan, ipv6 := if o.ipv6 != [] then o.ipv6 else p.ipv6)
  }

  function SetSpeed(p: Port, o: Override): Port {
    if o.speed <= 0 then p
    else p.(speed := o.speed, media := if TrimSpace(o.media) == "" then MediaForSpeed(o.speed) else p.media)
  }

  function Counted(value: int, set_: bool, old_: int): int {
    if set_ || value != 0 then value else old_
  }

  function SetCounters(p: Port, o: Override): Port {
    var c, d, s := o.counters, p.counters, o.countersSet;
    p.(counters := Counters(
         Counted(c.rxBytes, s, d.rxBytes), Counted(c.txBytes, s, d.txBytes), Counted(c.rxPackets, s, d.rxPackets),
         Counted(c.txPackets, s, d.txPackets), Counted(c.rxErrors, s, d.rxErrors), Counted(c.txErrors, s, d.txErrors)),
       countersSet := s || p.countersSet)
  }

  function SetRates(p: Port, o: Override): Port {
    if o.rates.Some? then p.(rates := o.rates) else p
  }

  function SetMedia(p: Port, o: Override): Port {
    p.(media := Kept(TrimSpace(o.media), p.media))
  }

  function SetLinkState(p: Port, o: Override): Port {
    if o.up.None? then p
    else p.(up := o.up.value, speed := if !o.up.value && o.speed <= 0 then 0 else p.speed)
  }

  function SetDisabled(p: Port, o: Override): Port {
    if !o.disabled then p else p.(disabled := true, up := false, speed := 0, ipv6 := [], macs := [])
  }

  /** The setters in their fixed order. */
  function Overridden(p: Port, o: Override): Port {
    SetDisabled(SetLinkState(SetMedia(SetRates(SetCounters(SetSpeed(SetAssignment(SetStrings(p, o), o), o).(wan := o.wan), o), o), o), o), o)
  }

  function Overrides(ports: seq<Port>, overrides: seq<Override>): seq<Port>
    decreases |overrides|
  {
    if overrides == [] then ports
    else
      var o := overrides[0];
      Overrides(if 1 <= o.port <= |ports| then ports[o.port - 1 := Overridden(ports[o.port - 1], o)] else ports, overrides[1..])
  }

  method ApplyPortOverrides(ports: array<Port>, overrides: seq<Override>)
    modifies ports
    ensures ports[..] == Overrides(old(ports[..]), overrides)
  {
    hide SetStrings, SetAssignment, SetSpeed, SetCounters, SetRates, SetMedia, SetLinkState, SetDisabled;
    for k := 0 to |overrides|
      invariant Overrides(ports[..], overrides[k..]) == Overrides(old(ports[..]), overrides)
    {
      var o := overrides[k];
      assert overrides[k..][0] == o && overrides[k..][1..] == overrides[k + 1..];
      if o.port < 1 || o.port > ports.Length {
        continue;
      }
      ghost var before := ports[..];
      var p := ports[o.port - 1];
      p := SetStrings(p, o);
      p := SetAssignment(p, o);
      p := SetSpeed(p, o);
      p := p.(wan := o.wan);
      p := SetCounters(p, o);
      p := SetRates(p, o);
      p := SetMedia(p, o);
      p := SetLinkState(p, o);
      p := SetDisabled(p, o);
      ports[o.port - 1] := p;
      assert ports[..] == before[o.port - 1 := Overridden(before[o.port - 1], o)];
    }
  }

  /** The part of a port that says what it is and whether it is connected. */
  datatype Link = Link(
    index: int, uplink: bool, profileUplink: bool, neighbors: seq<Neighbor>, macs: seq<MacEntry>,
    up: bool, speed: int, media: string)

  ghost function LinkOf(p: Port): Link {
    Link(p.index, p.uplink, p.profileUplink, p.neighbors, p.macs, p.up, p.speed, p.media)
  }

  lemma DescriptionsKeepLink(p: Port, o: Override)
    ensures LinkOf(SetStrings(p, o)) == LinkOf(p) && LinkOf(SetAssignment(p, o)) == LinkOf(p) && LinkOf(p.(wan := o.wan)) == LinkOf(p)
    ensures LinkOf(SetCounters(p, o)) == LinkOf(p) && LinkOf(SetRates(p, o)) == LinkOf(p)
  {
    hide TrimSpace, Normal, Kept, Counted;
  }

  /** Speed, then medium, then link state, then the administrative switch. */
  ghost function SpeedLink(k: Link, o: Override): Link {
    if o.speed <= 0 then k else k.(speed := o.speed, media := if TrimSpace(o.media) == "" then MediaForSpeed(o.speed) else k.media)
  }

  ghost function StateLink(k: Link, o: Override): Link {
    var shown := k.(media := Kept(TrimSpace(o.media), k.media));
    var linked := if o.up.None? then shown else shown.(up := o.up.value, speed := if !o.up.value && o.speed <= 0 then 0 else shown.speed);
    if o.disabled then linked.(up := false, speed := 0, macs := []) else linked
  }

  lemma SpeedSetterDoes(p: Port, o: Override)
    ensures LinkOf(SetSpeed(p, o)) == SpeedLink(LinkOf(p), o)
  {
    hide TrimSpace, MediaForSpeed;
  }

  lemma MediaSetterDoes(p: Port, o: Override)
    ensures LinkOf(SetMedia(p, o)) == LinkOf(p).(media := Kept(TrimSpace(o.media), p.media)) && LinkOf(p).media == p.media
  {
    hide TrimSpace, Kept;
  }

  lemma StateSetterDoes(p: Port, o: Override)
    ensures LinkOf(SetLinkState(p, o))
         == if o.up.None? then LinkOf(p) else LinkOf(p).(up := o.up.value, speed := if !o.up.value && o.speed <= 0 then 0 else LinkOf(p).speed)
  {
  }

  lemma DisabledSetterDoes(p: Port, o: Override)
    ensures LinkOf(SetDisabled(p, o)) == if o.disabled then LinkOf(p).(up := false, speed := 0, macs := []) else LinkOf(p)
  {
  }

  lemma LinkSettersDo(p: Port, o: Override)
    ensures LinkOf(SetSpeed(p, o)) == SpeedLink(LinkOf(p), o)
    ensures LinkOf(SetDisabled(SetLinkState(SetMedia(p, o), o), o)) == StateLink(LinkOf(p), o)
  {
    hide TrimSpace, MediaForSpeed, Kept, LinkOf, SetSpeed, SetMedia, SetLinkState, SetDisabled;
    SpeedSetterDoes(p, o);
    MediaSetterDoes(p, o);
    StateSetterDoes(SetMedia(p, o), o);
    DisabledSetterDoes(SetLinkState(SetMedia(p, o), o), o);
  }

  lemma SettersInOrder(p: Port, o: Override)
    ensures LinkOf(Overridden(p, o)) == StateLink(SpeedLink(LinkOf(p), o), o)
  {
    hide TrimSpace, MediaForSpeed, SetStrings, SetAssignment, SetCounters, SetRates, SetSpeed, SetMedia, SetLinkState, SetDisabled;
    hide SpeedLink, StateLink, LinkOf;
    DescriptionsKeepLink(p, o);
    var a := SetAssignment(SetStrings(p, o), o);
    DescriptionsKeepLink(SetStrings(p, o), o);
    LinkSettersDo(a, o);
    var b := SetSpeed(a, o);
    DescriptionsKeepLink(b, o);
    var c := SetCounters(b.(wan := o.wan), o);
    DescriptionsKeepLink(b.(wan := o.wan), o);
    DescriptionsKeepLink(c, o);
    LinkSettersDo(SetRates(c, o), o);
  }

  /** What an override means for the link: disabling wins over everything, an explicit speed
      over a link-down, an explicit medium over the one the speed implies. */
  lemma OverriddenLink(p: Port, o: Override)
    ensures LinkOf(Overridden(p, o)) == Link(
              p.index, p.uplink, p.profileUplink, p.neighbors,
              if o.disabled then [] else p.macs,
              !o.disabled && o.up.GetOr(p.up),
              if o.disabled then 0 else if o.speed > 0 then o.speed else if o.up == Some(false) then 0 else p.speed,
              if TrimSpace(o.media) != "" then TrimSpace(o.media) else if o.speed > 0 then MediaForSpeed(o.speed) else p.media)
  {
    hide TrimSpace, MediaForSpeed, Overridden;
    SettersInOrder(p, o);
  }

  lemma {:induction false} OverridesKeepShape(ports: seq<Port>, overrides: seq<Override>)
    ensures SameShape(ports, Overrides(ports, overrides))
    decreases |overrides|
  {
    hide Overridden;
    if overrides != [] {
      var o := overrides[0];
      if 1 <= o.port <= |ports| {
        OverriddenLink(ports[o.port - 1], o);
        OverridesKeepShape(ports[o.port - 1 := Overridden(ports[o.port - 1], o)], overrides[1..]);
      } else {
        OverridesKeepShape(ports, overrides[1..]);
      }
    }
  }

  // ---- configured neighbors ----

  datatype PortNeighbor = PortNeighbor(port: int, entry: MacEntry, remotePort: int)

  function SameFold(a: string, b: string): bool {
    ToLower(a) == ToLower(b)
  }

  function NormalEntry(e: MacEntry): MacEntry {
    MacEntry(Normal(e.mac), TrimSpace(e.hostname), TrimSpace(e.ip), if e.age == 0 then 4 else e.age,
             if e.uptime == 0 then 1200 else e.uptime, e.vlan, e.fixed, if TrimSpace(e.kind) == "" then "client" else e.kind)
  }

  function MergedEntry(observed: MacEntry, configured: MacEntry): MacEntry {
    configured.(hostname := if TrimSpace(configured.hostname) == "" then observed.hostname else configured.hostname,
                ip := if TrimSpace(configured.ip) == "" then observed.ip else configured.ip,
                vlan := if configured.vlan == 0 then observed.vlan else configured.vlan,
                fixed := observed.fixed || configured.fixed)
  }

  /** The first entry with the same MAC is merged, or the new one is appended. */
  function Upserted(macs: seq<MacEntry>, e: MacEntry): seq<MacEntry> {
    if macs == [] then [e]
    else if SameFold(macs[0].mac, e.mac) then [MergedEntry(macs[0], e)] + macs[1..]
    else [macs[0]] + Upserted(macs[1..], e)
  }

  method UpsertMAC(macs: seq<MacEntry>, e: MacEntry) returns (out: seq<MacEntry>)
    ensures out == Upserted(macs, e)
  {
    hide SameFold, MergedEntry, Upserted;
    UpsertedIntoNothing(macs, e);
    for i := 0 to |macs|
      invariant Upserted(macs, e) == macs[..i] + Upserted(macs[i..], e)
    {
      UpsertedFrom(macs, e, i);
      if SameFold(macs[i].mac, e.mac) {
        out := macs[i := MergedEntry(macs[i], e)];
        assert out == macs[..i] + ([MergedEntry(macs[i], e)] + macs[i + 1..]);
        return;
      }
      assert macs[..i] + ([macs[i]] + Upserted(macs[i + 1..], e)) == macs[..i + 1] + Upserted(macs[i + 1..], e);
    }
    assert macs[..|macs|] == macs;
    return macs + [e];
  }

  lemma UpsertedIntoNothing(macs: seq<MacEntry>, e: MacEntry)
    ensures Upserted(macs[|macs|..], e) == [e] && macs[..0] + Upserted(macs[0..], e) == Upserted(macs, e)
  {
    assert macs[0..] == macs;
  }

  lemma UpsertedFrom(macs: seq<MacEntry>, e: MacEntry, i: nat)
    requires i < |macs|
    ensures Upserted(macs[i..], e)
         == if SameFold(macs[i].mac, e.mac) then [MergedEntry(macs[i], e)] + macs[i + 1..] else [macs[i]] + Upserted(macs[i + 1..], e)
  {
    hide SameFold, MergedEntry;
    assert macs[i..][0] == macs[i] && macs[i..][1..] == macs[i + 1..];
  }

  /** Some entry has this address, compared without regard to case. */
  ghost predicate Listed(macs: seq<MacEntry>, mac: string) {
    exists i :: 0 <= i < |macs| && SameFold(macs[i].mac, mac)
  }

  lemma {:induction false} NewComesLast(macs: seq<MacEntry>, e: MacEntry)
    requires forall i :: 0 <= i < |macs| ==> !SameFold(macs[i].mac, e.mac)
    ensures Upserted(macs, e) == macs + [e]
    decreases |macs|
  {
    hide SameFold, MergedEntry;
    if macs != [] {
      NewComesLast(macs[1..], e);
      assert [macs[0]] + (macs[1..] + [e]) == macs + [e];
    }
  }

  lemma {:induction false} FirstIsMerged(macs: seq<MacEntry>, e: MacEntry, i: nat)
    requires i < |macs| && SameFold(macs[i].mac, e.mac)
    requires forall j :: 0 <= j < i ==> !SameFold(macs[j].mac, e.mac)
    ensures Upserted(macs, e) == macs[i := MergedEntry(macs[i], e)]
    decreases |macs|
  {
    hide SameFold, MergedEntry;
    if i > 0 {
      FirstIsMerged(macs[1..], e, i - 1);
      assert [macs[0]] + macs[1..][i - 1 := MergedEntry(macs[i], e)] == macs[i := MergedEntry(macs[i], e)];
    }
  }

  lemma {:induction false} FirstListed(macs: seq<MacEntry>, mac: string, n: nat) returns (i: nat)
    requires n < |macs| && SameFold(macs[n].mac, mac)
    ensures i <= n && SameFold(macs[i].mac, mac) && forall j :: 0 <= j < i ==> !SameFold(macs[j].mac, mac)
  {
    hide SameFold;
    if k: nat :| k < n && SameFold(macs[k].mac, mac) {
      i := FirstListed(macs, mac, k);
    } else {
      i := n;
    }
  }

  /** Either the address is new and its entry comes last, or its first entry takes the new one's
      settings in place; every other entry stays as and where it was. */
  lemma UpsertMeans(macs: seq<MacEntry>, e: MacEntry)
    ensures !Listed(macs, e.mac) ==> Upserted(macs, e) == macs + [e]
    ensures Listed(macs, e.mac) ==>
              exists i :: 0 <= i < |macs| && SameFold(macs[i].mac, e.mac)
                          && (forall j :: 0 <= j < i ==> !SameFold(macs[j].mac, e.mac))
                          && Upserted(macs, e) == macs[i := MergedEntry(macs[i], e)]
  {
    hide SameFold, MergedEntry, Upserted;
    if n: nat :| n < |macs| && SameFold(macs[n].mac, e.mac) {
      var i := FirstListed(macs, e.mac, n);
      FirstIsMerged(macs, e, i);
    } else {
      NewComesLast(macs, e);
    }
  }

  /** No address is lost and only the new one is added. */
  lemma UpsertKeepsAddresses(macs: seq<MacEntry>, e: MacEntry, mac: string)
    ensures Listed(Upserted(macs, e), mac) <==> Listed(macs, mac) || SameFold(e.mac, mac)
  {
    UpsertMeans(macs, e);
    hide Upserted, TrimSpace, ToLower;
    var out := Upserted(macs, e);
    if Listed(macs, e.mac) {
      var i :| 0 <= i < |macs| && SameFold(macs[i].mac, e.mac) && out == macs[i := MergedEntry(macs[i], e)];
      assert out[i] == MergedEntry(macs[i], e) && MergedEntry(macs[i], e).mac == e.mac;
      if Listed(macs, mac) {
        var j :| 0 <= j < |macs| && SameFold(macs[j].mac, mac);
        assert SameFold(out[j].mac, mac);
      }
      if SameFold(e.mac, mac) {
        assert SameFold(out[i].mac, mac);
      }
      if Listed(out, mac) {
        var j :| 0 <= j < |out| && SameFold(out[j].mac, mac);
        assert j != i ==> SameFold(macs[j].mac, mac);
        assert j == i ==> SameFold(macs[i].mac, mac);
      }
    } else {
      if Listed(macs, mac) {
        var j :| 0 <= j < |macs| && SameFold(macs[j].mac, mac);
        assert SameFold(out[j].mac, mac);
      }
      assert out[|macs|] == e;
    }
  }

  function WithNeighbor(p: Port, n: PortNeighbor): Port {
    var e := NormalEntry(n.entry);
    if !SameFold(TrimSpace(e.kind), "client") then
      p.(neighbors := p.neighbors + [Neighbor(e.mac, e.hostname, e.ip, e.kind, e.vlan, e.age, e.uptime, n.remotePort, "", ConfigPort, e.fixed)])
    else p.(macs := Upserted(p.macs, e))
  }

  predicate Placeable(n: PortNeighbor, count: nat) {
    1 <= n.port <= count && TrimSpace(n.entry.mac) != ""
  }

  function WithNeighbors(ports: seq<Port>, neighbors: seq<PortNeighbor>): seq<Port>
    decreases |neighbors|
  {
    if neighbors == [] then ports
    else
      var n := neighbors[0];
      WithNeighbors(if Placeable(n, |ports|) then ports[n.port - 1 := WithNeighbor(ports[n.port - 1], n)] else ports, neighbors[1..])
  }

  method ApplyPortNeighbors(ports: array<Port>, neighbors: seq<PortNeighbor>)
    modifies ports
    ensures ports[..] == WithNeighbors(old(ports[..]), neighbors)
  {
    hide NormalEntry, TrimSpace, SameFold, Upserted;
    for k := 0 to |neighbors|
      invariant WithNeighbors(ports[..], neighbors[k..]) == WithNeighbors(old(ports[..]), neighbors)
    {
      var n := neighbors[k];
      assert neighbors[k..][0] == n && neighbors[k..][1..] == neighbors[k + 1..];
      if n.port < 1 || n.port > ports.Length || TrimSpace(n.entry.mac) == "" {
        continue;
      }
      ghost var before := ports[..];
      var e := NormalEntry(n.entry);
      var p := ports[n.port - 1];
      if !SameFold(TrimSpace(e.kind), "client") {
        ports[n.port - 1] := p.(neighbors := p.neighbors + [Neighbor(e.mac, e.hostname, e.ip, e.kind, e.vlan, e.age, e.uptime, n.remotePort, "", ConfigPort, e.fixed)]);
      } else {
        var macs := UpsertMAC(p.macs, e);
        ports[n.port - 1] := p.(macs := macs);
      }
      assert ports[..] == before[n.port - 1 := WithNeighbor(before[n.port - 1], n)];
    }
  }

  lemma {:induction false} NeighborsKeepShape(ports: seq<Port>, neighbors: seq<PortNeighbor>)
    ensures SameShape(ports, WithNeighbors(ports, neighbors))
    decreases |neighbors|
  {
    hide NormalEntry, TrimSpace, SameFold, Upserted;
    if neighbors != [] {
      var n := neighbors[0];
      if Placeable(n, |ports|) {
        NeighborsKeepShape(ports[n.port - 1 := WithNeighbor(ports[n.port - 1], n)], neighbors[1..]);
      } else {
        NeighborsKeepShape(ports, neighbors[1..]);
      }
    }
  }

  /** The configured neighbors meant for one port, in order. */
  function MeantFor(neighbors: seq<PortNeighbor>, port: int, count: nat): seq<PortNeighbor> {
    if neighbors == [] then []
    else
      (if Placeable(neighbors[0], count) && neighbors[0].port == port then [neighbors[0]] else [])
      + MeantFor(neighbors[1..], port, count)
  }

  function Adjoined(p: Port, neighbors: seq<PortNeighbor>): Port
    decreases |neighbors|
  {
    if neighbors == [] then p else Adjoined(WithNeighbor(p, neighbors[0]), neighbors[1..])
  }

  /** Each port takes on exactly the neighbors configured for it, whatever the others do. */
  lemma {:induction false} NeighborsAtPort(ports: seq<Port>, neighbors: seq<PortNeighbor>, i: nat)
    requires i < |ports|
    ensures |WithNeighbors(ports, neighbors)| == |ports|
    ensures WithNeighbors(ports, neighbors)[i] == Adjoined(ports[i], MeantFor(neighbors, i + 1, |ports|))
    decreases |neighbors|
  {
    hide WithNeighbor, Placeable;
    if neighbors != [] {
      var n := neighbors[0];
      if Placeable(n, |ports|) {
        assert 1 <= n.port <= |ports| by { PlaceableIsInRange(n, |ports|); }
        NeighborsAtPort(ports[n.port - 1 := WithNeighbor(ports[n.port - 1], n)], neighbors[1..], i);
        var later := MeantFor(neighbors[1..], i + 1, |ports|);
        AdjoinedFirst(ports[i], n, later);
        assert MeantFor(neighbors, i + 1, |ports|) == if n.port == i + 1 then [n] + later else [] + later;
        assert [] + later == later;
      } else {
        NeighborsAtPort(ports, neighbors[1..], i);
        assert [] + MeantFor(neighbors[1..], i + 1, |ports|) == MeantFor(neighbors[1..], i + 1, |ports|);
      }
    }
  }

  lemma PlaceableIsInRange(n: PortNeighbor, count: nat)
    requires Placeable(n, count)
    ensures 1 <= n.port <= count
  {
    hide TrimSpace;
  }

  lemma AdjoinedFirst(p: Port, n: PortNeighbor, rest: seq<PortNeighbor>)
    ensures Adjoined(p, [n] + rest) == Adjoined(WithNeighbor(p, n), rest)
  {
    hide WithNeighbor;
    assert ([n] + rest)[1..] == rest;
  }

  /** One neighbor: a client joins the port's addresses, anything else its neighbors; the rest of
      the port stays. */
  lemma NeighborAdds(p: Port, n: PortNeighbor, mac: string)
    ensures var q := WithNeighbor(p, n);
            && q == p.(macs := q.macs, neighbors := q.neighbors)
            && (Listed(q.macs, mac) <==>
                  Listed(p.macs, mac) || (SameFold(TrimSpace(NormalEntry(n.entry).kind), "client") && SameFold(Normal(n.entry.mac), mac)))
            && p.neighbors <= q.neighbors
            && |q.neighbors| == |p.neighbors| + if SameFold(TrimSpace(NormalEntry(n.entry).kind), "client") then 0 else 1
  {
    hide TrimSpace, SameFold, Upserted;
    UpsertKeepsAddresses(p.macs, NormalEntry(n.entry), mac);
  }

  /** No configured neighbor makes a port lose an address or a neighbor it had. */
  lemma {:induction false} AdjoiningLosesNothing(p: Port, neighbors: seq<PortNeighbor>, mac: string)
    ensures Listed(p.macs, mac) ==> Listed(Adjoined(p, neighbors).macs, mac)
    ensures p.neighbors <= Adjoined(p, neighbors).neighbors
    decreases |neighbors|
  {
    hide WithNeighbor, Listed, SameFold, TrimSpace, NormalEntry, Normal;
    if neighbors != [] {
      NeighborAdds(p, neighbors[0], mac);
      AdjoiningLosesNothing(WithNeighbor(p, neighbors[0]), neighbors[1..], mac);
    }
  }

  /** The first marked port gains the configured uplink neighbor. */
  function WithUplinkNeighbor(ports: seq<Port>, neighbor: Option<Neighbor>): seq<Port> {
    if neighbor.None? || TrimSpace(neighbor.value.mac) == "" then ports
    else OnFirstUplink(ports, neighbor.value.(source := ConfigUplink))
  }

  function OnFirstUplink(ports: seq<Port>, n: Neighbor): seq<Port> {
    if ports == [] then []
    else if ports[0].uplink then [ports[0].(neighbors := ports[0].neighbors + [n])] + ports[1..]
    else [ports[0]] + OnFirstUplink(ports[1..], n)
  }

  method ApplyUplinkNeighbor(ports: array<Port>, neighbor: Option<Neighbor>)
    modifies ports
    ensures ports[..] == WithUplinkNeighbor(old(ports[..]), neighbor)
  {
    if neighbor.None? || TrimSpace(neighbor.value.mac) == "" {
      return;
    }
    hide TrimSpace;
    var entry := neighbor.value.(source := ConfigUplink);
    ghost var before := ports[..];
    hide OnFirstUplink;
    for i := 0 to ports.Length
      invariant ports[..] == before
      invariant forall j :: 0 <= j < i ==> !before[j].uplink
    {
      if ports[i].uplink {
        ports[i] := ports[i].(neighbors := ports[i].neighbors + [entry]);
        FirstUplinkGains(before, entry, i);
        return;
      }
    }
    NoUplinkNoGain(before, entry);
  }

  lemma {:induction false} FirstUplinkGains(ports: seq<Port>, n: Neighbor, i: nat)
    requires i < |ports| && ports[i].uplink && forall j :: 0 <= j < i ==> !ports[j].uplink
    ensures OnFirstUplink(ports, n) == ports[i := ports[i].(neighbors := ports[i].neighbors + [n])]
  {
    if i > 0 {
      FirstUplinkGains(ports[1..], n, i - 1);
      assert ports == [ports[0]] + ports[1..];
    }
  }

  lemma {:induction false} NoUplinkNoGain(ports: seq<Port>, n: Neighbor)
    requires forall j :: 0 <= j < |ports| ==> !ports[j].uplink
    ensures OnFirstUplink(ports, n) == ports
  {
    if ports != [] {
      NoUplinkNoGain(ports[1..], n);
      assert ports == [ports[0]] + ports[1..];
    }
  }

  lemma {:induction false} UplinkNeighborKeepsShape(ports: seq<Port>, n: Neighbor)
    ensures SameShape(ports, OnFirstUplink(ports, n))
  {
    if ports != [] {
      UplinkNeighborKeepsShape(ports[1..], n);
      assert forall i :: 0 < i < |ports| ==> ports[i] == ports[1..][i - 1];
    }
  }

  /** On a list with one uplink exactly that port changes, by one neighbor at the end. */
  lemma UplinkGainsNeighbor(ports: seq<Port>, n: Neighbor, u: nat)
    requires UplinkAt(ports, u)
    ensures OnFirstUplink(ports, n) == ports[u := ports[u].(neighbors := ports[u].neighbors + [n])]
  {
    hide OnFirstUplink;
    FirstUplinkGains(ports, n, u);
  }
}
