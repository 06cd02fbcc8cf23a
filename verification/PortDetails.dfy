/** Every field of a built port, of an overridden one and of one that takes on a neighbor. */
module PortDetails {
  import opened Basics
  import opened Runes
  import opened Ports
  import MemberOrder

  // ---- numbers in port names ----

  /** A printed number reads back as itself, in digits only and without a leading zero. */
  lemma {:induction false} ItoaReads(n: nat)
    ensures (forall c <- Itoa(n) :: MemberOrder.IsDigit(c)) && MemberOrder.Numeral(Itoa(n), 0) == n
    ensures Itoa(n) != "" && (Itoa(n)[0] == '0' <==> n == 0)
  {
    var last := (n % 10 + '0' as int) as char;
    if n < 10 {
      assert Itoa(n) == [last] && [last][1..] == "";
    } else {
      ItoaReads(n / 10);
      var s := Itoa(n);
      assert s == Itoa(n / 10) + [last];
      assert s[..|s| - 1] == Itoa(n / 10) && s[|s| - 1] == last;
      MemberOrder.NumeralEnds(s, 0);
    }
  }

  // ---- built ports ----

  /** How many ports the groups describe. */
  function Total(groups: seq<Group>): int {
    if groups == [] then 0 else groups[0].count + Total(groups[1..])
  }

  lemma {:induction false} TotalIs(groups: seq<Group>)
    requires forall g <- groups :: g.count >= 1
    ensures |Expand(groups)| == Total(groups) >= |groups|
  {
    if groups != [] {
      assert groups[0] in groups && forall g <- groups[1..] :: g in groups;
      TotalIs(groups[1..]);
    }
  }

  /** The port an uplink group starts at, or the first port when no group is one. */
  ghost predicate FirstUplinkIs(groups: seq<Group>, first: int) {
    if forall g <- groups :: !g.uplink then first == 1
    else exists k :: 0 <= k < |groups| && groups[k].uplink && first == Total(groups[..k]) + 1
                     && forall j :: 0 <= j < k ==> !groups[j].uplink
  }

  lemma {:induction false} GroupUplinkIs(groups: seq<Group>, k: nat)
    requires k <= |groups| && (forall g <- groups :: g.count >= 1) && forall j :: 0 <= j < k ==> !groups[j].uplink
    requires k < |groups| ==> groups[k].uplink
    ensures GroupUplink(groups) == if k < |groups| then Total(groups[..k]) + 1 else 0
  {
    if k > 0 {
      assert groups[0] in groups && forall g <- groups[1..] :: g in groups;
      assert groups[..k][1..] == groups[1..][..k - 1];
      GroupUplinkIs(groups[1..], k - 1);
      TotalIsNotNegative(groups[1..], k - 1);
      assert |Copies(groups[0])| == groups[0].count;
    }
  }

  lemma FirstUplinkAgrees(l: Layout, first: int)
    requires (forall g <- l.groups :: g.count >= 1) && FirstUplinkIs(l.groups, first)
    ensures FirstUplink(l) == first
  {
    hide GroupUplink, Total;
    if forall g <- l.groups :: !g.uplink {
      GroupUplinkIs(l.groups, |l.groups|);
    } else {
      var k :| 0 <= k < |l.groups| && l.groups[k].uplink && first == Total(l.groups[..k]) + 1
        && forall j :: 0 <= j < k ==> !l.groups[j].uplink;
      GroupUplinkIs(l.groups, k);
      TotalIsNotNegative(l.groups, k);
    }
  }

  lemma TotalIsNotNegative(groups: seq<Group>, k: nat)
    requires k <= |groups| && forall g <- groups :: g.count >= 1
    ensures Total(groups[..k]) >= 0
  {
    assert forall g <- groups[..k] :: g in groups;
    TotalIs(groups[..k]);
  }

  /** The medium that goes with a speed unless one is given. */
  function Medium(text: string, speed: int): string {
    if text != "" then text else if speed >= 10000 then "SFP+" else "GE"
  }

  function BaseSpeed(l: Layout): int {
    if l.speed <= 0 then 1000 else l.speed
  }

  function UpSpeed(l: Layout): int {
    if l.uplinkSpeed <= 0 then BaseSpeed(l) else l.uplinkSpeed
  }

  /** The text a list gives a port, trimmed; none past its end. */
  function Given(values: seq<string>, i: nat): string {
    if i < |values| then TrimSpace(values[i]) else ""
  }

  /** Every field of the port at position i that does not depend on its group. */
  ghost predicate BuiltAs(p: Port, l: Layout, i: nat, speed: int, media: string, profileUplink: bool) {
    && p.index == i + 1
    && p.name == (if Given(l.names, i) != "" then Given(l.names, i) else "Port " + Itoa(i + 1))
    && p.role == ToLower(Given(l.roles, i)) && p.profileRole == p.role
    && p.networkGroup == Given(l.networkGroups, i)
    && p.speed == speed && p.media == media && p.profileUplink == profileUplink
    && p.up && !p.disabled && p.iface == "" && p.macs == [] && p.neighbors == [] && p.ipv6 == [] && p.vlan == 0
    && p.labels == NO_LABELS && p.wan == NO_WAN && p.counters == NO_COUNTERS && !p.countersSet && p.rates == None
  }

  lemma GeneratedIsBuilt(l: Layout, i: nat, speed: int, media: string, uplink: bool, profileUplink: bool)
    ensures BuiltAs(GeneratedPort(l, i + 1, speed, media, uplink, profileUplink), l, i, speed, media, profileUplink)
    ensures GeneratedPort(l, i + 1, speed, media, uplink, profileUplink).uplink == uplink
  {
    if i < |l.roles| {
      TrimTwice(l.roles[i]);
    }
    if i < |l.networkGroups| {
      TrimTwice(l.networkGroups[i]);
    }
    assert TrimSpace("") == "";
    hide TrimSpace, Itoa, ToLower;
  }

  lemma LayoutNormalIs(layout: Layout)
    ensures var l := NormalLayout(layout);
            && l.speed == BaseSpeed(layout) && l.uplinkSpeed == UpSpeed(layout)
            && l.media == Medium(layout.media, BaseSpeed(layout)) && l.uplinkMedia == Medium(layout.uplinkMedia, UpSpeed(layout))
            && l.groups == layout.groups && l.names == layout.names && l.roles == layout.roles
            && l.networkGroups == layout.networkGroups && l.uplinkPort == layout.uplinkPort
  {
  }

  lemma BuiltByNames(p: Port, l: Layout, m: Layout, i: nat, speed: int, media: string, profileUplink: bool)
    requires l.names == m.names && l.roles == m.roles && l.networkGroups == m.networkGroups
    requires BuiltAs(p, l, i, speed, media, profileUplink)
    ensures BuiltAs(p, m, i, speed, media, profileUplink)
    ensures BuiltAs(p.(uplink := true), m, i, speed, media, profileUplink) && BuiltAs(p.(uplink := false), m, i, speed, media, profileUplink)
  {
    hide TrimSpace, Itoa, ToLower;
  }

  /** The port count a layout is built for. */
  function Wanted(count: int): int {
    if count < 1 then 1 else count
  }

  /** Ports of a grouped layout. The first uplink group's first port has the uplink speed and
      medium; any other port has its group's, where a group without a speed has the layout's and
      one without a medium has the one that goes with its speed. */
  lemma GroupedPort(count: int, layout: Layout, k: nat, i: nat, first: int)
    requires (forall g <- layout.groups :: g.count >= 1) && Total(layout.groups) == Wanted(count)
    requires k < |layout.groups| && Total(layout.groups[..k]) <= i < Total(layout.groups[..k]) + layout.groups[k].count
    requires FirstUplinkIs(layout.groups, first)
    ensures i < |SwitchPorts(count, layout)| == Wanted(count)
    ensures var p, g := SwitchPorts(count, layout)[i], layout.groups[k];
            var speed := if i + 1 == first then UpSpeed(layout) else if g.speed <= 0 then BaseSpeed(layout) else g.speed;
            && BuiltAs(p, layout, i, speed, Medium(if i + 1 == first then layout.uplinkMedia else g.media, speed), g.uplink)
            && (p.uplink <==> i + 1 == if 1 <= layout.uplinkPort <= Wanted(count) then layout.uplinkPort else first)
  {
    var l, g := NormalLayout(layout), layout.groups[k];
    LayoutNormalIs(layout);
    TotalIs(layout.groups);
    SpanAt(layout.groups, k, i);
    FirstUplinkAgrees(l, first);
    assert g in layout.groups;
    GroupPortIs(layout, g, i, first);
    hide Expand, Total, NormalLayout, GroupPort, FirstUplinkIs, FirstUplink, BuiltAs, Medium, UpSpeed, BaseSpeed;
    assert Grouped(Wanted(count), l.groups);
    var p := GroupPort(l, g, i + 1, first);
    assert Generated(Wanted(count), l)[i] == p;
    hide Grouped;
    MarkedPort(count, layout, i);
    BuiltByNames(p, layout, layout, i, p.speed, p.media, g.uplink);
  }

  /** The explicit uplink choice moves the mark and nothing else. */
  lemma MarkedPort(count: int, layout: Layout, i: nat)
    requires i < Wanted(count)
    ensures |Generated(Wanted(count), NormalLayout(layout))| == Wanted(count) == |SwitchPorts(count, layout)|
    ensures var p := Generated(Wanted(count), NormalLayout(layout))[i];
            SwitchPorts(count, layout)[i]
            == p.(uplink := if 1 <= layout.uplinkPort <= Wanted(count) then i + 1 == layout.uplinkPort else p.uplink)
  {
    hide Expand, GroupPort, PlainPort, FirstUplink, NormalLayout;
  }

  lemma GroupPortIs(layout: Layout, g: Group, i: nat, first: int)
    ensures var p := GroupPort(NormalLayout(layout), g, i + 1, first);
            && p.uplink == (i + 1 == first)
            && p.speed == (if i + 1 == first then UpSpeed(layout) else if g.speed <= 0 then BaseSpeed(layout) else g.speed)
            && p.media == Medium(if i + 1 == first then layout.uplinkMedia else g.media, p.speed)
            && BuiltAs(p, layout, i, p.speed, p.media, g.uplink)
  {
    var l := NormalLayout(layout);
    LayoutNormalIs(layout);
    hide NormalLayout, GeneratedPort, BuiltAs, UpSpeed, BaseSpeed;
    var speed := if i + 1 == first then UpSpeed(layout) else if g.speed <= 0 then BaseSpeed(layout) else g.speed;
    var media := Medium(if i + 1 == first then layout.uplinkMedia else g.media, speed);
    var p := GroupPort(l, g, i + 1, first);
    assert p == GeneratedPort(l, i + 1, speed, media, i + 1 == first, g.uplink);
    GeneratedIsBuilt(l, i, speed, media, i + 1 == first, g.uplink);
    BuiltByNames(p, l, layout, i, speed, media, g.uplink);
    BuiltSpeed(p, layout, i, speed, media, g.uplink);
  }

  lemma BuiltSpeed(p: Port, l: Layout, i: nat, speed: int, media: string, profileUplink: bool)
    requires BuiltAs(p, l, i, speed, media, profileUplink)
    ensures p.speed == speed && p.media == media
  {
    hide TrimSpace, Itoa, ToLower;
  }

  lemma SpanAt(groups: seq<Group>, k: nat, i: nat)
    requires (forall g <- groups :: g.count >= 1) && k < |groups|
    requires Total(groups[..k]) <= i < Total(groups[..k]) + groups[k].count
    ensures i < |Expand(groups)| && Expand(groups)[i] == groups[k]
  {
    assert groups[k] in groups && forall g <- groups[..k] :: g in groups;
    TotalIs(groups[..k]);
    GroupSpan(groups, k);
  }

  /** Ports of a layout without usable groups: the first has the uplink speed and medium, the
      others the layout's. */
  lemma PlainLayoutPort(count: int, layout: Layout, i: nat)
    requires layout.groups == [] || (exists g <- layout.groups :: g.count < 1) || Total(layout.groups) != Wanted(count)
    requires i < Wanted(count)
    ensures i < |SwitchPorts(count, layout)| == Wanted(count)
    ensures var p, speed := SwitchPorts(count, layout)[i], if i == 0 then UpSpeed(layout) else BaseSpeed(layout);
            && BuiltAs(p, layout, i, speed, Medium(if i == 0 then layout.uplinkMedia else layout.media, speed), i == 0)
            && (p.uplink <==> i + 1 == if 1 <= layout.uplinkPort <= Wanted(count) then layout.uplinkPort else 1)
  {
    var l := NormalLayout(layout);
    LayoutNormalIs(layout);
    if forall g <- layout.groups :: g.count >= 1 {
      TotalIs(layout.groups);
    }
    hide Expand, Total, NormalLayout, GeneratedPort, BuiltAs, GroupPort, FirstUplink;
    assert !Grouped(Wanted(count), l.groups);
    var speed := if i == 0 then UpSpeed(layout) else BaseSpeed(layout);
    var media := Medium(if i == 0 then layout.uplinkMedia else layout.media, speed);
    assert PlainPort(l, i + 1) == GeneratedPort(l, i + 1, speed, media, i == 0, i == 0);
    GeneratedIsBuilt(l, i, speed, media, i == 0, i == 0);
    BuiltByNames(PlainPort(l, i + 1), l, layout, i, speed, media, i == 0);
    assert Generated(Wanted(count), l)[i] == PlainPort(l, i + 1);
    hide PlainPort;
  }

  // ---- overridden ports ----

  /** A text an override gives, or what was there. */
  function Instead(given: string, before: string): string {
    if given == "" then before else given
  }

  /** A counter an override gives: always when it says its counters are set, otherwise unless zero. */
  function Count(o: Override, given: int, before: int): int {
    if o.countersSet || given != 0 then given else before
  }

  lemma SetStringsDoes(p: Port, o: Override)
    ensures var q := SetStrings(p, o);
            && q == p.(name := q.name, iface := q.iface, labels := q.labels, role := q.role, networkGroup := q.networkGroup)
            && q.name == Instead(TrimSpace(o.name), p.name) && q.iface == Instead(TrimSpace(o.iface), p.iface)
            && q.role == Instead(Normal(o.role), p.role) && q.networkGroup == Instead(TrimSpace(o.networkGroup), p.networkGroup)
            && q.labels.mac == Instead(Normal(o.labels.mac), p.labels.mac)
            && q.labels.ip == Instead(TrimSpace(o.labels.ip), p.labels.ip)
            && q.labels.netmask == Instead(TrimSpace(o.labels.netmask), p.labels.netmask)
            && q.labels.portConfID == Instead(TrimSpace(o.labels.portConfID), p.labels.portConfID)
            && q.labels.networkConfID == Instead(TrimSpace(o.labels.networkConfID), p.labels.networkConfID)
            && q.labels.nativeNetworkConfID == Instead(TrimSpace(o.labels.nativeNetworkConfID), p.labels.nativeNetworkConfID)
            && q.labels.networkName == Instead(TrimSpace(o.labels.networkName), p.labels.networkName)
  {
    hide TrimSpace, Normal;
  }

  lemma SetCountersDoes(p: Port, o: Override)
    ensures var q := SetCounters(p, o);
            && q == p.(counters := q.counters, countersSet := o.countersSet || p.countersSet)
            && q.counters.rxBytes == Count(o, o.counters.rxBytes, p.counters.rxBytes)
            && q.counters.txBytes == Count(o, o.counters.txBytes, p.counters.txBytes)
            && q.counters.rxPackets == Count(o, o.counters.rxPackets, p.counters.rxPackets)
            && q.counters.txPackets == Count(o, o.counters.txPackets, p.counters.txPackets)
            && q.counters.rxErrors == Count(o, o.counters.rxErrors, p.counters.rxErrors)
            && q.counters.txErrors == Count(o, o.counters.txErrors, p.counters.txErrors)
  {
  }

  lemma SetSpeedKeeps(p: Port, o: Override)
    ensures SetSpeed(p, o) == p.(speed := SetSpeed(p, o).speed, media := SetSpeed(p, o).media)
  {
    hide TrimSpace, MediaForSpeed;
  }

  lemma SetMediaKeeps(p: Port, o: Override)
    ensures SetMedia(p, o) == p.(media := SetMedia(p, o).media)
  {
    hide TrimSpace;
  }

  lemma SetLinkStateKeeps(p: Port, o: Override)
    ensures SetLinkState(p, o) == p.(up := SetLinkState(p, o).up, speed := SetLinkState(p, o).speed)
  {
  }

  lemma SetDisabledKeeps(p: Port, o: Override)
    ensures var q := SetDisabled(p, o);
            q == p.(up := q.up, speed := q.speed, macs := q.macs, disabled := o.disabled || p.disabled,
                    ipv6 := if o.disabled then [] else p.ipv6)
  {
  }

  lemma SetRatesDoes(p: Port, o: Override)
    ensures SetRates(p, o) == p.(rates := if o.rates.Some? then o.rates else p.rates)
  {
  }

  /** What an override makes of a port's description and counters: every text it gives replaces
      the old one, trimmed and for the role and the MAC in lower case; the VLAN and the WAN record
      are always replaced; addresses are replaced when given and dropped with the link when the
      port is disabled; and a disabled port stays disabled. */
  lemma OverriddenFields(p: Port, o: Override)
    ensures var q := Overridden(p, o);
            && q.name == Instead(TrimSpace(o.name), p.name) && q.iface == Instead(TrimSpace(o.iface), p.iface)
            && q.role == Instead(Normal(o.role), p.role) && q.profileRole == p.profileRole
            && q.networkGroup == Instead(TrimSpace(o.networkGroup), p.networkGroup)
            && q.labels == SetStrings(p, o).labels
            && q.vlan == o.vlan && q.wan == o.wan
            && q.ipv6 == (if o.disabled then [] else if o.ipv6 != [] then o.ipv6 else p.ipv6)
            && q.disabled == (p.disabled || o.disabled)
            && q.rates == (if o.rates.Some? then o.rates else p.rates)
            && q.counters == SetCounters(p, o).counters && q.countersSet == (p.countersSet || o.countersSet)
  {
    var p1 := SetStrings(p, o);
    var p2 := SetAssignment(p1, o);
    var p3 := SetSpeed(p2, o);
    var p4 := p3.(wan := o.wan);
    var p5 := SetCounters(p4, o);
    var p6 := SetRates(p5, o);
    var p7 := SetMedia(p6, o);
    var p8 := SetLinkState(p7, o);
    SetStringsDoes(p, o);
    assert p2 == p1.(vlan := o.vlan, ipv6 := if o.ipv6 != [] then o.ipv6 else p1.ipv6);
    SetSpeedKeeps(p2, o);
    SetCountersDoes(p4, o);
    SetCountersDoes(p, o);
    SetRatesDoes(p5, o);
    SetMediaKeeps(p6, o);
    SetLinkStateKeeps(p7, o);
    SetDisabledKeeps(p8, o);
    hide SetStrings, SetAssignment, SetSpeed, SetCounters, SetRates, SetMedia, SetLinkState, SetDisabled, TrimSpace, Normal, Instead, Count;
  }

  /** The overrides meant for one port, in order. */
  function OverridesFor(overrides: seq<Override>, port: int): seq<Override> {
    if overrides == [] then []
    else (if overrides[0].port == port then [overrides[0]] else []) + OverridesFor(overrides[1..], port)
  }

  function OverriddenBy(p: Port, overrides: seq<Override>): Port
    decreases |overrides|
  {
    if overrides == [] then p else OverriddenBy(Overridden(p, overrides[0]), overrides[1..])
  }

  lemma OverriddenFirst(p: Port, o: Override, rest: seq<Override>)
    ensures OverriddenBy(p, [o] + rest) == OverriddenBy(Overridden(p, o), rest)
    ensures OverriddenBy(p, [] + rest) == OverriddenBy(p, rest)
  {
    hide Overridden;
    assert ([o] + rest)[1..] == rest && [] + rest == rest;
  }

  /** Each port is changed by exactly the overrides that name it, one after the other; overrides
      for ports that do not exist do nothing. */
  lemma {:induction false} OverridesAtPort(ports: seq<Port>, overrides: seq<Override>, i: nat)
    requires i < |ports|
    ensures |Overrides(ports, overrides)| == |ports|
    ensures Overrides(ports, overrides)[i] == OverriddenBy(ports[i], OverridesFor(overrides, i + 1))
    decreases |overrides|
  {
    hide Overridden;
    if overrides != [] {
      var o := overrides[0];
      OverriddenFirst(ports[i], o, OverridesFor(overrides[1..], i + 1));
      OverridesAtPort(if 1 <= o.port <= |ports| then ports[o.port - 1 := Overridden(ports[o.port - 1], o)] else ports, overrides[1..], i);
    }
  }

  // ---- neighbors ----

  function IsClient(n: PortNeighbor): bool {
    TrimSpace(n.entry.kind) == "" || ToLower(TrimSpace(n.entry.kind)) == "client"
  }

  /** A configured entry as a port lists it: trimmed, its address in lower case, with defaults for
      age, uptime and kind. */
  ghost predicate EntryOf(e: MacEntry, given: MacEntry) {
    && e.mac == Normal(given.mac) && e.hostname == TrimSpace(given.hostname) && e.ip == TrimSpace(given.ip)
    && e.age == (if given.age == 0 then 4 else given.age) && e.uptime == (if given.uptime == 0 then 1200 else given.uptime)
    && e.vlan == given.vlan && e.fixed == given.fixed
    && e.kind == if TrimSpace(given.kind) == "" then "client" else given.kind
  }

  /** A client on a port. An address the port does not list yet comes last; one it lists keeps
      its place, and the configured entry replaces it except where it leaves the host name, the
      IP or the VLAN blank; a fixed address stays fixed. Nothing else about the port changes. */
  lemma ClientJoins(p: Port, n: PortNeighbor) returns (e: MacEntry)
    requires IsClient(n)
    ensures EntryOf(e, n.entry)
    ensures !Listed(p.macs, e.mac) ==> WithNeighbor(p, n) == p.(macs := p.macs + [e])
    ensures Listed(p.macs, e.mac) ==>
              exists i :: 0 <= i < |p.macs| && SameFold(p.macs[i].mac, e.mac)
                          && (forall j :: 0 <= j < i ==> !SameFold(p.macs[j].mac, e.mac))
                          && WithNeighbor(p, n) == p.(macs := p.macs[i := MacEntry(
                               e.mac,
                               if e.hostname == "" then p.macs[i].hostname else e.hostname,
                               if e.ip == "" then p.macs[i].ip else e.ip,
                               e.age, e.uptime,
                               if e.vlan == 0 then p.macs[i].vlan else e.vlan,
                               p.macs[i].fixed || e.fixed,
                               e.kind)])
  {
    e := NormalEntry(n.entry);
    ClientByKind(n);
    UpsertMeans(p.macs, e);
    TrimTwice(n.entry.hostname);
    TrimTwice(n.entry.ip);
    hide TrimSpace, SameFold, Upserted, Normal;
  }

  lemma ClientByKind(n: PortNeighbor)
    ensures SameFold(TrimSpace(NormalEntry(n.entry).kind), "client") <==> IsClient(n)
  {
    var s := "client";
    assert |s| == 6 && s[0] == 'c' && s[1] == 'l' && s[2] == 'i' && s[3] == 'e' && s[4] == 'n' && s[5] == 't';
    assert TrimSpace(s) == s && ToLower(s) == s by {
      hide ToLower;
      assert forall i :: 0 <= i < |s| ==> !('A' <= s[i] <= 'Z');
      assert ToLower(s) == s;
    }
    hide TrimSpace, ToLower;
  }

  /** Any other device on a port becomes a configured neighbor, listed last. */
  lemma InfrastructureJoins(p: Port, n: PortNeighbor) returns (e: MacEntry)
    requires !IsClient(n)
    ensures EntryOf(e, n.entry)
    ensures WithNeighbor(p, n) == p.(neighbors := p.neighbors + [Neighbor(
              e.mac, e.hostname, e.ip, e.kind, e.vlan, e.age, e.uptime, n.remotePort, "", ConfigPort, e.fixed)])
  {
    e := NormalEntry(n.entry);
    ClientByKind(n);
    hide TrimSpace, SameFold, Normal;
  }

  /** The configured uplink neighbor joins the one uplink port, marked as configured there; without
      an address it is no neighbor. */
  lemma UplinkNeighborJoins(ports: seq<Port>, neighbor: Option<Neighbor>, u: nat)
    requires UplinkAt(ports, u)
    ensures WithUplinkNeighbor(ports, neighbor) ==
              if neighbor.None? || TrimSpace(neighbor.value.mac) == "" then ports
              else ports[u := ports[u].(neighbors := ports[u].neighbors + [neighbor.value.(source := ConfigUplink)])]
  {
    hide TrimSpace, OnFirstUplink;
    if neighbor.Some? {
      UplinkGainsNeighbor(ports, neighbor.value.(source := ConfigUplink), u);
    }
  }

  /** The neighbors configured for a port: those that name it and have an address, in order. */
  ghost function ConfiguredFor(neighbors: seq<PortNeighbor>, port: int): seq<PortNeighbor> {
    if neighbors == [] then []
    else
      (if neighbors[0].port == port && TrimSpace(neighbors[0].entry.mac) != "" then [neighbors[0]] else [])
      + ConfiguredFor(neighbors[1..], port)
  }

  lemma {:induction false} MeantIsConfigured(neighbors: seq<PortNeighbor>, port: int, count: nat)
    requires 1 <= port <= count
    ensures MeantFor(neighbors, port, count) == ConfiguredFor(neighbors, port)
  {
    hide TrimSpace;
    if neighbors != [] {
      MeantIsConfigured(neighbors[1..], port, count);
    }
  }

  /** Each port takes on, one after the other, the neighbors that name it and have an address. */
  lemma ConfiguredNeighborsJoin(ports: seq<Port>, neighbors: seq<PortNeighbor>, i: nat)
    requires i < |ports|
    ensures |WithNeighbors(ports, neighbors)| == |ports|
    ensures WithNeighbors(ports, neighbors)[i] == Adjoined(ports[i], ConfiguredFor(neighbors, i + 1))
  {
    hide WithNeighbors, Adjoined, TrimSpace;
    NeighborsAtPort(ports, neighbors, i);
    MeantIsConfigured(neighbors, i + 1, |ports|);
  }
}
