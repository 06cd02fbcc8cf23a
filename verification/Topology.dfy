/** Directed topology edges: one infrastructure neighbor per port, then one direction per
    neighbor. */
module Topology {
  import opened Basics
  import opened Runes
  import opened Ports
  import opened Directions

  /** A MAC text's canonical form, when it has one. */
  type Parser = string -> Option<string>

  function Key(parse: Parser, mac: string): string {
    parse(mac).GetOr(Normal(mac))
  }

  // ---- one port's neighbor ----

  function Normalized(parse: Parser, n: Neighbor): Option<Neighbor> {
    if parse(n.mac).None? then None
    else Some(n.(mac := parse(n.mac).value, hostname := TrimSpace(n.hostname), ip := TrimSpace(n.ip),
                 deviceType := Normal(n.deviceType), remotePortID := TrimSpace(n.remotePortID)))
  }

  function TextOr(fallback: string, preferred: string): string {
    if TrimSpace(preferred) == "" then fallback else preferred
  }

  function NumberOr(fallback: int, preferred: int): int {
    if preferred == 0 then fallback else preferred
  }

  /** The preferred record with its blanks filled in from the other. */
  function Merged(fallback: Neighbor, preferred: Neighbor): Neighbor {
    preferred.(hostname := TextOr(fallback.hostname, preferred.hostname), ip := TextOr(fallback.ip, preferred.ip),
               deviceType := TextOr(fallback.deviceType, preferred.deviceType), vlan := NumberOr(fallback.vlan, preferred.vlan),
               age := NumberOr(fallback.age, preferred.age), uptime := NumberOr(fallback.uptime, preferred.uptime),
               remotePort := NumberOr(fallback.remotePort, preferred.remotePort),
               remotePortID := TextOr(fallback.remotePortID, preferred.remotePortID), fixed := preferred.fixed || fallback.fixed)
  }

  /** The distinct neighbors a port heard of, configured ones apart from LLDP ones. */
  datatype Heard = Heard(configured: map<string, Neighbor>, lldp: map<string, Neighbor>)

  function Noted(m: map<string, Neighbor>, key: string, n: Neighbor): map<string, Neighbor> {
    m[key := if key in m then Merged(m[key], n) else n]
  }

  function HeardOne(parse: Parser, h: Heard, raw: Neighbor): Heard {
    match Normalized(parse, raw)
    case None => h
    case Some(n) =>
      if n.source == Lldp then h.(lldp := Noted(h.lldp, Key(parse, n.mac), n))
      else h.(configured := Noted(h.configured, Key(parse, n.mac), n))
  }

  function Hear(parse: Parser, neighbors: seq<Neighbor>): Heard
    decreases |neighbors|
  {
    if neighbors == [] then Heard(map[], map[])
    else HeardOne(parse, Hear(parse, neighbors[..|neighbors| - 1]), neighbors[|neighbors| - 1])
  }

  datatype PortWarning =
    | OverridesLldp(port: int, mac: string, lldpMac: string)
    | Ambiguous(port: int, keys: set<string>)

  datatype PortAnswer =
    | Conflict(port: int, keys: set<string>)
    | Answer(neighbor: Option<Neighbor>, warnings: set<PortWarning>)

  ghost function OnlyKey<V>(m: map<string, V>): string
    requires m != map[]
  {
    assert m.Keys != {};
    var k :| k in m.Keys; k
  }

  lemma SoleKey<V>(m: map<string, V>, k: string)
    requires |m| == 1 && k in m
    ensures m.Keys == {k} && m != map[] && OnlyKey(m) == k
  {
    assert |m.Keys| == 1 && |m.Keys - {k}| == 0;
    assert m.Keys - {k} == {};
  }

  /** Configuration beats LLDP; two configured neighbors are a conflict; two LLDP neighbors
      settle nothing. */
  ghost function Settled(parse: Parser, index: int, h: Heard): PortAnswer {
    if |h.configured| > 1 then Conflict(index, h.configured.Keys)
    else if h.configured != map[] then
      var n := h.configured[OnlyKey(h.configured)];
      var key := Key(parse, n.mac);
      Answer(Some(if key in h.lldp then Merged(h.lldp[key], n) else n),
             set mac | mac in h.lldp && mac != key :: OverridesLldp(index, n.mac, h.lldp[mac].mac))
    else if |h.lldp| > 1 then Answer(None, {Ambiguous(index, h.lldp.Keys)})
    else if h.lldp != map[] then Answer(Some(h.lldp[OnlyKey(h.lldp)]), {})
    else Answer(None, {})
  }

  method HearNeighbors(parse: Parser, neighbors: seq<Neighbor>) returns (configured: map<string, Neighbor>, lldp: map<string, Neighbor>)
    ensures Heard(configured, lldp) == Hear(parse, neighbors)
  {
    hide Merged, Normalized, Key;
    configured, lldp := map[], map[];
    for i := 0 to |neighbors|
      invariant Heard(configured, lldp) == Hear(parse, neighbors[..i])
    {
      assert neighbors[..i + 1][..i] == neighbors[..i];
      var n := Normalized(parse, neighbors[i]);
      if n.None? {
        continue;
      }
      var key := Key(parse, n.value.mac);
      if n.value.source != Lldp {
        configured := configured[key := if key in configured then Merged(configured[key], n.value) else n.value];
      } else {
        lldp := lldp[key := if key in lldp then Merged(lldp[key], n.value) else n.value];
      }
    }
    assert neighbors[..|neighbors|] == neighbors;
  }

  method ResolvePortNeighbor(parse: Parser, port: Port) returns (r: PortAnswer)
    ensures r == Settled(parse, port.index, Hear(parse, port.neighbors))
  {
    hide Hear, Merged, Key;
    var configured, lldp := HearNeighbors(parse, port.neighbors);
    if |configured| > 1 {
      return Conflict(port.index, configured.Keys);
    }
    if |configured| == 1 {
      assert configured.Keys != {};
      var only :| only in configured.Keys;
      SoleKey(configured, only);
      var neighbor := configured[only];
      ghost var first := neighbor;
      var key := Key(parse, neighbor.mac);
      var warnings := {};
      var left := lldp.Keys;
      while left != {}
        invariant left <= lldp.Keys
        invariant neighbor == if key in lldp.Keys - left then Merged(lldp[key], first) else first
        invariant neighbor.mac == first.mac
        invariant warnings == set mac | mac in lldp.Keys - left && mac != key :: OverridesLldp(port.index, first.mac, lldp[mac].mac)
        decreases |left|
      {
        var mac :| mac in left;
        left := left - {mac};
        if mac == Key(parse, neighbor.mac) {
          neighbor := Merged(lldp[mac], neighbor);
          MergedKeepsIdentity(lldp[mac], first);
        } else {
          warnings := warnings + {OverridesLldp(port.index, neighbor.mac, lldp[mac].mac)};
        }
      }
      assert lldp.Keys - left == lldp.Keys;
      return Answer(Some(neighbor), warnings);
    }
    assert configured.Keys == {};
    if |lldp| > 1 {
      return Answer(None, {Ambiguous(port.index, lldp.Keys)});
    }
    if |lldp| == 1 {
      assert lldp.Keys != {};
      var only :| only in lldp.Keys;
      SoleKey(lldp, only);
      return Answer(Some(lldp[only]), {});
    }
    assert lldp.Keys == {};
    return Answer(None, {});
  }

  lemma MergedKeepsIdentity(fallback: Neighbor, preferred: Neighbor)
    ensures Merged(fallback, preferred).mac == preferred.mac && Merged(fallback, preferred).source == preferred.source
  {
    hide TextOr;
  }

  /** An entry with a usable MAC names this neighbor. */
  predicate Names(parse: Parser, raw: Neighbor, key: string) {
    parse(raw.mac).Some? && Key(parse, parse(raw.mac).value) == key
  }

  /** Exactly the named neighbors are heard of, each under its own key and with its kind of
      source. */
  lemma {:induction false} HeardExactly(parse: Parser, neighbors: seq<Neighbor>, key: string)
    ensures var h := Hear(parse, neighbors);
            && (key in h.configured <==> exists raw :: raw in neighbors && Names(parse, raw, key) && raw.source != Lldp)
            && (key in h.lldp <==> exists raw :: raw in neighbors && Names(parse, raw, key) && raw.source == Lldp)
            && (key in h.configured ==> Key(parse, h.configured[key].mac) == key && h.configured[key].source != Lldp)
            && (key in h.lldp ==> Key(parse, h.lldp[key].mac) == key && h.lldp[key].source == Lldp)
    decreases |neighbors|
  {
    hide Merged, Key, TrimSpace, Normal;
    if neighbors != [] {
      var init, last := neighbors[..|neighbors| - 1], neighbors[|neighbors| - 1];
      HeardExactly(parse, init, key);
      assert neighbors == init + [last];
      var h := Hear(parse, init);
      if Names(parse, last, key) {
        var n := Normalized(parse, last).value;
        assert n.source == last.source && Key(parse, n.mac) == key;
        if key in h.configured { MergedKeepsIdentity(h.configured[key], n); }
        if key in h.lldp { MergedKeepsIdentity(h.lldp[key], n); }
      }
    }
  }

  ghost predicate NamedBy(parse: Parser, neighbors: seq<Neighbor>, key: string, lldp: bool) {
    exists raw :: raw in neighbors && Names(parse, raw, key) && (raw.source == Lldp) == lldp
  }

  /** A port errs exactly when two different neighbors are configured on it. Otherwise the
      configured neighbor is chosen whatever LLDP says; without one, LLDP is believed exactly
      when it names a single neighbor. */
  lemma PortNeighborChosen(parse: Parser, index: int, neighbors: seq<Neighbor>)
    ensures var r := Settled(parse, index, Hear(parse, neighbors));
            && (r.Conflict? <==> exists a, b :: NamedBy(parse, neighbors, a, false) && NamedBy(parse, neighbors, b, false) && a != b)
            && (r.Answer? ==>
                  && (forall k :: NamedBy(parse, neighbors, k, false) ==>
                        r.neighbor.Some? && Key(parse, r.neighbor.value.mac) == k && r.neighbor.value.source != Lldp)
                  && ((forall k :: !NamedBy(parse, neighbors, k, false)) ==>
                        (r.neighbor.Some? <==> exists k :: Sole(parse, neighbors, k))
                        && (r.neighbor.Some? ==> r.neighbor.value.source == Lldp && Sole(parse, neighbors, Key(parse, r.neighbor.value.mac)))))
  {
    hide Hear, Merged, Key, Names;
    var h := Hear(parse, neighbors);
    forall key
      ensures (key in h.configured <==> NamedBy(parse, neighbors, key, false)) && (key in h.lldp <==> NamedBy(parse, neighbors, key, true))
      ensures key in h.configured ==> Key(parse, h.configured[key].mac) == key && h.configured[key].source != Lldp
      ensures key in h.lldp ==> Key(parse, h.lldp[key].mac) == key && h.lldp[key].source == Lldp
    {
      HeardExactly(parse, neighbors, key);
    }
    hide NamedBy;
    ManyKeys(h.configured);
    ManyKeys(h.lldp);
    if |h.configured| <= 1 && h.configured != map[] {
      var n := h.configured[OnlyKey(h.configured)];
      var key := Key(parse, n.mac);
      if key in h.lldp { MergedKeepsIdentity(h.lldp[key], n); }
      assert forall k :: NamedBy(parse, neighbors, k, false) ==> k == OnlyKey(h.configured);
      assert NamedBy(parse, neighbors, OnlyKey(h.configured), false);
    } else if h.configured == map[] && |h.lldp| == 1 {
      assert Sole(parse, neighbors, OnlyKey(h.lldp));
    }
  }

  /** The only neighbor LLDP names. */
  ghost predicate Sole(parse: Parser, neighbors: seq<Neighbor>, k: string) {
    NamedBy(parse, neighbors, k, true) && forall other :: NamedBy(parse, neighbors, other, true) ==> other == k
  }

  lemma ManyKeys<V>(m: map<string, V>)
    ensures |m| > 1 <==> exists a, b :: a in m && b in m && a != b
    ensures m == map[] <==> forall a :: a !in m
    ensures |m| <= 1 && m != map[] ==> forall a :: a in m ==> a == OnlyKey(m)
  {
    if m != map[] {
      assert m.Keys != {};
      var k :| k in m.Keys;
      if |m| == 1 {
        SoleKey(m, k);
      } else {
        assert |m.Keys| == |m| && |m.Keys - {k}| == |m| - 1;
        if |m| > 1 {
          var other :| other in m.Keys - {k};
          assert k in m && other in m && other != k;
        }
      }
    }
  }

  // ---- edges ----

  datatype Edge = Edge(localPort: int, up: bool, neighbor: Neighbor)

  datatype Warning =
    | OnPort(warning: PortWarning)
    | BothDirections(mac: string)
    | Overruled(mac: string, up: bool, winner: Source, loser: Source)

  datatype Resolution =
    | PortConflict(port: int, keys: set<string>)
    | DirectionConflict(mac: string, previousPort: int, port: int)
    | Resolved(edges: seq<Edge>, warnings: multiset<Warning>)

  function Priority(s: Source): int {
    match s
    case ConfigUplink => 2
    case ConfigPort => 2
    case Lldp => 1
    case OtherSource(_) => 0
  }

  function MarkOf(parse: Parser, e: Edge): Mark {
    Mark(Key(parse, e.neighbor.mac), e.up, Priority(e.neighbor.source))
  }

  function Marks(parse: Parser, edges: seq<Edge>): (marks: seq<Mark>)
    ensures |marks| == |edges|
  {
    seq(|edges|, i requires 0 <= i < |edges| => MarkOf(parse, edges[i]))
  }

  function WarningFor(previous: Edge, e: Edge): Warning {
    var p, c := Priority(previous.neighbor.source), Priority(e.neighbor.source);
    if p == c then BothDirections(e.neighbor.mac)
    else if p > c then Overruled(e.neighbor.mac, previous.up, previous.neighbor.source, e.neighbor.source)
    else Overruled(e.neighbor.mac, e.up, e.neighbor.source, previous.neighbor.source)
  }

  function WarningsFor(edges: seq<Edge>, clashes: seq<Clash>): seq<Warning>
    requires forall c <- clashes :: c.previous < |edges| && c.index < |edges|
  {
    seq(|clashes|, i requires 0 <= i < |clashes| =>
      assert clashes[i] in clashes; WarningFor(edges[clashes[i].previous], edges[clashes[i].index]))
  }

  function KeptEdges(edges: seq<Edge>, keep: seq<bool>): seq<Edge>
    requires |edges| <= |keep|
    decreases |edges|
  {
    if edges == [] then []
    else
      var n := |edges| - 1;
      KeptEdges(edges[..n], keep) + if keep[n] then [edges[n]] else []
  }

  /** The edges after one direction is settled for each neighbor. */
  function Directed(parse: Parser, edges: seq<Edge>, warnings: multiset<Warning>): Resolution {
    var v := Judged(Marks(parse, edges), |edges|);
    if v.Failed? then
      DirectionConflict(edges[v.clash.index].neighbor.mac, edges[v.clash.previous].localPort, edges[v.clash.index].localPort)
    else Resolved(KeptEdges(edges, v.keep), warnings + multiset(WarningsFor(edges, v.clashes)))
  }

  lemma JudgedNext(parse: Parser, edges: seq<Edge>, n: nat)
    requires n < |edges|
    ensures Judged(Marks(parse, edges), n + 1) == Look(Marks(parse, edges), Judged(Marks(parse, edges), n), n)
  {
  }

  lemma {:induction false} FailureLasts(marks: seq<Mark>, i: nat, n: nat)
    requires i <= n <= |marks| && Judged(marks, i).Failed?
    ensures Judged(marks, n) == Judged(marks, i)
    decreases n
  {
    if i < n {
      FailureLasts(marks, i, n - 1);
    }
  }

  lemma WarningAdded(edges: seq<Edge>, clashes: seq<Clash>, c: Clash)
    requires forall x <- clashes :: x.previous < |edges| && x.index < |edges|
    requires c.previous < |edges| && c.index < |edges|
    ensures WarningsFor(edges, clashes + [c]) == WarningsFor(edges, clashes) + [WarningFor(edges[c.previous], edges[c.index])]
  {
    hide WarningFor;
  }

  method ResolveDirectionConflicts(parse: Parser, edges: seq<Edge>, found: multiset<Warning>) returns (r: Resolution)
    ensures r == Directed(parse, edges, found)
  {
    hide Key, Priority, WarningsFor, WarningFor, Judged, KeptEdges;
    ghost var marks := Marks(parse, edges);
    var byMAC: map<string, nat> := map[];
    var keep := new bool[|edges|](_ => true);
    var warnings := found;
    ghost var clashes: seq<Clash> := [];
    assert keep[..] == seq(|marks|, _ => true);
    NothingJudged(marks);
    assert WarningsFor(edges, []) == [] by { NoWarnings(edges); }
    for index := 0 to |edges|
      invariant Judged(marks, index) == Going(byMAC, keep[..], clashes)
      invariant warnings == found + multiset(WarningsFor(edges, clashes))
    {
      var e := edges[index];
      JudgedNext(parse, edges, index);
      assert marks[index] == MarkOf(parse, e);
      var key := Key(parse, e.neighbor.mac);
      if key !in byMAC {
        byMAC := byMAC[key := index];
        continue;
      }
      var previousIndex := byMAC[key];
      var previous := edges[previousIndex];
      assert marks[previousIndex] == MarkOf(parse, previous);
      if previous.up == e.up {
        continue;
      }
      var previousPriority, currentPriority := Priority(previous.neighbor.source), Priority(e.neighbor.source);
      if previousPriority == currentPriority && previousPriority > 1 {
        assert Judged(marks, index + 1) == Failed(Clash(previousIndex, index));
        FailureLasts(marks, index + 1, |edges|);
        return DirectionConflict(e.neighbor.mac, previous.localPort, e.localPort);
      }
      WarningAdded(edges, clashes, Clash(previousIndex, index));
      RightWarning(previous, e);
      if previousPriority == currentPriority {
        keep[previousIndex] := false;
        keep[index] := false;
        warnings := warnings + multiset{BothDirections(e.neighbor.mac)};
      } else if previousPriority > currentPriority {
        keep[index] := false;
        warnings := warnings + multiset{Overruled(e.neighbor.mac, previous.up, previous.neighbor.source, e.neighbor.source)};
      } else {
        keep[previousIndex] := false;
        byMAC := byMAC[key := index];
        warnings := warnings + multiset{Overruled(e.neighbor.mac, e.up, e.neighbor.source, previous.neighbor.source)};
      }
      clashes := clashes + [Clash(previousIndex, index)];
    }
    var filtered := FilterEdges(edges, keep);
    return Resolved(filtered, warnings);
  }

  method FilterEdges(edges: seq<Edge>, keep: array<bool>) returns (filtered: seq<Edge>)
    requires keep.Length == |edges|
    ensures filtered == KeptEdges(edges, keep[..])
  {
    filtered := [];
    for index := 0 to |edges|
      invariant filtered == KeptEdges(edges[..index], keep[..])
    {
      assert edges[..index + 1][..index] == edges[..index];
      if keep[index] {
        filtered := filtered + [edges[index]];
      }
    }
    assert edges[..|edges|] == edges;
  }

  lemma NothingJudged(marks: seq<Mark>)
    ensures Judged(marks, 0) == Going(map[], seq(|marks|, _ => true), [])
  {
  }

  lemma NoWarnings(edges: seq<Edge>)
    ensures WarningsFor(edges, []) == []
  {
  }

  lemma RightWarning(previous: Edge, e: Edge)
    ensures var p, c := Priority(previous.neighbor.source), Priority(e.neighbor.source);
            && (p == c ==> WarningFor(previous, e) == BothDirections(e.neighbor.mac))
            && (p > c ==> WarningFor(previous, e) == Overruled(e.neighbor.mac, previous.up, previous.neighbor.source, e.neighbor.source))
            && (p < c ==> WarningFor(previous, e) == Overruled(e.neighbor.mac, e.up, e.neighbor.source, previous.neighbor.source))
  {
  }

  // ---- all ports ----

  datatype Candidates = Stopped(port: int, keys: set<string>) | Found(edges: seq<Edge>, warnings: multiset<Warning>)

  ghost function OnPorts(warnings: set<PortWarning>): multiset<Warning> {
    multiset(set w | w in warnings :: OnPort(w))
  }

  /** One candidate edge for each port that settled on a neighbor; the first conflict stops. */
  ghost function Gathered(parse: Parser, ports: seq<Port>): Candidates
    decreases |ports|
  {
    if ports == [] then Found([], multiset{})
    else
      var before, port := Gathered(parse, ports[..|ports| - 1]), ports[|ports| - 1];
      if before.Stopped? then before
      else
        match Settled(parse, port.index, Hear(parse, port.neighbors))
        case Conflict(index, keys) => Stopped(index, keys)
        case Answer(neighbor, warnings) =>
          Found(if neighbor.Some? then before.edges + [Edge(port.index, port.uplink, neighbor.value)] else before.edges,
                before.warnings + OnPorts(warnings))
  }

  ghost function Topology(parse: Parser, ports: seq<Port>): Resolution {
    match Gathered(parse, ports)
    case Stopped(port, keys) => PortConflict(port, keys)
    case Found(edges, warnings) => Directed(parse, edges, warnings)
  }

  lemma {:induction false} StoppedForGood(parse: Parser, ports: seq<Port>, n: nat)
    requires n <= |ports| && Gathered(parse, ports[..n]).Stopped?
    ensures Gathered(parse, ports) == Gathered(parse, ports[..n])
    decreases |ports|
  {
    hide Settled, Hear;
    if n < |ports| {
      assert ports[..|ports| - 1][..n] == ports[..n];
      StoppedForGood(parse, ports[..|ports| - 1], n);
    } else {
      assert ports[..n] == ports;
    }
  }

  method ResolveTopology(parse: Parser, ports: seq<Port>) returns (r: Resolution)
    ensures r == Topology(parse, ports)
  {
    hide Settled, Hear, Directed;
    var edges: seq<Edge>, warnings: multiset<Warning> := [], multiset{};
    for i := 0 to |ports|
      invariant Gathered(parse, ports[..i]) == Found(edges, warnings)
    {
      var port := ports[i];
      assert ports[..i + 1][..i] == ports[..i];
      var answer := ResolvePortNeighbor(parse, port);
      if answer.Conflict? {
        ConflictNames(parse, port.index, port.neighbors);
        assert Gathered(parse, ports[..i + 1]).Stopped?;
        StoppedForGood(parse, ports, i + 1);
        return PortConflict(answer.port, answer.keys);
      }
      warnings := warnings + multiset(set w | w in answer.warnings :: OnPort(w));
      if answer.neighbor.Some? {
        edges := edges + [Edge(port.index, port.uplink, answer.neighbor.value)];
      }
    }
    assert ports[..|ports|] == ports;
    r := ResolveDirectionConflicts(parse, edges, warnings);
  }

  lemma ConflictNames(parse: Parser, index: int, neighbors: seq<Neighbor>)
    ensures var r := Settled(parse, index, Hear(parse, neighbors)); r.Conflict? ==> r.port == index
  {
    hide Hear, Key, Merged;
  }

  // ---- what the resolution guarantees ----

  /** Candidate edges keep the order of their ports and point up exactly on uplink ports. */
  lemma {:induction false} EdgesFollowPorts(parse: Parser, ports: seq<Port>)
    requires forall i :: 0 <= i < |ports| ==> ports[i].index == i + 1
    requires Gathered(parse, ports).Found?
    ensures var edges := Gathered(parse, ports).edges;
            && (forall i, j :: 0 <= i < j < |edges| ==> edges[i].localPort < edges[j].localPort)
            && (forall e <- edges :: 1 <= e.localPort <= |ports| && e.up == ports[e.localPort - 1].uplink)
    decreases |ports|
  {
    hide Settled, Hear;
    if ports != [] {
      var init := ports[..|ports| - 1];
      EdgesFollowPorts(parse, init);
      var before := Gathered(parse, init).edges;
      forall i | 0 <= i < |before|
        ensures before[i].localPort < |ports|
      {
        assert before[i] in before;
      }
    }
  }

  lemma OneUplinkOneUpEdge(parse: Parser, ports: seq<Port>)
    requires WellFormed(ports) && Gathered(parse, ports).Found?
    ensures OneUp(Marks(parse, Gathered(parse, ports).edges))
  {
    hide Gathered, Key;
    EdgesFollowPorts(parse, ports);
    var edges := Gathered(parse, ports).edges;
    var u :| UplinkAt(ports, u);
    forall i, j | 0 <= i < |edges| && 0 <= j < |edges| && edges[i].up && edges[j].up
      ensures i == j
    {
      assert edges[i] in edges && edges[j] in edges;
      assert edges[i].localPort == u + 1 == edges[j].localPort;
    }
  }

  lemma {:induction false} KeptAre(edges: seq<Edge>, keep: seq<bool>, e: Edge)
    requires |edges| <= |keep|
    ensures e in KeptEdges(edges, keep) <==> exists i :: 0 <= i < |edges| && keep[i] && edges[i] == e
    decreases |edges|
  {
    if edges != [] {
      var n := |edges| - 1;
      KeptAre(edges[..n], keep, e);
      assert forall i :: 0 <= i < n ==> edges[..n][i] == edges[i];
    }
  }

  /** Two edges of one neighbor that point opposite ways. */
  ghost predicate BothWays(parse: Parser, edges: seq<Edge>) {
    exists a, b :: a in edges && b in edges && Key(parse, a.neighbor.mac) == Key(parse, b.neighbor.mac) && a.up && !b.up
  }

  lemma BothWaysIsDisagreement(parse: Parser, edges: seq<Edge>, keep: seq<bool>)
    requires |keep| == |edges|
    ensures BothWays(parse, KeptEdges(edges, keep)) <==> Disagree(Marks(parse, edges), keep)
  {
    hide Key, KeptEdges, Priority;
    var marks, kept := Marks(parse, edges), KeptEdges(edges, keep);
    forall e
      ensures e in kept <==> exists i :: 0 <= i < |edges| && keep[i] && edges[i] == e
    {
      KeptAre(edges, keep, e);
    }
    if BothWays(parse, kept) {
      var a, b :| a in kept && b in kept && Key(parse, a.neighbor.mac) == Key(parse, b.neighbor.mac) && a.up && !b.up;
      var i :| 0 <= i < |edges| && keep[i] && edges[i] == a;
      var j :| 0 <= j < |edges| && keep[j] && edges[j] == b;
      assert Same(marks, i, j);
    }
    if Disagree(marks, keep) {
      var u, t :| 0 <= u < |marks| && 0 <= t < |marks| && keep[u] && keep[t] && Same(marks, u, t) && marks[u].up && !marks[t].up;
      assert edges[u] in kept && edges[t] in kept;
    }
  }

  lemma MarksAreWeak(parse: Parser, edges: seq<Edge>)
    ensures forall m <- Marks(parse, edges) :: m.prio <= 2
  {
  }

  /** On a list with one uplink port, resolution errs exactly on a port with two configured
      neighbors or on a neighbor configured both ways, and the edges it keeps give every
      neighbor one direction except for a downstream edge that was forgotten before the
      upstream edge won. */
  lemma TopologyAgreesIff(parse: Parser, ports: seq<Port>)
    requires WellFormed(ports)
    ensures var c, r := Gathered(parse, ports), Topology(parse, ports);
            && (r.PortConflict? <==> c.Stopped?)
            && (c.Found? ==>
                  var marks := Marks(parse, c.edges);
                  && (r.DirectionConflict? <==> Contradicted(marks, |marks|))
                  && (r.Resolved? ==> (BothWays(parse, r.edges) <==> exists u, t :: Forgotten(marks, u, t))))
  {
    hide Gathered, Key, KeptEdges, WarningsFor, Marks, Contradicted, Forgotten, BothWays, Judged;
    var c := Gathered(parse, ports);
    if c.Found? {
      var marks := Marks(parse, c.edges);
      OneUplinkOneUpEdge(parse, ports);
      MarksAreWeak(parse, c.edges);
      DisagreeIff(marks);
      var v := Judged(marks, |marks|);
      if v.Going? {
        BothWaysIsDisagreement(parse, c.edges, v.keep);
      }
    }
  }

  /** When moreover no neighbor is seen on two ports in one direction, the kept edges always
      agree: an edge is kept exactly when it is strictly stronger than the opposite one. */
  lemma TopologyKeepsTheStronger(parse: Parser, edges: seq<Edge>, warnings: multiset<Warning>)
    requires OnePerDirection(Marks(parse, edges))
    ensures var marks, r := Marks(parse, edges), Directed(parse, edges, warnings);
            && (r.DirectionConflict? <==> exists i, j :: Opposite(marks, i, j) && marks[i].prio == marks[j].prio == 2)
            && (r.Resolved? ==>
                  && !BothWays(parse, r.edges)
                  && forall e :: e in r.edges <==> exists i :: 0 <= i < |edges| && edges[i] == e && StrictlyStronger(marks, i))
  {
    hide Key, WarningsFor, Marks, BothWays, Judged, OnePerDirection, Opposite, StrictlyStronger, KeptEdges;
    var marks := Marks(parse, edges);
    MarksAreWeak(parse, edges);
    StrictlyStrongerStays(marks);
    var v := Judged(marks, |marks|);
    if v.Going? {
      BothWaysIsDisagreement(parse, edges, v.keep);
      forall e
        ensures e in KeptEdges(edges, v.keep) <==> exists i :: 0 <= i < |edges| && v.keep[i] && edges[i] == e
      {
        KeptAre(edges, v.keep, e);
      }
    }
  }

  /** Whatever the edges: no error and no new warning exactly when no neighbor is seen both
      ways, and then every edge is kept. */
  lemma QuietResolutionIff(parse: Parser, edges: seq<Edge>, warnings: multiset<Warning>)
    ensures var marks, r := Marks(parse, edges), Directed(parse, edges, warnings);
            && (r.Resolved? && r.warnings == warnings <==> OneWay(marks, |marks|))
            && (r.Resolved? && r.warnings == warnings ==> r.edges == edges)
  {
    hide Key, Judged, OneWay, Marks;
    var marks := Marks(parse, edges);
    QuietIff(marks, |marks|);
    var v := Judged(marks, |marks|);
    if v.Going? {
      var more := WarningsFor(edges, v.clashes);
      assert |warnings + multiset(more)| == |warnings| + |more|;
      if v.clashes == [] {
        assert multiset(more) == multiset{};
        AllKept(edges, v.keep);
      }
    }
  }

  lemma {:induction false} AllKept(edges: seq<Edge>, keep: seq<bool>)
    requires |edges| <= |keep| && forall i :: 0 <= i < |edges| ==> keep[i]
    ensures KeptEdges(edges, keep) == edges
    decreases |edges|
  {
    if edges != [] {
      AllKept(edges[..|edges| - 1], keep);
      assert edges == edges[..|edges| - 1] + [edges[|edges| - 1]];
    }
  }

  // ---- a list whose kept edges disagree ----

  function Seen(mac: string, source: Source): Neighbor {
    Neighbor(mac, "", "", "", 0, 0, 0, 0, "", source, false)
  }

  /** Three ports: the same neighbor over LLDP on two downstream ports, and configured on the uplink. */
  function Tangled(base: Port, mac: string): seq<Port> {
    [base.(index := 1, uplink := false, neighbors := [Seen(mac, Lldp)]),
     base.(index := 2, uplink := false, neighbors := [Seen(mac, Lldp)]),
     base.(index := 3, uplink := true, neighbors := [Seen(mac, ConfigUplink)])]
  }

  lemma SoleNeighborSettles(parse: Parser, index: int, mac: string, source: Source)
    requires parse(mac) == Some(mac)
    ensures Settled(parse, index, Hear(parse, [Seen(mac, source)])) == Answer(Some(Seen(mac, source)), {})
  {
    hide Merged;
    var n := Seen(mac, source);
    assert Normalized(parse, n) == Some(n) by { assert TrimSpace("") == "" && Normal("") == ""; }
    assert [n][..0] == [] && Hear(parse, []) == Heard(map[], map[]);
    hide Normalized;
    var h := Hear(parse, [n]);
    assert h == HeardOne(parse, Heard(map[], map[]), n);
    if source == Lldp {
      SoleKey(h.lldp, mac);
    } else {
      SoleKey(h.configured, mac);
      assert forall m :: m !in h.lldp;
    }
  }

  lemma GatheredNext(parse: Parser, ports: seq<Port>, port: Port, n: Neighbor)
    requires Gathered(parse, ports).Found? && Settled(parse, port.index, Hear(parse, port.neighbors)) == Answer(Some(n), {})
    ensures Gathered(parse, ports + [port])
         == Found(Gathered(parse, ports).edges + [Edge(port.index, port.uplink, n)], Gathered(parse, ports).warnings)
  {
    hide Settled, Hear;
    assert (ports + [port])[..|ports|] == ports;
    assert OnPorts({}) == multiset{};
  }

  function TangledEdges(mac: string): seq<Edge> {
    [Edge(1, false, Seen(mac, Lldp)), Edge(2, false, Seen(mac, Lldp)), Edge(3, true, Seen(mac, ConfigUplink))]
  }

  lemma TangledMarks(parse: Parser, mac: string)
    requires parse(mac) == Some(mac)
    ensures Marks(parse, TangledEdges(mac)) == [Mark(mac, false, 1), Mark(mac, false, 1), Mark(mac, true, 2)]
  {
  }

  lemma TangledIsDirected(parse: Parser, mac: string)
    requires parse(mac) == Some(mac)
    ensures var r := Directed(parse, TangledEdges(mac), multiset{});
            r.Resolved? && r.edges == [TangledEdges(mac)[1], TangledEdges(mac)[2]] && BothWays(parse, r.edges)
  {
    SameNeighborBothWays(parse, TangledEdges(mac)[1], TangledEdges(mac)[2]);
    hide BothWays, Key;
    TangledMarks(parse, mac);
    SecondDownstreamEdgeIsForgotten(mac);
    hide Judged, KeptEdges, Marks, Seen, WarningsFor;
    KeptOfThree(TangledEdges(mac), Judged(Marks(parse, TangledEdges(mac)), 3).keep);
  }

  /** A list numbered from one with one uplink on which resolution keeps edges of one neighbor
      both ways: the first LLDP edge loses to the configured uplink, the second is kept. */
  lemma ResolutionCanDisagree(parse: Parser, base: Port, mac: string)
    requires parse(mac) == Some(mac)
    ensures WellFormed(Tangled(base, mac))
    ensures var r := Topology(parse, Tangled(base, mac));
            && r.Resolved? && BothWays(parse, r.edges)
            && r.edges == [Edge(2, false, Seen(mac, Lldp)), Edge(3, true, Seen(mac, ConfigUplink))]
  {
    hide Gathered, Directed, BothWays, Tangled, WellFormed, Seen;
    TangledIsWellFormed(base, mac);
    TangledGathers(parse, base, mac);
    TangledIsDirected(parse, mac);
  }

  lemma TangledIsWellFormed(base: Port, mac: string)
    ensures WellFormed(Tangled(base, mac))
  {
    assert UplinkAt(Tangled(base, mac), 2);
  }

  lemma SameNeighborBothWays(parse: Parser, down: Edge, up: Edge)
    requires up.up && !down.up && up.neighbor.mac == down.neighbor.mac
    ensures BothWays(parse, [down, up])
  {
    hide Key;
    assert down in [down, up] && up in [down, up];
  }

  lemma KeptOfThree(edges: seq<Edge>, keep: seq<bool>)
    requires |edges| == 3 && keep == [false, true, true]
    ensures KeptEdges(edges, keep) == [edges[1], edges[2]]
  {
    assert edges[..2][..1] == edges[..1] && edges[..1][..0] == [];
    assert KeptEdges(edges[..1], keep) == [];
    assert KeptEdges(edges[..2], keep) == [edges[1]];
  }

  lemma TangledGathers(parse: Parser, base: Port, mac: string)
    requires parse(mac) == Some(mac)
    ensures Gathered(parse, Tangled(base, mac))
         == Found(TangledEdges(mac), multiset{})
  {
    var ports := Tangled(base, mac);
    assert Gathered(parse, []) == Found([], multiset{});
    hide Gathered, Settled, Hear, Seen;
    SoleNeighborSettles(parse, 1, mac, Lldp);
    SoleNeighborSettles(parse, 2, mac, Lldp);
    SoleNeighborSettles(parse, 3, mac, ConfigUplink);
    GatheredNext(parse, [], ports[0], Seen(mac, Lldp));
    GatheredNext(parse, [] + [ports[0]], ports[1], Seen(mac, Lldp));
    GatheredNext(parse, [] + [ports[0]] + [ports[1]], ports[2], Seen(mac, ConfigUplink));
    assert [] + [ports[0]] + [ports[1]] + [ports[2]] == ports;
  }
}
