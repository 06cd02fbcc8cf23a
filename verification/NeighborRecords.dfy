/** What is known of the neighbor a port settles on, field by field, and what is warned about. */
module NeighborRecords {
  import opened Basics
  import opened Runes
  import opened Ports
  import opened Topology
  import opened Directions

  // ---- the last word ----

  datatype TextField = HostText | IpText | TypeText | PortText

  datatype NumberField = VlanNumber | AgeNumber | UptimeNumber | PortNumber

  /** The texts an entry gives, trimmed, the type in lower case. */
  ghost function TextIn(n: Neighbor, field: TextField): string {
    match field
    case HostText => TrimSpace(n.hostname)
    case IpText => TrimSpace(n.ip)
    case TypeText => Normal(n.deviceType)
    case PortText => TrimSpace(n.remotePortID)
  }

  ghost function NumberIn(n: Neighbor, field: NumberField): int {
    match field
    case VlanNumber => n.vlan
    case AgeNumber => n.age
    case UptimeNumber => n.uptime
    case PortNumber => n.remotePort
  }

  /** The last text that is not blank. */
  ghost function LastText(entries: seq<Neighbor>, field: TextField): string {
    if entries == [] then ""
    else
      var text := TextIn(entries[|entries| - 1], field);
      if text != "" then text else LastText(entries[..|entries| - 1], field)
  }

  /** The last number that is not zero. */
  ghost function LastNumber(entries: seq<Neighbor>, field: NumberField): int {
    if entries == [] then 0
    else
      var number := NumberIn(entries[|entries| - 1], field);
      if number != 0 then number else LastNumber(entries[..|entries| - 1], field)
  }

  /** The entries that name a neighbor, from LLDP or from the configuration, in order. */
  ghost function Entries(parse: Parser, neighbors: seq<Neighbor>, key: string, lldp: bool): seq<Neighbor> {
    if neighbors == [] then []
    else
      var last := neighbors[|neighbors| - 1];
      Entries(parse, neighbors[..|neighbors| - 1], key, lldp)
      + if Names(parse, last, key) && (last.source == Lldp) == lldp then [last] else []
  }

  /** A record of a neighbor: its address and source are the last entry's, every other field is
      the last word on it among the entries, and it is fixed when any of them is. */
  ghost predicate RecordOf(parse: Parser, r: Neighbor, entries: seq<Neighbor>) {
    && entries != []
    && Some(r.mac) == parse(entries[|entries| - 1].mac) && r.source == entries[|entries| - 1].source
    && r.hostname == LastText(entries, HostText) && r.ip == LastText(entries, IpText)
    && r.deviceType == LastText(entries, TypeText) && r.remotePortID == LastText(entries, PortText)
    && r.vlan == LastNumber(entries, VlanNumber) && r.age == LastNumber(entries, AgeNumber)
    && r.uptime == LastNumber(entries, UptimeNumber) && r.remotePort == LastNumber(entries, PortNumber)
    && (r.fixed <==> exists n :: n in entries && n.fixed)
  }

  lemma LastAppended(entries: seq<Neighbor>, more: Neighbor, text: TextField, number: NumberField)
    ensures LastText(entries + [more], text) == if TextIn(more, text) != "" then TextIn(more, text) else LastText(entries, text)
    ensures LastNumber(entries + [more], number) == if NumberIn(more, number) != 0 then NumberIn(more, number) else LastNumber(entries, number)
  {
    hide TextIn, NumberIn;
    var all := entries + [more];
    assert all[..|all| - 1] == entries;
  }

  /** Texts are trimmed already. */
  lemma TrimmedText(n: Neighbor, field: TextField)
    ensures TrimSpace(TextIn(n, field)) == TextIn(n, field)
  {
    TrimTwice(n.hostname);
    TrimTwice(n.ip);
    TrimTwice(n.remotePortID);
    TrimTwice(n.deviceType);
    TrimAndLowerCommute(TrimSpace(n.deviceType));
    hide TrimSpace, ToLower;
  }

  lemma NormalizedTexts(parse: Parser, raw: Neighbor)
    requires parse(raw.mac).Some?
    ensures var n := Normalized(parse, raw).value;
            && Some(n.mac) == parse(raw.mac) && n.source == raw.source && n.fixed == raw.fixed
            && n.hostname == TextIn(raw, HostText) && n.ip == TextIn(raw, IpText)
            && n.deviceType == TextIn(raw, TypeText) && n.remotePortID == TextIn(raw, PortText)
            && n.vlan == NumberIn(raw, VlanNumber) && n.age == NumberIn(raw, AgeNumber)
            && n.uptime == NumberIn(raw, UptimeNumber) && n.remotePort == NumberIn(raw, PortNumber)
  {
    hide TrimSpace, Normal;
  }

  lemma AllAppended(entries: seq<Neighbor>, raw: Neighbor)
    ensures forall text :: LastText(entries + [raw], text) == if TextIn(raw, text) != "" then TextIn(raw, text) else LastText(entries, text)
    ensures forall number ::
              LastNumber(entries + [raw], number) == if NumberIn(raw, number) != 0 then NumberIn(raw, number) else LastNumber(entries, number)
    ensures forall text :: TrimSpace(TextIn(raw, text)) == TextIn(raw, text)
    ensures forall n :: n in entries + [raw] <==> n in entries || n == raw
    ensures (entries + [raw])[|entries + [raw]| - 1] == raw
  {
    hide TextIn, NumberIn, LastText, LastNumber, TrimSpace;
    forall text: TextField
      ensures LastText(entries + [raw], text) == if TextIn(raw, text) != "" then TextIn(raw, text) else LastText(entries, text)
    {
      LastAppended(entries, raw, text, VlanNumber);
    }
    forall number: NumberField
      ensures LastNumber(entries + [raw], number) == if NumberIn(raw, number) != 0 then NumberIn(raw, number) else LastNumber(entries, number)
    {
      LastAppended(entries, raw, HostText, number);
    }
    forall text: TextField
      ensures TrimSpace(TextIn(raw, text)) == TextIn(raw, text)
    {
      TrimmedText(raw, text);
    }
  }

  /** One entry alone is its own record. */
  lemma FirstRecord(parse: Parser, raw: Neighbor)
    requires parse(raw.mac).Some?
    ensures RecordOf(parse, Normalized(parse, raw).value, [] + [raw])
  {
    NormalizedTexts(parse, raw);
    AllAppended([], raw);
    NothingSaid();
    hide TextIn, NumberIn, LastText, LastNumber, TrimSpace, Normalized;
  }

  lemma NothingSaid()
    ensures forall text :: LastText([], text) == ""
    ensures forall number :: LastNumber([], number) == 0
  {
  }

  /** A later entry merged in gives the record of all of them. */
  lemma RecordGrows(parse: Parser, r: Neighbor, entries: seq<Neighbor>, raw: Neighbor)
    requires RecordOf(parse, r, entries) && parse(raw.mac).Some?
    ensures RecordOf(parse, Merged(r, Normalized(parse, raw).value), entries + [raw])
  {
    NormalizedTexts(parse, raw);
    AllAppended(entries, raw);
    hide TextIn, NumberIn, LastText, LastNumber, TrimSpace, Normalized;
  }

  /** What a port remembers of a neighbor is the record of the entries that name it. */
  lemma {:induction false} HeardRecord(parse: Parser, neighbors: seq<Neighbor>, key: string)
    ensures var h := Hear(parse, neighbors);
            && (key in h.lldp <==> Entries(parse, neighbors, key, true) != [])
            && (key in h.lldp ==> RecordOf(parse, h.lldp[key], Entries(parse, neighbors, key, true)))
            && (key in h.configured <==> Entries(parse, neighbors, key, false) != [])
            && (key in h.configured ==> RecordOf(parse, h.configured[key], Entries(parse, neighbors, key, false)))
    decreases |neighbors|
  {
    hide RecordOf, Merged, Normalized;
    if neighbors != [] {
      var init, last := neighbors[..|neighbors| - 1], neighbors[|neighbors| - 1];
      HeardRecord(parse, init, key);
      var h := Hear(parse, init);
      var lldp, configured := Entries(parse, init, key, true), Entries(parse, init, key, false);
      assert lldp + [] == lldp && configured + [] == configured;
      NormalizedNames(parse, last, key);
      if Names(parse, last, key) {
        FirstRecord(parse, last);
        if key in h.lldp { RecordGrows(parse, h.lldp[key], lldp, last); }
        if key in h.configured { RecordGrows(parse, h.configured[key], configured, last); }
      }
    }
  }

  lemma NormalizedNames(parse: Parser, raw: Neighbor, key: string)
    ensures Normalized(parse, raw).Some? <==> parse(raw.mac).Some?
    ensures Names(parse, raw, key) <==> Normalized(parse, raw).Some? && Key(parse, Normalized(parse, raw).value.mac) == key
    ensures Normalized(parse, raw).Some? ==> Normalized(parse, raw).value.source == raw.source
  {
    hide TrimSpace, Normal;
  }

  /** Over two lists the second has the last word. */
  lemma {:induction false} LastOver(a: seq<Neighbor>, b: seq<Neighbor>, text: TextField, number: NumberField)
    ensures LastText(a + b, text) == if LastText(b, text) != "" then LastText(b, text) else LastText(a, text)
    ensures LastNumber(a + b, number) == if LastNumber(b, number) != 0 then LastNumber(b, number) else LastNumber(a, number)
    decreases |b|
  {
    hide TextIn, NumberIn;
    if b == [] {
      assert a + b == a;
    } else {
      var init, last := b[..|b| - 1], b[|b| - 1];
      LastOver(a, init, text, number);
      LastAppended(a + init, last, text, number);
      LastAppended(init, last, text, number);
      assert a + b == a + init + [last] && b == init + [last];
    }
  }

  lemma {:induction false} LastIsTrimmed(entries: seq<Neighbor>, text: TextField)
    ensures TrimSpace(LastText(entries, text)) == LastText(entries, text)
  {
    if entries == [] {
      assert TrimSpace("") == "";
    } else {
      hide TextIn, TrimSpace;
      TrimmedText(entries[|entries| - 1], text);
      LastIsTrimmed(entries[..|entries| - 1], text);
    }
  }

  lemma MergedRecord(parse: Parser, fallback: Neighbor, a: seq<Neighbor>, preferred: Neighbor, b: seq<Neighbor>)
    requires RecordOf(parse, fallback, a) && RecordOf(parse, preferred, b)
    ensures RecordOf(parse, Merged(fallback, preferred), a + b)
  {
    AllOver(a, b);
    hide TextIn, NumberIn, LastText, LastNumber, TrimSpace;
  }

  lemma AllOver(a: seq<Neighbor>, b: seq<Neighbor>)
    requires b != []
    ensures forall text :: LastText(a + b, text) == if LastText(b, text) != "" then LastText(b, text) else LastText(a, text)
    ensures forall number :: LastNumber(a + b, number) == if LastNumber(b, number) != 0 then LastNumber(b, number) else LastNumber(a, number)
    ensures forall text :: TrimSpace(LastText(b, text)) == LastText(b, text)
    ensures forall n :: n in a + b <==> n in a || n in b
    ensures (a + b)[|a + b| - 1] == b[|b| - 1]
  {
    hide TextIn, NumberIn, LastText, LastNumber, TrimSpace;
    forall text: TextField
      ensures LastText(a + b, text) == if LastText(b, text) != "" then LastText(b, text) else LastText(a, text)
      ensures TrimSpace(LastText(b, text)) == LastText(b, text)
    {
      LastOver(a, b, text, VlanNumber);
      LastIsTrimmed(b, text);
    }
    forall number: NumberField
      ensures LastNumber(a + b, number) == if LastNumber(b, number) != 0 then LastNumber(b, number) else LastNumber(a, number)
    {
      LastOver(a, b, HostText, number);
    }
  }

  /** The neighbor a port settles on. A configured one is known by all entries that name it, LLDP's
      first and the configuration's with the last word; without one the neighbor is LLDP's. */
  lemma SettledRecord(parse: Parser, index: int, neighbors: seq<Neighbor>)
    ensures var r := Settled(parse, index, Hear(parse, neighbors));
            r.Answer? && r.neighbor.Some? ==>
              var n := r.neighbor.value;
              var key := Key(parse, n.mac);
              RecordOf(parse, n, Entries(parse, neighbors, key, true) + Entries(parse, neighbors, key, false))
  {
    var h := Hear(parse, neighbors);
    ManyKeys(h.configured);
    ManyKeys(h.lldp);
    hide Hear, RecordOf, Merged, Key, Entries;
    if h.configured != map[] {
      ConfiguredRecord(parse, neighbors, OnlyKey(h.configured));
    } else if h.lldp != map[] {
      LldpRecord(parse, neighbors, OnlyKey(h.lldp));
    }
  }

  lemma ConfiguredRecord(parse: Parser, neighbors: seq<Neighbor>, key: string)
    requires key in Hear(parse, neighbors).configured
    ensures var h := Hear(parse, neighbors);
            var n := h.configured[key];
            var chosen := if key in h.lldp then Merged(h.lldp[key], n) else n;
            && Key(parse, n.mac) == key && Key(parse, chosen.mac) == key
            && RecordOf(parse, chosen, Entries(parse, neighbors, key, true) + Entries(parse, neighbors, key, false))
  {
    var h := Hear(parse, neighbors);
    var n := h.configured[key];
    HeardExactly(parse, neighbors, key);
    HeardRecord(parse, neighbors, key);
    hide Hear, RecordOf, Merged, Key, Names, Entries;
    if key in h.lldp {
      MergedKeepsIdentity(h.lldp[key], n);
      MergedRecord(parse, h.lldp[key], Entries(parse, neighbors, key, true), n, Entries(parse, neighbors, key, false));
    } else {
      assert [] + Entries(parse, neighbors, key, false) == Entries(parse, neighbors, key, false);
    }
  }

  lemma LldpRecord(parse: Parser, neighbors: seq<Neighbor>, key: string)
    requires key in Hear(parse, neighbors).lldp && key !in Hear(parse, neighbors).configured
    ensures var n := Hear(parse, neighbors).lldp[key];
            Key(parse, n.mac) == key && RecordOf(parse, n, Entries(parse, neighbors, key, true) + Entries(parse, neighbors, key, false))
  {
    HeardExactly(parse, neighbors, key);
    HeardRecord(parse, neighbors, key);
    hide Hear, RecordOf, Merged, Key, Names, Entries;
    assert Entries(parse, neighbors, key, true) + [] == Entries(parse, neighbors, key, true);
  }

  /** What is heard, in terms of the entries. */
  ghost predicate HeardFrom(parse: Parser, neighbors: seq<Neighbor>, h: Heard) {
    && (forall key :: key in h.lldp <==> Entries(parse, neighbors, key, true) != [])
    && (forall key :: key in h.configured <==> Entries(parse, neighbors, key, false) != [])
    && (forall key :: key in h.lldp ==>
          h.lldp[key].source == Lldp && Some(h.lldp[key].mac) == parse(Last(Entries(parse, neighbors, key, true)).mac))
    && (forall key :: key in h.configured ==> h.configured[key].source != Lldp)
  }

  lemma HearingIsFrom(parse: Parser, neighbors: seq<Neighbor>)
    ensures HeardFrom(parse, neighbors, Hear(parse, neighbors))
  {
    var h := Hear(parse, neighbors);
    forall key
      ensures (key in h.lldp <==> Entries(parse, neighbors, key, true) != []) && (key in h.configured <==> Entries(parse, neighbors, key, false) != [])
      ensures key in h.lldp ==> h.lldp[key].source == Lldp && Some(h.lldp[key].mac) == parse(Last(Entries(parse, neighbors, key, true)).mac)
      ensures key in h.configured ==> h.configured[key].source != Lldp
    {
      HeardRecord(parse, neighbors, key);
      HeardExactly(parse, neighbors, key);
      hide Hear, Entries, Names, LastText, LastNumber;
    }
  }

  ghost predicate Warned(parse: Parser, index: int, neighbors: seq<Neighbor>, chosen: Option<Neighbor>, w: PortWarning) {
    match w
    case OverridesLldp(port, mac, lldpMac) =>
      && port == index && chosen.Some? && chosen.value.source != Lldp && mac == chosen.value.mac
      && exists key :: key != Key(parse, mac) && Entries(parse, neighbors, key, true) != []
                       && parse(Last(Entries(parse, neighbors, key, true)).mac) == Some(lldpMac)
    case Ambiguous(port, keys) =>
      && port == index && chosen.None? && (forall key :: Entries(parse, neighbors, key, false) == [])
      && (forall key :: key in keys <==> Entries(parse, neighbors, key, true) != [])
      && exists a, b :: a in keys && b in keys && a != b
  }

  lemma ConfiguredWarns(parse: Parser, index: int, neighbors: seq<Neighbor>, h: Heard, w: PortWarning)
    requires HeardFrom(parse, neighbors, h) && h.configured != map[] && Settled(parse, index, h).Answer?
    ensures var r := Settled(parse, index, h); w in r.warnings <==> Warned(parse, index, neighbors, r.neighbor, w)
  {
    ManyKeys(h.configured);
    hide Entries, Merged, Key;
    var only := OnlyKey(h.configured);
    var n := h.configured[only];
    if Key(parse, n.mac) in h.lldp {
      MergedKeepsIdentity(h.lldp[Key(parse, n.mac)], n);
    }
    var r := Settled(parse, index, h);
    assert r.neighbor.value.mac == n.mac && r.neighbor.value.source == n.source != Lldp;
    if w.OverridesLldp? && Warned(parse, index, neighbors, r.neighbor, w) {
      var key :| key != Key(parse, n.mac) && Entries(parse, neighbors, key, true) != []
        && parse(Last(Entries(parse, neighbors, key, true)).mac) == Some(w.lldpMac);
      assert key in h.lldp && h.lldp[key].mac == w.lldpMac;
    }
    if w in r.warnings {
      var key :| key in h.lldp && key != Key(parse, n.mac) && w == OverridesLldp(index, n.mac, h.lldp[key].mac);
      assert Entries(parse, neighbors, key, true) != [];
    }
  }

  lemma UnconfiguredWarns(parse: Parser, index: int, neighbors: seq<Neighbor>, h: Heard, w: PortWarning)
    requires HeardFrom(parse, neighbors, h) && h.configured == map[]
    ensures var r := Settled(parse, index, h); r.Answer? && (w in r.warnings <==> Warned(parse, index, neighbors, r.neighbor, w))
  {
    ManyKeys(h.lldp);
    hide Entries, Merged, Key;
    if |h.lldp| == 1 {
      assert h.lldp[OnlyKey(h.lldp)].source == Lldp;
    }
    if w.Ambiguous? && (forall key :: key in w.keys <==> key in h.lldp) {
      assert w.keys == h.lldp.Keys;
    }
  }

  /** What a port warns about: each LLDP neighbor a configured one overrides, by its own address;
      or that LLDP names several neighbors and nothing is configured; and nothing else. */
  lemma SettledWarns(parse: Parser, index: int, neighbors: seq<Neighbor>, w: PortWarning)
    ensures var r := Settled(parse, index, Hear(parse, neighbors));
            r.Answer? ==> (w in r.warnings <==> Warned(parse, index, neighbors, r.neighbor, w))
  {
    HearingIsFrom(parse, neighbors);
    hide Hear, Settled, HeardFrom, Warned;
    var h := Hear(parse, neighbors);
    if h.configured == map[] {
      UnconfiguredWarns(parse, index, neighbors, h, w);
    } else if Settled(parse, index, h).Answer? {
      ConfiguredWarns(parse, index, neighbors, h, w);
    }
  }

  ghost function Last(entries: seq<Neighbor>): Neighbor
    requires entries != []
  {
    entries[|entries| - 1]
  }

  // ---- sources and warnings ----

  /** Configured uplinks and configured ports rank alike, above LLDP, and LLDP above any other source. */
  lemma SourcesRank(name: string)
    ensures Priority(ConfigUplink) == Priority(ConfigPort) > Priority(Lldp) > Priority(OtherSource(name))
  {
  }

  /** When two edges to one neighbor point opposite ways, the warning names the neighbor, and if one
      source ranks higher also that edge's direction, its source and the losing one. */
  lemma ClashWarning(previous: Edge, e: Edge, winner: Edge, loser: Edge)
    requires {winner, loser} == {previous, e}
    ensures Priority(winner.neighbor.source) > Priority(loser.neighbor.source) ==>
              WarningFor(previous, e) == Overruled(e.neighbor.mac, winner.up, winner.neighbor.source, loser.neighbor.source)
    ensures Priority(previous.neighbor.source) == Priority(e.neighbor.source) ==> WarningFor(previous, e) == BothDirections(e.neighbor.mac)
  {
    assert winner in {previous, e} && loser in {previous, e};
  }

  // ---- candidate edges ----

  /** The neighbor a port settles on, if it does not conflict. */
  ghost function NeighborOf(parse: Parser, port: Port): Option<Neighbor> {
    var r := Settled(parse, port.index, Hear(parse, port.neighbors));
    if r.Answer? then r.neighbor else None
  }

  ghost predicate Conflicts(parse: Parser, port: Port) {
    exists a, b :: NamedBy(parse, port.neighbors, a, false) && NamedBy(parse, port.neighbors, b, false) && a != b
  }

  lemma ConflictsIff(parse: Parser, port: Port)
    ensures Settled(parse, port.index, Hear(parse, port.neighbors)).Conflict? <==> Conflicts(parse, port)
  {
    hide Settled, Hear, NamedBy;
    PortNeighborChosen(parse, port.index, port.neighbors);
  }

  /** Resolution stops at the first port with two configured neighbors. Without one, every port that
      settled on a neighbor is an edge, up from uplink ports and down from the others, and nothing
      else is. */
  lemma {:induction false} GatheredAre(parse: Parser, ports: seq<Port>, e: Edge)
    ensures Gathered(parse, ports).Stopped? <==> exists p :: p in ports && Conflicts(parse, p)
    ensures Gathered(parse, ports).Stopped? ==>
              exists k :: 0 <= k < |ports| && Conflicts(parse, ports[k]) && Gathered(parse, ports).port == ports[k].index
                          && forall j :: 0 <= j < k ==> !Conflicts(parse, ports[j])
    ensures Gathered(parse, ports).Found? ==>
              (e in Gathered(parse, ports).edges <==>
                 exists p :: p in ports && NeighborOf(parse, p).Some? && e == Edge(p.index, p.uplink, NeighborOf(parse, p).value))
    decreases |ports|
  {
    hide Settled, Hear, Conflicts;
    if ports != [] {
      var n := |ports| - 1;
      GatheredAre(parse, ports[..n], e);
      ConflictsIff(parse, ports[n]);
      ConflictNames(parse, ports[n].index, ports[n].neighbors);
      assert ports == ports[..n] + [ports[n]];
      assert forall p :: p in ports <==> p in ports[..n] || p == ports[n];
      if Gathered(parse, ports).Stopped? {
        if Gathered(parse, ports[..n]).Found? {
          assert forall j :: 0 <= j < n ==> ports[j] in ports[..n];
          assert Conflicts(parse, ports[n]);
        }
      }
    }
  }

  /** What resolution reports. A conflict on a port names that port and the neighbors configured
      on it; a conflict of directions names a neighbor configured on two ports pointing opposite
      ways, and both ports in order. */
  lemma ConflictsNamed(parse: Parser, ports: seq<Port>)
    ensures var r := Topology.Topology(parse, ports);
            && (r.PortConflict? ==>
                  exists p :: p in ports && Conflicts(parse, p) && r.port == p.index
                              && forall key :: key in r.keys <==> NamedBy(parse, p.neighbors, key, false))
            && (r.DirectionConflict? ==>
                  Gathered(parse, ports).Found? &&
                  var edges := Gathered(parse, ports).edges;
                  exists i, j :: 0 <= i < j < |edges| && Opposed(parse, edges[i], edges[j])
                                 && Priority(edges[i].neighbor.source) == Priority(edges[j].neighbor.source) == 2
                                 && r == DirectionConflict(edges[j].neighbor.mac, edges[i].localPort, edges[j].localPort))
  {
    hide Gathered, Settled, Hear, Conflicts, NamedBy, WarningsFor, Judged, Marks;
    var g := Gathered(parse, ports);
    if g.Stopped? {
      StoppedKeys(parse, ports);
    } else {
      var marks := Marks(parse, g.edges);
      ClashesAre(marks, |marks|);
      var v := Judged(marks, |marks|);
      if v.Failed? {
        var i, j := v.clash.previous, v.clash.index;
        MarkIs(parse, g.edges, i);
        MarkIs(parse, g.edges, j);
      }
    }
  }

  /** Two edges to one neighbor that point opposite ways. */
  ghost predicate Opposed(parse: Parser, a: Edge, b: Edge) {
    Key(parse, a.neighbor.mac) == Key(parse, b.neighbor.mac) && a.up != b.up
  }

  lemma MarkIs(parse: Parser, edges: seq<Edge>, i: nat)
    requires i < |edges|
    ensures Marks(parse, edges)[i] == Mark(Key(parse, edges[i].neighbor.mac), edges[i].up, Priority(edges[i].neighbor.source))
    ensures Priority(edges[i].neighbor.source) <= 2
  {
    hide Key;
  }

  lemma {:induction false} StoppedKeys(parse: Parser, ports: seq<Port>)
    requires Gathered(parse, ports).Stopped?
    ensures exists p :: p in ports && Conflicts(parse, p) && Gathered(parse, ports).port == p.index
                        && forall key :: key in Gathered(parse, ports).keys <==> NamedBy(parse, p.neighbors, key, false)
    decreases |ports|
  {
    var n := |ports| - 1;
    assert ports == ports[..n] + [ports[n]];
    if Gathered(parse, ports[..n]).Stopped? {
      hide Settled, Hear, Conflicts, NamedBy;
      StoppedKeys(parse, ports[..n]);
    } else {
      ConflictsIff(parse, ports[n]);
      ConflictNames(parse, ports[n].index, ports[n].neighbors);
      ConflictKeys(parse, ports[n].index, ports[n].neighbors);
      hide Settled, Hear, Conflicts, NamedBy;
      assert ports[n] in ports;
    }
  }

  lemma ConflictKeys(parse: Parser, index: int, neighbors: seq<Neighbor>)
    ensures var r := Settled(parse, index, Hear(parse, neighbors));
            r.Conflict? ==> forall key :: key in r.keys <==> NamedBy(parse, neighbors, key, false)
  {
    hide Hear, Names, Merged, Key;
    forall key
      ensures key in Hear(parse, neighbors).configured <==> NamedBy(parse, neighbors, key, false)
    {
      HeardExactly(parse, neighbors, key);
    }
    hide NamedBy;
  }

  /** Resolution passes on every warning of every port. */
  lemma {:induction false} GatheredWarns(parse: Parser, ports: seq<Port>, w: Warning)
    requires Gathered(parse, ports).Found?
    ensures w in Gathered(parse, ports).warnings <==>
              w.OnPort? && exists p :: p in ports && Settled(parse, p.index, Hear(parse, p.neighbors)).Answer?
                                       && w.warning in Settled(parse, p.index, Hear(parse, p.neighbors)).warnings
    decreases |ports|
  {
    hide Settled, Hear;
    if ports != [] {
      var n := |ports| - 1;
      GatheredWarns(parse, ports[..n], w);
      assert ports == ports[..n] + [ports[n]];
      assert forall p :: p in ports <==> p in ports[..n] || p == ports[n];
      var answer := Settled(parse, ports[n].index, Hear(parse, ports[n].neighbors));
      assert w in OnPorts(answer.warnings) <==> w.OnPort? && w.warning in answer.warnings;
      assert w in Gathered(parse, ports).warnings <==> w in Gathered(parse, ports[..n]).warnings || w in OnPorts(answer.warnings);
    }
  }
}
