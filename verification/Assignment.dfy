/** What laying a snapshot over the ports guarantees: which member shows on which port, when
    every member keeps a port of its own, and that the list keeps its numbering. */
module Assignment {
  import opened Basics
  import opened Runes
  import opened Ports
  import opened MemberOrder
  import opened Members
  import opened Observe

  // ---- what a port shows ----

  /** The observed part of a port. */
  datatype Face = Face(up: bool, speed: int, counters: Counters, countersSet: bool, macs: seq<MacEntry>)

  const DARK := Face(false, 0, NO_COUNTERS, false, [])

  ghost function FaceOf(p: Port): Face {
    Face(p.up, p.speed, p.counters, p.countersSet, p.macs)
  }

  /** What was seen of a member, with nothing left over from the port's defaults. */
  ghost function FaceSeen(seen: Option<Observation>): Face {
    if seen.None? then DARK
    else
      var o := seen.value;
      var up := o.up == Some(true);
      Face(up, if up && o.speed > 0 then o.speed else 0,
           if HasCounters(o.stats) then o.stats.counters else NO_COUNTERS, HasCounters(o.stats), [])
  }

  ghost function Promised(task: Task): Face {
    if task.Report? then FaceSeen(task.seen) else FaceSeen(task.seen).(macs := task.macs)
  }

  lemma StepsShow(p: Port, o: Observation)
    ensures FaceOf(Cleared(p)) == DARK && FaceOf(Described(p, o)) == FaceOf(p)
    ensures FaceOf(Linked(p, o))
         == FaceOf(p).(up := o.up == Some(true), speed := if o.up == Some(true) && o.speed > 0 then o.speed else p.speed)
    ensures FaceOf(Counting(p, o.stats))
         == if HasCounters(o.stats) then FaceOf(p).(counters := o.stats.counters, countersSet := true) else FaceOf(p)
  {
    hide TrimSpace, Kept, HasCounters;
  }

  lemma ObservedShows(p: Port, seen: Option<Observation>)
    ensures FaceOf(Observed(p, seen)) == FaceSeen(seen)
  {
    hide Cleared, Described, Linked, Counting, HasCounters, FaceOf;
    var o := seen.GetOr(Observation("", None, 0, "", Stats(NO_COUNTERS, false, 0)));
    StepsShow(p, o);
    StepsShow(Cleared(p), o);
    StepsShow(Described(Cleared(p), o), o);
    StepsShow(Linked(Described(Cleared(p), o), o), o);
    assert FaceOf(Described(Cleared(p), o)).speed == 0;
    assert FaceOf(Described(Cleared(p), o)) == FaceOf(Cleared(p));
    SpeedIsShown(Described(Cleared(p), o));
  }

  lemma SpeedIsShown(p: Port)
    ensures FaceOf(p).speed == p.speed
  {
  }

  lemma HoldingShows(p: Port, plan: Plan, task: Task, slot: int)
    ensures FaceOf(Holding(p, plan, task, slot)) == Promised(task)
  {
    hide Observed, FaceSeen;
    ObservedShows(p, task.seen);
  }

  /** The last task to take this port. */
  ghost predicate LastAt(plan: Plan, tasks: seq<Task>, port: int, k: int) {
    0 <= k < |tasks| && Slot(plan, tasks, k) == port
    && forall j :: k < j < |tasks| ==> Slot(plan, tasks, j) != port
  }

  ghost predicate NobodyAt(plan: Plan, tasks: seq<Task>, port: int) {
    forall k :: 0 <= k < |tasks| ==> Slot(plan, tasks, k) != port
  }

  /** The port shows its last member, or this when it has none. */
  ghost predicate Shows(face: Face, plan: Plan, tasks: seq<Task>, port: int, idle: Face) {
    && (forall k :: LastAt(plan, tasks, port, k) ==> face == Promised(tasks[k]))
    && (NobodyAt(plan, tasks, port) ==> face == idle)
  }

  lemma SlotsOfPrefix(plan: Plan, tasks: seq<Task>, n: nat, k: nat)
    requires k < n <= |tasks|
    ensures Slot(plan, tasks[..n], k) == Slot(plan, tasks, k)
  {
    hide PortFor;
    assert tasks[..n][..k] == tasks[..k] && tasks[..n][k] == tasks[k];
  }

  lemma {:induction false} FilledShows(ports: seq<Port>, plan: Plan, tasks: seq<Task>, i: nat)
    requires Sensible(plan) && |ports| == plan.count && i < |ports|
    ensures Shows(FaceOf(Filled(ports, plan, tasks)[i]), plan, tasks, i + 1, FaceOf(ports[i]))
    decreases |tasks|
  {
    hide Holding, PortFor, Promised, Slot, FaceOf;
    if tasks != [] {
      var n := |tasks| - 1;
      var init, slot := Filled(ports, plan, tasks[..n]), Slot(plan, tasks, n);
      FilledShows(ports, plan, tasks[..n], i);
      SlotIsAPort(plan, tasks, n);
      HoldingShows(init[slot - 1], plan, tasks[n], slot);
      forall k | 0 <= k < n
        ensures Slot(plan, tasks[..n], k) == Slot(plan, tasks, k)
      {
        SlotsOfPrefix(plan, tasks, n, k);
      }
      forall k | LastAt(plan, tasks, i + 1, k)
        ensures FaceOf(Filled(ports, plan, tasks)[i]) == Promised(tasks[k])
      {
        if k < n {
          assert LastAt(plan, tasks[..n], i + 1, k);
        }
      }
    }
  }

  lemma TakenIff(plan: Plan, tasks: seq<Task>, port: int)
    ensures port in Taken(plan, tasks) <==> port == plan.uplink || !NobodyAt(plan, tasks, port)
  {
    hide Slot;
  }

  lemma UplinkShownKeepsPlace(p: Port, s: Snapshot)
    ensures PlaceOf(UplinkShown(p, s)) == PlaceOf(p)
  {
    hide HasCounters;
  }

  /** A port is what the tasks left there, or dark when nobody took it. */
  lemma AppliedAt(ports: seq<Port>, s: Snapshot, tasks: seq<Task>, i: nat)
    requires Numbered(ports) && i < |ports| && s.devices != map[] && 1 <= UplinkIndex(ports, s) <= |ports|
    ensures var uplink := UplinkIndex(ports, s);
            var plan := PlanFor(s, uplink, |ports|);
            var shown := ports[uplink - 1 := UplinkShown(ports[uplink - 1], s)];
            && Sensible(plan)
            && var p := Filled(Emptied(shown), plan, tasks)[i];
            Applied(ports, s, tasks)[i] == if i + 1 == uplink || !NobodyAt(plan, tasks, i + 1) then p else Cleared(p)
  {
    hide UplinkIndex, UplinkShown, FreePorts, FreeIndexes, PinnedPorts, Cleared, Filled, Taken, NobodyAt;
    var uplink := UplinkIndex(ports, s);
    var plan := PlanFor(s, uplink, |ports|);
    UplinkShownKeepsPlace(ports[uplink - 1], s);
    var shown := ports[uplink - 1 := UplinkShown(ports[uplink - 1], s)];
    PlanByNumber(s, uplink, shown);
    FillingKeepsShape(Emptied(shown), plan, tasks);
    TakenIff(plan, tasks, i + 1);
  }

  lemma EmptiedShows(ports: seq<Port>, i: nat)
    requires i < |ports|
    ensures FaceOf(Emptied(ports)[i]) == FaceOf(ports[i]).(macs := [])
  {
  }

  lemma ClearedIsDark(p: Port)
    ensures FaceOf(Cleared(p)) == DARK
  {
  }

  /** What the tasks left at a port, before unused ports go dark. */
  lemma LeftAt(ports: seq<Port>, s: Snapshot, tasks: seq<Task>, i: nat) returns (p: Port)
    requires Numbered(ports) && i < |ports| && s.devices != map[] && 1 <= UplinkIndex(ports, s) <= |ports|
    ensures var uplink := UplinkIndex(ports, s);
            var plan := PlanFor(s, uplink, |ports|);
            && Shows(FaceOf(p), plan, tasks, i + 1,
                     FaceOf(if i + 1 == uplink then UplinkShown(ports[i], s) else ports[i]).(macs := []))
            && Applied(ports, s, tasks)[i] == if i + 1 == uplink || !NobodyAt(plan, tasks, i + 1) then p else Cleared(p)
  {
    hide UplinkIndex, UplinkShown, PlanFor, Cleared, Filled, Emptied, Promised, Slot, Applied, FaceOf, NobodyAt, LastAt, Sensible, Shows;
    var uplink := UplinkIndex(ports, s);
    var plan := PlanFor(s, uplink, |ports|);
    PlanNames(s, uplink, |ports|);
    var shown := ports[uplink - 1 := UplinkShown(ports[uplink - 1], s)];
    AppliedAt(ports, s, tasks, i);
    FilledShows(Emptied(shown), plan, tasks, i);
    EmptiedShows(shown, i);
    p := Filled(Emptied(shown), plan, tasks)[i];
  }

  /** Every port shows exactly the last member put there; a port with no member is dark, except
      that the uplink keeps what was seen of the uplink interface. Nothing of the profile's
      synthetic state survives. */
  lemma PortShows(ports: seq<Port>, s: Snapshot, tasks: seq<Task>, i: nat)
    requires Numbered(ports) && i < |ports| && s.devices != map[]
    ensures 1 <= UplinkIndex(ports, s) <= |ports|
    ensures var uplink, out := UplinkIndex(ports, s), Applied(ports, s, tasks);
            var plan := PlanFor(s, uplink, |ports|);
            Shows(FaceOf(out[i]), plan, tasks, i + 1, if i + 1 == uplink then FaceOf(UplinkShown(ports[i], s)).(macs := []) else DARK)
  {
    UplinkIndexIsAPort(ports, s);
    hide UplinkIndex, UplinkShown, PlanFor, Cleared, Applied, FaceOf, DARK, NobodyAt, Shows;
    var uplink := UplinkIndex(ports, s);
    var p := LeftAt(ports, s, tasks, i);
    ClearedIsDark(p);
    if i + 1 != uplink {
      GoesDark(PlanFor(s, uplink, |ports|), tasks, i + 1, FaceOf(p), FaceOf(ports[i]).(macs := []), FaceOf(Applied(ports, s, tasks)[i]));
    }
  }

  lemma GoesDark(plan: Plan, tasks: seq<Task>, port: int, filled: Face, idle: Face, face: Face)
    requires Shows(filled, plan, tasks, port, idle)
    requires face == if NobodyAt(plan, tasks, port) then DARK else filled
    ensures Shows(face, plan, tasks, port, DARK)
  {
    hide Slot, Promised;
  }

  lemma PlanNames(s: Snapshot, uplink: int, count: nat)
    ensures PlanFor(s, uplink, count).uplink == uplink && PlanFor(s, uplink, count).count == count
  {
  }

  lemma {:induction false} SomeoneIsLast(plan: Plan, tasks: seq<Task>, port: int)
    requires !NobodyAt(plan, tasks, port)
    ensures exists k :: LastAt(plan, tasks, port, k)
    decreases |tasks|
  {
    hide Slot;
    var n := |tasks| - 1;
    assert n >= 0;
    if Slot(plan, tasks, n) == port {
      assert LastAt(plan, tasks, port, n);
    } else {
      forall k: nat | k < n
        ensures Slot(plan, tasks[..n], k) == Slot(plan, tasks, k)
      {
        SlotsOfPrefix(plan, tasks, n, k);
      }
      SomeoneIsLast(plan, tasks[..n], port);
      var k :| LastAt(plan, tasks[..n], port, k);
      assert LastAt(plan, tasks, port, k);
    }
  }

  /** A port other than the uplink is up exactly when the last member put there was seen up. */
  lemma AccessPortIsUpIff(ports: seq<Port>, s: Snapshot, tasks: seq<Task>, i: nat)
    requires Numbered(ports) && i < |ports| && s.devices != map[] && i + 1 != UplinkIndex(ports, s)
    ensures 1 <= UplinkIndex(ports, s) <= |ports|
    ensures Applied(ports, s, tasks)[i].up <==>
            exists k :: LastAt(PlanFor(s, UplinkIndex(ports, s), |ports|), tasks, i + 1, k)
                        && tasks[k].seen.Some? && tasks[k].seen.value.up == Some(true)
  {
    hide UplinkIndex, PlanFor, Applied, Slot, HasCounters;
    PortShows(ports, s, tasks, i);
    var plan := PlanFor(s, UplinkIndex(ports, s), |ports|);
    assert FaceOf(Applied(ports, s, tasks)[i]).up == Applied(ports, s, tasks)[i].up;
    if NobodyAt(plan, tasks, i + 1) {
    } else {
      SomeoneIsLast(plan, tasks, i + 1);
      var k :| LastAt(plan, tasks, i + 1, k);
      assert Promised(tasks[k]).up <==> tasks[k].seen.Some? && tasks[k].seen.value.up == Some(true);
    }
  }

  // ---- no remote address is shown ----

  /** Whatever order the maps were walked in, no port ends with an address from the remote set. */
  lemma NoRemoteAddressShows(ports: seq<Port>, s: Snapshot, macKey: string -> string, remote: set<string>, tasks: seq<Task>, i: nat)
    requires Numbered(ports) && i < |ports| && s.devices != map[] && MayAskFor(s, macKey, remote, tasks)
    ensures 1 <= UplinkIndex(ports, s) <= |ports|
    ensures forall e <- Applied(ports, s, tasks)[i].macs :: Local(e, remote, macKey)
  {
    hide UplinkIndex, PlanFor, Applied, Slot, HasCounters, MayAskFor, LocalEntries, PinOf, Local;
    PortShows(ports, s, tasks, i);
    var plan := PlanFor(s, UplinkIndex(ports, s), |ports|);
    var out := Applied(ports, s, tasks)[i];
    assert FaceOf(out).macs == out.macs;
    if !NobodyAt(plan, tasks, i + 1) {
      SomeoneIsLast(plan, tasks, i + 1);
      var k :| LastAt(plan, tasks, i + 1, k);
      AskedTasksFit(s, macKey, remote, tasks);
      assert tasks[k] in tasks;
      assert out.macs == if tasks[k].Report? then [] else tasks[k].macs;
      if tasks[k].Claim? {
        forall e | e in out.macs
          ensures Local(e, remote, macKey)
        {
          LocalEntriesAre(s.devices[tasks[k].name], remote, macKey, e);
        }
      }
    }
  }

  // ---- a port for every member ----

  /** How many claims have no usable pin. */
  ghost function Wanting(plan: Plan, tasks: seq<Task>): nat
    decreases |tasks|
  {
    if tasks == [] then 0
    else Wanting(plan, tasks[..|tasks| - 1]) + if Unpinned(plan, tasks[|tasks| - 1]) then 1 else 0
  }

  lemma {:induction false} UsedIs(plan: Plan, tasks: seq<Task>)
    ensures Used(plan, tasks) == if Wanting(plan, tasks) <= |plan.free| then Wanting(plan, tasks) else |plan.free|
    decreases |tasks|
  {
    hide Unpinned;
    if tasks != [] {
      UsedIs(plan, tasks[..|tasks| - 1]);
    }
  }

  lemma {:induction false} WantingGrows(plan: Plan, tasks: seq<Task>, i: nat, j: nat)
    requires i <= j <= |tasks|
    ensures Wanting(plan, tasks[..i]) <= Wanting(plan, tasks[..j])
    ensures i < j && Unpinned(plan, tasks[i]) ==> Wanting(plan, tasks[..i]) < Wanting(plan, tasks[..j])
    decreases j
  {
    hide Unpinned;
    if i < j {
      assert tasks[..j][..j - 1] == tasks[..j - 1];
      if i < j - 1 {
        WantingGrows(plan, tasks, i, j - 1);
      }
    }
  }

  /** Usable pins differ and spare the uplink, and the other claims are no more than the free ports. */
  ghost predicate Fits(plan: Plan, tasks: seq<Task>) {
    && (forall k :: 0 <= k < |tasks| && Pinned(plan, tasks[k]) ==> tasks[k].pin != plan.uplink)
    && (forall j, k :: 0 <= j < k < |tasks| && Pinned(plan, tasks[j]) && Pinned(plan, tasks[k]) ==> tasks[j].pin != tasks[k].pin)
    && Wanting(plan, tasks) <= |plan.free|
  }

  /** Every claim has a port to itself, away from the uplink. */
  ghost predicate OwnPorts(plan: Plan, tasks: seq<Task>) {
    && (forall k :: 0 <= k < |tasks| && tasks[k].Claim? ==> Slot(plan, tasks, k) != plan.uplink)
    && (forall j, k :: 0 <= j < k < |tasks| && tasks[j].Claim? && tasks[k].Claim? ==> Slot(plan, tasks, j) != Slot(plan, tasks, k))
  }

  /** The free ports are ports in order, not the uplink and nobody's pin. */
  ghost predicate Spare(plan: Plan, tasks: seq<Task>) {
    && (forall f <- plan.free :: 1 <= f <= plan.count && f != plan.uplink)
    && (forall i, j :: 0 <= i < j < |plan.free| ==> plan.free[i] < plan.free[j])
    && (forall k, f :: 0 <= k < |tasks| && Pinned(plan, tasks[k]) && f in plan.free ==> f != tasks[k].pin)
  }

  lemma UnpinnedSlot(plan: Plan, tasks: seq<Task>, k: nat)
    requires k < |tasks| && Unpinned(plan, tasks[k]) && Wanting(plan, tasks[..k]) < |plan.free|
    requires forall f <- plan.free :: 1 <= f <= plan.count
    ensures Slot(plan, tasks, k) == plan.free[Wanting(plan, tasks[..k])]
  {
    UsedIs(plan, tasks[..k]);
    hide Used, Wanting;
    assert plan.free[Used(plan, tasks[..k])] in plan.free;
    assert PortFor(plan, tasks[k], Used(plan, tasks[..k])) == plan.free[Used(plan, tasks[..k])];
  }

  lemma FittingClaimsOwnPorts(plan: Plan, tasks: seq<Task>)
    requires Sensible(plan) && Spare(plan, tasks) && Fits(plan, tasks)
    ensures OwnPorts(plan, tasks)
    ensures forall k :: 0 <= k < |tasks| && Unpinned(plan, tasks[k]) ==> Slot(plan, tasks, k) in plan.free
  {
    hide Slot, Wanting;
    assert tasks[..|tasks|] == tasks;
    forall k: nat | k < |tasks| && Unpinned(plan, tasks[k])
      ensures Wanting(plan, tasks[..k]) < |plan.free|
      ensures Slot(plan, tasks, k) == plan.free[Wanting(plan, tasks[..k])]
    {
      WantingGrows(plan, tasks, k, |tasks|);
      UnpinnedSlot(plan, tasks, k);
    }
    forall k: nat | k < |tasks| && Pinned(plan, tasks[k])
      ensures Slot(plan, tasks, k) == tasks[k].pin
    {
      PinnedSlot(plan, tasks, k);
    }
    forall k: nat | k < |tasks| && tasks[k].Claim?
      ensures Slot(plan, tasks, k) != plan.uplink
    {
      assert Unpinned(plan, tasks[k]) ==> Slot(plan, tasks, k) in plan.free;
    }
    forall j: nat, k: nat | j < k < |tasks| && tasks[j].Claim? && tasks[k].Claim?
      ensures Slot(plan, tasks, j) != Slot(plan, tasks, k)
    {
      WantingGrows(plan, tasks, j, k);
      assert Unpinned(plan, tasks[j]) ==> Slot(plan, tasks, j) in plan.free;
      assert Unpinned(plan, tasks[k]) ==> Slot(plan, tasks, k) in plan.free;
      if Unpinned(plan, tasks[j]) && Unpinned(plan, tasks[k]) {
        assert plan.free[Wanting(plan, tasks[..j])] < plan.free[Wanting(plan, tasks[..k])];
      }
    }
  }

  lemma PinnedSlot(plan: Plan, tasks: seq<Task>, k: nat)
    requires k < |tasks| && Pinned(plan, tasks[k])
    ensures Slot(plan, tasks, k) == tasks[k].pin
  {
  }

  /** When more claims want a free port than there are, the first too many lands on the uplink. */
  lemma {:induction false} OverflowLandsOnUplink(plan: Plan, tasks: seq<Task>) returns (k: nat)
    requires Wanting(plan, tasks) > |plan.free|
    ensures k < |tasks| && Unpinned(plan, tasks[k]) && Slot(plan, tasks, k) == plan.uplink
    decreases |tasks|
  {
    hide Unpinned;
    var n := |tasks| - 1;
    if Wanting(plan, tasks[..n]) > |plan.free| {
      k := OverflowLandsOnUplink(plan, tasks[..n]);
      SlotsOfPrefix(plan, tasks, n, k);
    } else {
      k := n;
      UsedIs(plan, tasks[..n]);
      assert Unpinned(plan, tasks[n]);
      assert PortFor(plan, tasks[n], |plan.free|) == plan.uplink by { NoneLeft(plan, tasks[n]); }
    }
  }

  lemma NoneLeft(plan: Plan, task: Task)
    requires Unpinned(plan, task)
    ensures PortFor(plan, task, |plan.free|) == plan.uplink
  {
  }

  /** Every claim has its own port exactly when the pins and the free ports suffice. */
  lemma OwnPortsIff(plan: Plan, tasks: seq<Task>)
    requires Sensible(plan) && Spare(plan, tasks)
    ensures OwnPorts(plan, tasks) <==> Fits(plan, tasks)
  {
    hide Slot, Wanting;
    if Fits(plan, tasks) {
      FittingClaimsOwnPorts(plan, tasks);
    } else {
      forall k: nat | k < |tasks| && Pinned(plan, tasks[k])
        ensures Slot(plan, tasks, k) == tasks[k].pin
      {
        PinnedSlot(plan, tasks, k);
      }
      if Wanting(plan, tasks) > |plan.free| {
        var k := OverflowLandsOnUplink(plan, tasks);
        assert tasks[k].Claim?;
      }
    }
  }

  lemma FreePortsAreSpare(s: Snapshot, uplink: int, count: nat, macKey: string -> string, remote: set<string>, tasks: seq<Task>)
    requires 1 <= uplink <= count && MayAskFor(s, macKey, remote, tasks)
    ensures Spare(PlanFor(s, uplink, count), tasks)
  {
    hide FreePorts, MayAskFor, LocalEntries;
    AskedTasksFit(s, macKey, remote, tasks);
    FreePortsAre(count, uplink, PinnedPorts(s.pins, count));
    var plan := PlanFor(s, uplink, count);
    forall k | 0 <= k < |tasks| && Pinned(plan, tasks[k])
      ensures tasks[k].pin in PinnedPorts(s.pins, count)
    {
      assert tasks[k] in tasks && ClaimFits(s, remote, macKey, tasks[k]);
      assert TrimSpace(tasks[k].name) in s.pins;
    }
  }

  lemma ReportsStayOnUplink(plan: Plan, tasks: seq<Task>, j: nat)
    requires j < |tasks| && tasks[j].Report?
    ensures Slot(plan, tasks, j) == plan.uplink
  {
  }

  lemma OwnerHolds(ports: seq<Port>, s: Snapshot, tasks: seq<Task>, k: nat)
    requires Numbered(ports) && ports != [] && s.devices != map[] && k < |tasks| && tasks[k].Claim?
    requires 1 <= UplinkIndex(ports, s) <= |ports| && OwnPorts(PlanFor(s, UplinkIndex(ports, s), |ports|), tasks)
    ensures var slot := Slot(PlanFor(s, UplinkIndex(ports, s), |ports|), tasks, k);
            1 <= slot <= |ports| && Applied(ports, s, tasks)[slot - 1].macs == tasks[k].macs
  {
    hide UplinkIndex, Applied, Slot, HasCounters, FreePorts, PinnedPorts, FaceSeen;
    var plan := PlanFor(s, UplinkIndex(ports, s), |ports|);
    SlotIsAPort(plan, tasks, k);
    var slot := Slot(plan, tasks, k);
    forall j | k < j < |tasks|
      ensures Slot(plan, tasks, j) != slot
    {
      if tasks[j].Report? {
        ReportsStayOnUplink(plan, tasks, j);
      }
    }
    assert LastAt(plan, tasks, slot, k);
    PortShows(ports, s, tasks, slot - 1);
    assert FaceOf(Applied(ports, s, tasks)[slot - 1]).macs == tasks[k].macs;
  }

  lemma UnclaimedIsEmpty(ports: seq<Port>, s: Snapshot, tasks: seq<Task>, i: nat)
    requires Numbered(ports) && i < |ports| && s.devices != map[] && 1 <= UplinkIndex(ports, s) <= |ports|
    requires Unclaimed(PlanFor(s, UplinkIndex(ports, s), |ports|), tasks, i + 1)
    ensures Applied(ports, s, tasks)[i].macs == []
  {
    hide UplinkIndex, Applied, Slot, HasCounters, PlanFor;
    var plan := PlanFor(s, UplinkIndex(ports, s), |ports|);
    PortShows(ports, s, tasks, i);
    assert FaceOf(Applied(ports, s, tasks)[i]).macs == Applied(ports, s, tasks)[i].macs;
    if !NobodyAt(plan, tasks, i + 1) {
      SomeoneIsLast(plan, tasks, i + 1);
      var k :| LastAt(plan, tasks, i + 1, k);
      assert tasks[k].Report?;
    }
  }

  /** When usable pins differ and spare the uplink and the other claims are no more than the free
      ports, every claim has a port of its own that holds exactly its addresses, a claim without
      a pin never sits on a pinned port, and no other port holds any address. Otherwise some
      claim shares a port or sits on the uplink. */
  lemma ClaimsKeepTheirAddresses(ports: seq<Port>, s: Snapshot, macKey: string -> string, remote: set<string>, tasks: seq<Task>)
    requires Numbered(ports) && ports != [] && s.devices != map[] && MayAskFor(s, macKey, remote, tasks)
    ensures 1 <= UplinkIndex(ports, s) <= |ports|
    ensures var plan := PlanFor(s, UplinkIndex(ports, s), |ports|);
            OwnPorts(plan, tasks) <==> Fits(plan, tasks)
    ensures var plan, out := PlanFor(s, UplinkIndex(ports, s), |ports|), Applied(ports, s, tasks);
            Fits(plan, tasks) ==> AddressesKept(out, plan, tasks) && SparesPins(plan, tasks, PinnedPorts(s.pins, |ports|))
  {
    UplinkIndexIsAPort(ports, s);
    hide UplinkIndex, Applied, Slot, HasCounters, MayAskFor, FreePorts, PinnedPorts, Numbered;
    hide Wanting, Fits, OwnPorts, Spare, AddressesKept;
    var plan, out := PlanFor(s, UplinkIndex(ports, s), |ports|), Applied(ports, s, tasks);
    FreePortsAreSpare(s, plan.uplink, plan.count, macKey, remote, tasks);
    OwnPortsIff(plan, tasks);
    if Fits(plan, tasks) {
      FittingClaimsOwnPorts(plan, tasks);
      FreePortsAre(plan.count, plan.uplink, PinnedPorts(s.pins, plan.count));
      OwnersKeep(ports, s, tasks);
    }
  }

  /** Each claim's port holds exactly its addresses and every other port holds none. */
  ghost predicate AddressesKept(out: seq<Port>, plan: Plan, tasks: seq<Task>) {
    && (forall k :: 0 <= k < |tasks| && tasks[k].Claim? ==>
          1 <= Slot(plan, tasks, k) <= |out| && out[Slot(plan, tasks, k) - 1].macs == tasks[k].macs)
    && (forall i :: 0 <= i < |out| && Unclaimed(plan, tasks, i + 1) ==> out[i].macs == [])
  }

  ghost predicate Unclaimed(plan: Plan, tasks: seq<Task>, port: int) {
    forall k :: 0 <= k < |tasks| && tasks[k].Claim? ==> Slot(plan, tasks, k) != port
  }

  ghost predicate SparesPins(plan: Plan, tasks: seq<Task>, pins: set<int>) {
    forall k :: 0 <= k < |tasks| && Unpinned(plan, tasks[k]) ==> Slot(plan, tasks, k) !in pins
  }

  lemma OwnersKeep(ports: seq<Port>, s: Snapshot, tasks: seq<Task>)
    requires Numbered(ports) && ports != [] && s.devices != map[]
    requires 1 <= UplinkIndex(ports, s) <= |ports| && OwnPorts(PlanFor(s, UplinkIndex(ports, s), |ports|), tasks)
    ensures AddressesKept(Applied(ports, s, tasks), PlanFor(s, UplinkIndex(ports, s), |ports|), tasks)
  {
    hide UplinkIndex, Applied, Slot, Numbered, OwnPorts, Unclaimed, PlanFor;
    var plan, out := PlanFor(s, UplinkIndex(ports, s), |ports|), Applied(ports, s, tasks);
    forall k | 0 <= k < |tasks| && tasks[k].Claim?
      ensures 1 <= Slot(plan, tasks, k) <= |ports| && out[Slot(plan, tasks, k) - 1].macs == tasks[k].macs
    {
      OwnerHolds(ports, s, tasks, k);
    }
    forall i | 0 <= i < |ports| && Unclaimed(plan, tasks, i + 1)
      ensures out[i].macs == []
    {
      UnclaimedIsEmpty(ports, s, tasks, i);
    }
  }

  // ---- the order of a walk does not matter ----

  /** With distinct names two runs over the same snapshot give the same ports. */
  lemma WalkOrderDoesNotMatter(ports: seq<Port>, s: Snapshot, macKey: string -> string,
                               remote: set<string>, tasks: seq<Task>, remote': set<string>, tasks': seq<Task>)
    requires Numbered(ports) && NamesApart(s)
    requires MayAskFor(s, macKey, remote, tasks) && MayAskFor(s, macKey, remote', tasks')
    ensures ports != [] ==> 1 <= UplinkIndex(ports, s) <= |ports|
    ensures Applied(ports, s, tasks) == Applied(ports, s, tasks')
  {
    hide MayAskFor, NamesApart, Applied;
    if ports != [] {
      UplinkIndexIsAPort(ports, s);
    }
    ReadingIsOne(s, macKey, remote, tasks, remote', tasks');
  }

  // ---- the list keeps its shape ----

  lemma ApplyingKeepsShape(ports: seq<Port>, s: Snapshot, tasks: seq<Task>)
    requires Numbered(ports)
    ensures ports != [] ==> 1 <= UplinkIndex(ports, s) <= |ports|
    ensures SameShape(ports, Applied(ports, s, tasks))
  {
    hide UplinkShown, FreeIndexes, PinnedPorts, Cleared, Filled, Taken, FirstMarked;
    if ports != [] {
      UplinkIndexIsAPort(ports, s);
      var uplink := UplinkIndex(ports, s);
      UplinkShownKeepsPlace(ports[uplink - 1], s);
      var shown := ports[uplink - 1 := UplinkShown(ports[uplink - 1], s)];
      var plan := PlanOf(s, uplink, shown);
      FillingKeepsShape(Emptied(shown), plan, tasks);
      forall i | 0 <= i < |ports|
        ensures PlaceOf(Cleared(Filled(Emptied(shown), plan, tasks)[i])) == PlaceOf(shown[i])
      {
        ObservedKeepsPlace(Filled(Emptied(shown), plan, tasks)[i], None);
      }
    }
  }

  /** The steps that edit a built list. */
  datatype Edit =
    | Overlay(snapshot: Snapshot, tasks: seq<Task>)
    | Reconfigure(overrides: seq<Override>)
    | Adjoin(neighbors: seq<PortNeighbor>)
    | AdjoinUplink(neighbor: Option<Neighbor>)

  ghost function Edited(ports: seq<Port>, e: Edit): seq<Port>
    requires WellFormed(ports)
  {
    match e
    case Overlay(s, tasks) => ApplyingKeepsShape(ports, s, tasks); Applied(ports, s, tasks)
    case Reconfigure(overrides) => Overrides(ports, overrides)
    case Adjoin(neighbors) => WithNeighbors(ports, neighbors)
    case AdjoinUplink(neighbor) => WithUplinkNeighbor(ports, neighbor)
  }

  lemma EditKeepsShape(ports: seq<Port>, e: Edit)
    requires WellFormed(ports)
    ensures SameShape(ports, Edited(ports, e)) && WellFormed(Edited(ports, e))
  {
    hide Applied, Overrides, WithNeighbors, OnFirstUplink, WellFormed, SameShape;
    match e {
      case Overlay(s, tasks) => WellFormedIsNumbered(ports); ApplyingKeepsShape(ports, s, tasks);
      case Reconfigure(overrides) => OverridesKeepShape(ports, overrides);
      case Adjoin(neighbors) => NeighborsKeepShape(ports, neighbors);
      case AdjoinUplink(neighbor) =>
        if neighbor.Some? { UplinkNeighborKeepsShape(ports, neighbor.value.(source := ConfigUplink)); }
        SameAsItself(ports);
    }
    SameShapeKeepsWellFormed(ports, Edited(ports, e));
  }

  lemma WellFormedIsNumbered(ports: seq<Port>)
    requires WellFormed(ports)
    ensures Numbered(ports)
  {
  }

  lemma SameAsItself(ports: seq<Port>)
    ensures SameShape(ports, ports)
  {
  }

  ghost predicate Reached(ports: seq<Port>, edits: seq<Edit>, out: seq<Port>)
    requires WellFormed(ports)
    decreases |edits|
  {
    if edits == [] then out == ports
    else
      EditKeepsShape(ports, edits[0]);
      Reached(Edited(ports, edits[0]), edits[1..], out)
  }

  lemma {:induction false} EditsKeepShape(ports: seq<Port>, edits: seq<Edit>, out: seq<Port>)
    requires WellFormed(ports) && Reached(ports, edits, out)
    ensures WellFormed(out) && SameShape(ports, out)
    decreases |edits|
  {
    hide WellFormed, SameShape, Edited;
    SameAsItself(ports);
    if edits != [] {
      EditKeepsShape(ports, edits[0]);
      EditsKeepShape(Edited(ports, edits[0]), edits[1..], out);
      ShapesChain(ports, Edited(ports, edits[0]), out);
    }
  }

  lemma ShapesChain(a: seq<Port>, b: seq<Port>, c: seq<Port>)
    requires SameShape(a, b) && SameShape(b, c)
    ensures SameShape(a, c)
  {
  }

  /** A list built from a layout and then edited. */
  ghost predicate Produced(count: int, layout: Layout, edits: seq<Edit>, out: seq<Port>) {
    SwitchPortsAreWellFormed(count, layout);
    Reached(SwitchPorts(count, layout), edits, out)
  }

  /** Whatever layout a list is built from and whatever edits follow in whatever order, it keeps
      its length, its numbering from one, and its one uplink where it was. */
  lemma EveryPipelineIsWellFormed(count: int, layout: Layout, edits: seq<Edit>, out: seq<Port>)
    requires Produced(count, layout, edits, out)
    ensures WellFormed(out) && SameShape(SwitchPorts(count, layout), out)
    ensures |out| == if count < 1 then 1 else count
    ensures 1 <= layout.uplinkPort <= |out| ==> UplinkAt(out, layout.uplinkPort - 1)
  {
    hide WellFormed, SwitchPorts, Edited, UplinkAt;
    SwitchPortsAreWellFormed(count, layout);
    EditsKeepShape(SwitchPorts(count, layout), edits, out);
    SameShapeKeepsWellFormed(SwitchPorts(count, layout), out);
  }
}
