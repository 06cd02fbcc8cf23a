/** The capacity theorem over the members of a snapshot: exactly when each of them shows its own
    addresses on a port of its own. */
module Capacity {
  import opened Basics
  import opened Runes
  import opened Ports
  import opened MemberOrder
  import opened Members
  import opened Observe
  import opened Assignment

  // ---- counting ----

  ghost predicate Injective(m: map<string, int>) {
    forall a, b :: a in m && b in m && m[a] == m[b] ==> a == b
  }

  /** A map has no more values than keys, and as many exactly when no value repeats. */
  lemma {:induction false} ImageSize(m: map<string, int>)
    ensures |m.Values| <= |m|
    ensures |m.Values| == |m| <==> Injective(m)
    decreases |m|
  {
    if m.Keys != {} {
      var k :| k in m.Keys;
      var rest := m - {k};
      assert m.Keys == rest.Keys + {k} && |m.Keys| == |m| && |rest.Keys| == |rest|;
      ImageSize(rest);
      assert m.Values == rest.Values + {m[k]} by { ValuesSplit(m, k); }
      if m[k] in rest.Values {
        var other :| other in rest && rest[other] == m[k];
        assert !Injective(m);
      } else {
        assert Injective(m) <==> Injective(rest) by { OneMoreValue(m, k); }
      }
    } else {
      assert m == map[] && m.Values == {};
    }
  }

  lemma ValuesSplit(m: map<string, int>, k: string)
    requires k in m
    ensures m.Values == (m - {k}).Values + {m[k]}
  {
    var rest := m - {k};
    forall v
      ensures v in m.Values <==> v in rest.Values + {m[k]}
    {
      if v in m.Values {
        var key :| key in m && m[key] == v;
        assert key == k || (key in rest && rest[key] == v);
      }
      if v in rest.Values {
        var key :| key in rest && rest[key] == v;
        assert key in m && m[key] == v;
      }
    }
  }

  lemma OneMoreValue(m: map<string, int>, k: string)
    requires k in m && m[k] !in (m - {k}).Values
    ensures Injective(m) <==> Injective(m - {k})
  {
    var rest := m - {k};
    assert forall a :: a in rest ==> rest[a] in rest.Values && m[a] == rest[a];
  }

  lemma SubsetIsSmaller(a: set<int>, b: set<int>)
    requires a <= b
    ensures |a| <= |b|
  {
    assert b == a + (b - a);
  }

  // ---- the capacity condition ----

  predicate Usable(s: Snapshot, count: nat, name: string) {
    1 <= PinOf(s, name) <= count
  }

  function WithoutPin(s: Snapshot, count: nat, members: set<string>): set<string> {
    set n | n in members && !Usable(s, count, n)
  }

  /** What a caller can check beforehand: usable pins of these members differ and spare the
      uplink, and the members without one are no more than the ports neither uplink nor pinned. */
  ghost predicate MembersFit(s: Snapshot, plan: Plan, members: set<string>) {
    && (forall n :: n in members && Usable(s, plan.count, n) ==> PinOf(s, n) != plan.uplink)
    && (forall m, n :: m in members && n in members && m != n && Usable(s, plan.count, m) && Usable(s, plan.count, n) ==>
          PinOf(s, m) != PinOf(s, n))
    && |WithoutPin(s, plan.count, members)| <= |plan.free|
  }

  /** The members whose claims are among the tasks. */
  ghost function Claiming(tasks: seq<Task>): set<string> {
    set k | 0 <= k < |tasks| && tasks[k].Claim? :: tasks[k].name
  }

  lemma {:induction false} WantingIsACount(s: Snapshot, plan: Plan, tasks: seq<Task>)
    requires Once(tasks) && forall task <- tasks :: task.Claim? ==> task.pin == PinOf(s, task.name)
    ensures Wanting(plan, tasks) == |WithoutPin(s, plan.count, Claiming(tasks))|
    decreases |tasks|
  {
    hide PinOf, Claiming, WithoutPin, Unpinned;
    if tasks != [] {
      var n := |tasks| - 1;
      assert forall task <- tasks[..n] :: task in tasks;
      assert tasks[n] in tasks;
      WantingIsACount(s, plan, tasks[..n]);
      ClaimingStep(tasks);
      WithoutPinStep(s, plan, Claiming(tasks[..n]), tasks[n]);
    } else {
      assert WithoutPin(s, plan.count, Claiming(tasks)) == {} by { NobodyClaims(s, plan.count); }
    }
  }

  lemma NobodyClaims(s: Snapshot, count: nat)
    ensures WithoutPin(s, count, Claiming([])) == {}
  {
  }

  lemma WithoutPinStep(s: Snapshot, plan: Plan, before: set<string>, last: Task)
    requires last.name !in before && (last.Claim? ==> last.pin == PinOf(s, last.name))
    ensures |WithoutPin(s, plan.count, before + if last.Claim? then {last.name} else {})|
         == |WithoutPin(s, plan.count, before)| + if Unpinned(plan, last) then 1 else 0
  {
    hide PinOf;
    var some := WithoutPin(s, plan.count, before);
    if Unpinned(plan, last) {
      assert WithoutPin(s, plan.count, before + {last.name}) == some + {last.name};
    } else if last.Claim? {
      assert WithoutPin(s, plan.count, before + {last.name}) == some;
    } else {
      assert before + {} == before;
    }
  }

  lemma ClaimingStep(tasks: seq<Task>)
    requires tasks != []
    ensures var n := |tasks| - 1;
            && Claiming(tasks) == Claiming(tasks[..n]) + (if tasks[n].Claim? then {tasks[n].name} else {})
            && (Once(tasks) ==> tasks[n].name !in Claiming(tasks[..n]))
  {
    var n := |tasks| - 1;
    assert forall k :: 0 <= k < n ==> tasks[..n][k] == tasks[k];
  }

  lemma FitsIffMembersFit(s: Snapshot, plan: Plan, tasks: seq<Task>)
    requires Once(tasks) && forall task <- tasks :: task.Claim? ==> task.pin == PinOf(s, task.name)
    ensures Fits(plan, tasks) <==> MembersFit(s, plan, Claiming(tasks))
  {
    WantingIsACount(s, plan, tasks);
    hide Wanting, WithoutPin, PinOf;
    assert forall k :: 0 <= k < |tasks| ==> tasks[k] in tasks;
    var members := Claiming(tasks);
    if MembersFit(s, plan, members) {
      forall j, k | 0 <= j < k < |tasks| && Pinned(plan, tasks[j]) && Pinned(plan, tasks[k])
        ensures tasks[j].pin != tasks[k].pin
      {
        assert tasks[j].name in members && tasks[k].name in members;
      }
      forall k | 0 <= k < |tasks| && Pinned(plan, tasks[k])
        ensures tasks[k].pin != plan.uplink
      {
        assert tasks[k].name in members;
      }
    }
    if Fits(plan, tasks) {
      forall m, n | m in members && n in members && m != n && Usable(s, plan.count, m) && Usable(s, plan.count, n)
        ensures PinOf(s, m) != PinOf(s, n)
      {
        var j :| 0 <= j < |tasks| && tasks[j].Claim? && tasks[j].name == m;
        var k :| 0 <= k < |tasks| && tasks[k].Claim? && tasks[k].name == n;
        assert Pinned(plan, tasks[j]) && Pinned(plan, tasks[k]);
      }
      forall n | n in members && Usable(s, plan.count, n)
        ensures PinOf(s, n) != plan.uplink
      {
        var k :| 0 <= k < |tasks| && tasks[k].Claim? && tasks[k].name == n;
        assert Pinned(plan, tasks[k]);
      }
    }
  }

  // ---- homes ----

  /** The place in the order of tasks at which a member's claim is served. */
  ghost function Turn(tasks: seq<Task>, name: string): (k: nat)
    requires name in Claiming(tasks)
    ensures k < |tasks| && tasks[k].Claim? && tasks[k].name == name
  {
    var k :| 0 <= k < |tasks| && tasks[k].Claim? && tasks[k].name == name;
    k
  }

  ghost function Homes(plan: Plan, tasks: seq<Task>): map<string, int> {
    map n | n in Claiming(tasks) :: Slot(plan, tasks, Turn(tasks, n))
  }

  lemma HomeOf(plan: Plan, tasks: seq<Task>, k: nat)
    requires Once(tasks) && k < |tasks| && tasks[k].Claim?
    ensures tasks[k].name in Homes(plan, tasks) && Homes(plan, tasks)[tasks[k].name] == Slot(plan, tasks, k)
  {
    hide Slot;
    assert tasks[k].name in Claiming(tasks);
    assert Turn(tasks, tasks[k].name) == k;
  }

  /** Every claim has its own port exactly when the map of homes is injective and spares the uplink. */
  lemma OwnPortsAreHomes(plan: Plan, tasks: seq<Task>)
    requires Once(tasks)
    ensures OwnPorts(plan, tasks) <==> Injective(Homes(plan, tasks)) && plan.uplink !in Homes(plan, tasks).Values
  {
    hide Slot;
    var homes := Homes(plan, tasks);
    forall k: nat | k < |tasks| && tasks[k].Claim?
      ensures tasks[k].name in homes && homes[tasks[k].name] == Slot(plan, tasks, k) && Slot(plan, tasks, k) in homes.Values
    {
      HomeOf(plan, tasks, k);
      assert homes[tasks[k].name] in homes.Values;
    }
    if OwnPorts(plan, tasks) {
      forall a, b | a in homes && b in homes && homes[a] == homes[b]
        ensures a == b
      {
        var j, k := Turn(tasks, a), Turn(tasks, b);
        assert Slot(plan, tasks, j) == Slot(plan, tasks, k);
      }
      forall v | v in homes.Values
        ensures v != plan.uplink
      {
        var n :| n in homes && homes[n] == v;
        assert Slot(plan, tasks, Turn(tasks, n)) == v;
      }
    }
  }

  /** Each of these members has its own port off the uplink, holding exactly its local addresses. */
  ghost predicate Housed(out: seq<Port>, s: Snapshot, remote: set<string>, macKey: string -> string, uplink: int,
                         members: set<string>, homes: map<string, int>) {
    && homes.Keys == members && Injective(homes)
    && forall n :: n in homes ==>
         && n in s.devices && 1 <= homes[n] <= |out| && homes[n] != uplink
         && out[homes[n] - 1].macs == LocalEntries(s.devices[n], remote, macKey)
  }

  /** Pinned members are on their pins, the others off every pinned port. */
  ghost predicate AsPinned(s: Snapshot, count: nat, homes: map<string, int>) {
    forall n :: n in homes ==>
      if Usable(s, count, n) then homes[n] == PinOf(s, n) else homes[n] !in PinnedPorts(s.pins, count)
  }

  ghost predicate NothingElsewhere(out: seq<Port>, homes: map<string, int>) {
    forall p :: 1 <= p <= |out| && p !in homes.Values ==> out[p - 1].macs == []
  }

  /** What is known of one reading, in the terms of this module. */
  ghost predicate Read(s: Snapshot, remote: set<string>, macKey: string -> string, tasks: seq<Task>) {
    && Once(tasks)
    && forall task <- tasks :: task.Claim? ==>
         && task.name in s.devices && task.macs != []
         && task.macs == LocalEntries(s.devices[task.name], remote, macKey) && task.pin == PinOf(s, task.name)
  }

  lemma AskedIsRead(s: Snapshot, macKey: string -> string, remote: set<string>, tasks: seq<Task>)
    requires MayAskFor(s, macKey, remote, tasks)
    ensures Read(s, remote, macKey, tasks)
  {
    hide MayAskFor, MustClaim, MayClaim, LocalEntries, PinOf;
    EveryClaimantAsksOnce(s, macKey, remote, tasks);
    AskedTasksFit(s, macKey, remote, tasks);
    forall task | task in tasks
      ensures ClaimFits(s, remote, macKey, task)
    {
    }
  }

  lemma HomeServes(out: seq<Port>, s: Snapshot, remote: set<string>, macKey: string -> string, plan: Plan, tasks: seq<Task>,
                   k: nat)
    requires Read(s, remote, macKey, tasks) && OwnPorts(plan, tasks) && |out| == plan.count
    requires AddressesKept(out, plan, tasks) && SparesPins(plan, tasks, PinnedPorts(s.pins, plan.count))
    requires k < |tasks| && tasks[k].Claim?
    ensures var n, home := tasks[k].name, Slot(plan, tasks, k);
            && n in s.devices && 1 <= home <= |out| && home != plan.uplink
            && out[home - 1].macs == LocalEntries(s.devices[n], remote, macKey)
            && if Usable(s, plan.count, n) then home == PinOf(s, n) else home !in PinnedPorts(s.pins, plan.count)
  {
    hide Slot, LocalEntries, PinOf, PinnedPorts;
    assert tasks[k] in tasks;
    if Usable(s, plan.count, tasks[k].name) {
      PinnedSlot(plan, tasks, k);
    } else {
      assert Unpinned(plan, tasks[k]);
    }
  }

  lemma HomesCoverClaims(out: seq<Port>, plan: Plan, tasks: seq<Task>)
    requires Once(tasks) && AddressesKept(out, plan, tasks)
    ensures NothingElsewhere(out, Homes(plan, tasks))
  {
    hide Slot, Homes;
    var homes := Homes(plan, tasks);
    forall p | 1 <= p <= |out| && p !in homes.Values
      ensures out[p - 1].macs == []
    {
      forall k: nat | k < |tasks| && tasks[k].Claim?
        ensures Slot(plan, tasks, k) != p
      {
        HomeOf(plan, tasks, k);
        assert homes[tasks[k].name] in homes.Values;
      }
      assert Unclaimed(plan, tasks, p - 1 + 1);
    }
  }

  lemma HomesArePorts(out: seq<Port>, s: Snapshot, remote: set<string>, macKey: string -> string, plan: Plan, tasks: seq<Task>)
    requires Read(s, remote, macKey, tasks) && OwnPorts(plan, tasks) && |out| == plan.count
    requires AddressesKept(out, plan, tasks) && SparesPins(plan, tasks, PinnedPorts(s.pins, plan.count))
    ensures forall n :: n in Homes(plan, tasks) ==>
              && n in s.devices && 1 <= Homes(plan, tasks)[n] <= |out| && Homes(plan, tasks)[n] != plan.uplink
              && out[Homes(plan, tasks)[n] - 1].macs == LocalEntries(s.devices[n], remote, macKey)
    ensures AsPinned(s, plan.count, Homes(plan, tasks))
  {
    hide Slot, LocalEntries, PinOf, PinnedPorts, Read, AddressesKept, SparesPins, Usable, OwnPorts;
    var homes := Homes(plan, tasks);
    forall n | n in homes
      ensures n in s.devices && 1 <= homes[n] <= |out| && homes[n] != plan.uplink
      ensures out[homes[n] - 1].macs == LocalEntries(s.devices[n], remote, macKey)
      ensures if Usable(s, plan.count, n) then homes[n] == PinOf(s, n) else homes[n] !in PinnedPorts(s.pins, plan.count)
    {
      HomeServes(out, s, remote, macKey, plan, tasks, Turn(tasks, n));
    }
  }

  /** When the members fit, their homes serve them. */
  lemma HomesServe(out: seq<Port>, s: Snapshot, remote: set<string>, macKey: string -> string, plan: Plan, tasks: seq<Task>)
    requires Read(s, remote, macKey, tasks) && OwnPorts(plan, tasks) && |out| == plan.count
    requires AddressesKept(out, plan, tasks) && SparesPins(plan, tasks, PinnedPorts(s.pins, plan.count))
    ensures Housed(out, s, remote, macKey, plan.uplink, Claiming(tasks), Homes(plan, tasks))
    ensures AsPinned(s, plan.count, Homes(plan, tasks)) && NothingElsewhere(out, Homes(plan, tasks))
  {
    ReadClaimsArePinned(s, remote, macKey, tasks);
    assert Homes(plan, tasks).Keys == Claiming(tasks);
    hide Homes, LocalEntries, PinnedPorts, Read, AddressesKept, SparesPins, NothingElsewhere, Once, OwnPorts, Claiming, AsPinned, Injective;
    OwnPortsAreHomes(plan, tasks);
    HomesCoverClaims(out, plan, tasks);
    HomesArePorts(out, s, remote, macKey, plan, tasks);
  }

  lemma ClaimHasAddresses(s: Snapshot, remote: set<string>, macKey: string -> string, tasks: seq<Task>, n: string)
    requires Read(s, remote, macKey, tasks) && n in Claiming(tasks)
    ensures n in s.devices && LocalEntries(s.devices[n], remote, macKey) != []
  {
    hide LocalEntries, PinOf, Once;
    assert tasks[Turn(tasks, n)] in tasks;
  }

  /** A port that shows addresses is somebody's home. */
  lemma HousedPortIsClaimed(out: seq<Port>, s: Snapshot, remote: set<string>, macKey: string -> string, plan: Plan,
                            tasks: seq<Task>, homes: map<string, int>, n: string)
    requires Read(s, remote, macKey, tasks) && |out| == plan.count && n in homes
    requires Housed(out, s, remote, macKey, plan.uplink, Claiming(tasks), homes)
    requires forall i :: 0 <= i < |out| && Unclaimed(plan, tasks, i + 1) ==> out[i].macs == []
    ensures homes[n] in Homes(plan, tasks).Values && homes[n] != plan.uplink
  {
    assert n in Claiming(tasks);
    ReadClaimsArePinned(s, remote, macKey, tasks);
    HomeOfMember(out, s, remote, macKey, plan.uplink, Claiming(tasks), homes, n);
    ClaimHasAddresses(s, remote, macKey, tasks, n);
    hide Slot, LocalEntries, PinOf, Homes, Housed, Read, Once;
    var v := homes[n];
    assert !Unclaimed(plan, tasks, v - 1 + 1);
    var k :| 0 <= k < |tasks| && tasks[k].Claim? && Slot(plan, tasks, k) == v;
    HomeOf(plan, tasks, k);
    assert Homes(plan, tasks)[tasks[k].name] in Homes(plan, tasks).Values;
  }

  /** When every member can be given a port of its own, every claim has one: there are no more
      ports with addresses than there are claims off the uplink. */
  lemma HousedMeansOwnPorts(out: seq<Port>, s: Snapshot, remote: set<string>, macKey: string -> string, plan: Plan,
                            tasks: seq<Task>, homes: map<string, int>)
    requires Read(s, remote, macKey, tasks) && |out| == plan.count
    requires Housed(out, s, remote, macKey, plan.uplink, Claiming(tasks), homes)
    requires forall i :: 0 <= i < |out| && Unclaimed(plan, tasks, i + 1) ==> out[i].macs == []
    ensures OwnPorts(plan, tasks)
  {
    ReadClaimsArePinned(s, remote, macKey, tasks);
    assert Homes(plan, tasks).Keys == homes.Keys && Injective(homes);
    forall v | v in homes.Values
      ensures v in Homes(plan, tasks).Values && v != plan.uplink
    {
      var n :| n in homes && homes[n] == v;
      HousedPortIsClaimed(out, s, remote, macKey, plan, tasks, homes, n);
    }
    OwnPortsAreHomes(plan, tasks);
    NoRoomToShare(homes, Homes(plan, tasks), plan.uplink);
  }

  /** As many distinct values elsewhere as there are keys leave no repetition and no room for one
      value more. */
  lemma NoRoomToShare(homes: map<string, int>, slots: map<string, int>, uplink: int)
    requires slots.Keys == homes.Keys && Injective(homes)
    requires forall v :: v in homes.Values ==> v in slots.Values && v != uplink
    ensures Injective(slots) && uplink !in slots.Values
  {
    hide Injective;
    ImageSize(homes);
    ImageSize(slots);
    assert |slots| == |slots.Keys| && |homes| == |homes.Keys|;
    forall v | v in homes.Values
      ensures v in slots.Values - {uplink}
    {
    }
    SubsetIsSmaller(homes.Values, slots.Values - {uplink});
    assert |slots.Values - {uplink}| == |slots.Values| - if uplink in slots.Values then 1 else 0;
  }

  // ---- the theorem ----

  /** The members that claim in a given reading fit exactly when each can be found on a port of
      its own; and then pinned ones are on their pins and no other port shows an address. */
  lemma ReadMembersFitIff(ports: seq<Port>, s: Snapshot, macKey: string -> string, remote: set<string>, tasks: seq<Task>)
    requires Numbered(ports) && ports != [] && s.devices != map[] && MayAskFor(s, macKey, remote, tasks)
    ensures 1 <= UplinkIndex(ports, s) <= |ports|
    ensures var plan, out := PlanFor(s, UplinkIndex(ports, s), |ports|), Applied(ports, s, tasks);
            var members := Claiming(tasks);
            && (MembersFit(s, plan, members) <==> exists homes :: Housed(out, s, remote, macKey, plan.uplink, members, homes))
            && (MembersFit(s, plan, members) ==>
                  exists homes :: Housed(out, s, remote, macKey, plan.uplink, members, homes)
                                  && AsPinned(s, |ports|, homes) && NothingElsewhere(out, homes))
  {
    ClaimsKeepTheirAddresses(ports, s, macKey, remote, tasks);
    AskedIsRead(s, macKey, remote, tasks);
    PlanNames(s, UplinkIndex(ports, s), |ports|);
    var plan, out := PlanFor(s, UplinkIndex(ports, s), |ports|), Applied(ports, s, tasks);
    hide PlanFor, Applied, UplinkIndex, MayAskFor, Read, Fits, OwnPorts, Housed, AsPinned, NothingElsewhere, AddressesKept;
    hide SparesPins, MembersFit, Homes, Numbered, PinnedPorts, Claiming, Unclaimed;
    assert Fits(plan, tasks) <==> MembersFit(s, plan, Claiming(tasks)) by {
      ReadClaimsArePinned(s, remote, macKey, tasks);
      FitsIffMembersFit(s, plan, tasks);
    }
    if MembersFit(s, plan, Claiming(tasks)) {
      HomesServe(out, s, remote, macKey, plan, tasks);
    }
    if homes :| Housed(out, s, remote, macKey, plan.uplink, Claiming(tasks), homes) {
      UnclaimedAreEmpty(ports, s, tasks);
      HousedMeansOwnPorts(out, s, remote, macKey, plan, tasks, homes);
    }
  }

  lemma ReadClaimsArePinned(s: Snapshot, remote: set<string>, macKey: string -> string, tasks: seq<Task>)
    requires Read(s, remote, macKey, tasks)
    ensures Once(tasks) && forall task <- tasks :: task.Claim? ==> task.pin == PinOf(s, task.name)
  {
    hide PinOf, LocalEntries;
  }

  lemma UnclaimedAreEmpty(ports: seq<Port>, s: Snapshot, tasks: seq<Task>)
    requires Numbered(ports) && s.devices != map[] && 1 <= UplinkIndex(ports, s) <= |ports|
    ensures forall i :: 0 <= i < |ports| && Unclaimed(PlanFor(s, UplinkIndex(ports, s), |ports|), tasks, i + 1) ==>
              Applied(ports, s, tasks)[i].macs == []
  {
    hide UplinkIndex, Applied, PlanFor, Unclaimed;
    forall i | 0 <= i < |ports| && Unclaimed(PlanFor(s, UplinkIndex(ports, s), |ports|), tasks, i + 1)
      ensures Applied(ports, s, tasks)[i].macs == []
    {
      UnclaimedIsEmpty(ports, s, tasks, i);
    }
  }

  /** With distinct role names the members that claim are those of the snapshot. */
  lemma ClaimingIsClaimants(s: Snapshot, macKey: string -> string, remote: set<string>, tasks: seq<Task>)
    requires MayAskFor(s, macKey, remote, tasks) && Apart(s.roles.Keys)
    ensures Claiming(tasks) == Claimants(s, remote, macKey)
  {
    hide MayAskFor, MayClaim, MustClaim, LocalEntries, PinOf, Apart;
    EveryClaimantAsksOnce(s, macKey, remote, tasks);
    forall n
      ensures n in Claiming(tasks) <==> n in Claimants(s, remote, macKey)
    {
      ClaimantsAreCertain(s, remote, macKey, n);
      if n in Claiming(tasks) {
        assert tasks[Turn(tasks, n)] in tasks;
        OnlyDevicesClaim(s, remote, macKey, n);
      }
      if n in Claimants(s, remote, macKey) {
        var task :| task in tasks && task.Claim? && task.name == n;
        var k :| 0 <= k < |tasks| && tasks[k] == task;
      }
    }
  }

  lemma OnlyDevicesClaim(s: Snapshot, remote: set<string>, macKey: string -> string, n: string)
    requires MayClaim(s, remote, macKey, n)
    ensures n in s.devices
  {
  }

  /** The capacity theorem. Take the snapshot's members that are neither ignored nor bridge nor
      uplink and have local addresses. Each of them can be found on a port of its own, off the
      uplink and holding exactly those addresses, if and only if their usable pins differ and
      spare the uplink and the ones without a pin are no more than the free ports. Pinned
      members are then on their pins, the others off every pinned port, and no other port
      shows any address. */
  lemma EveryMemberHasItsPortIff(ports: seq<Port>, s: Snapshot, macKey: string -> string, remote: set<string>, tasks: seq<Task>)
    requires Numbered(ports) && ports != [] && s.devices != map[] && Apart(s.roles.Keys)
    requires MayAskFor(s, macKey, remote, tasks)
    ensures 1 <= UplinkIndex(ports, s) <= |ports|
    ensures var plan, out := PlanFor(s, UplinkIndex(ports, s), |ports|), Applied(ports, s, tasks);
            var members := Claimants(s, remote, macKey);
            && (MembersFit(s, plan, members) <==> exists homes :: Housed(out, s, remote, macKey, plan.uplink, members, homes))
            && (MembersFit(s, plan, members) ==>
                  exists homes :: Housed(out, s, remote, macKey, plan.uplink, members, homes)
                                  && AsPinned(s, |ports|, homes) && NothingElsewhere(out, homes))
  {
    hide MayAskFor, MembersFit, Housed, AsPinned, NothingElsewhere, Applied, UplinkIndex, PlanFor, Claimants, Claiming, Apart, Numbered;
    ReadMembersFitIff(ports, s, macKey, remote, tasks);
    ClaimingIsClaimants(s, macKey, remote, tasks);
  }

  // ---- ambiguous roles ----

  lemma FewerMembersFit(s: Snapshot, plan: Plan, some: set<string>, all: set<string>)
    requires some <= all && MembersFit(s, plan, all)
    ensures MembersFit(s, plan, some)
  {
    hide PinOf;
    var few, many := WithoutPin(s, plan.count, some), WithoutPin(s, plan.count, all);
    assert many == few + (many - few);
  }

  /** Even when two spellings of a name carry different roles: if all members that might claim
      fit, then every member that certainly claims has its port, whichever way the maps are walked. */
  lemma CertainMembersKeepTheirPort(ports: seq<Port>, s: Snapshot, macKey: string -> string, remote: set<string>,
                                    tasks: seq<Task>, name: string)
    requires Numbered(ports) && ports != [] && s.devices != map[] && MayAskFor(s, macKey, remote, tasks)
    requires 1 <= UplinkIndex(ports, s) <= |ports|
    requires MembersFit(s, PlanFor(s, UplinkIndex(ports, s), |ports|), Claimants(s, remote, macKey))
    requires MustClaim(s, remote, macKey, name)
    ensures name in s.devices
    ensures exists i :: 0 <= i < |ports| && i != UplinkIndex(ports, s) - 1
                        && Applied(ports, s, tasks)[i].macs == LocalEntries(s.devices[name], remote, macKey)
  {
    var plan, out := PlanFor(s, UplinkIndex(ports, s), |ports|), Applied(ports, s, tasks);
    PlanNames(s, UplinkIndex(ports, s), |ports|);
    hide MayAskFor, MembersFit, AsPinned, NothingElsewhere, Housed, Applied, UplinkIndex, PlanFor, Numbered, LocalEntries, PinOf;
    hide MustClaim, Claiming, Claimants;
    ClaimingAmongClaimants(s, macKey, remote, tasks, name);
    FewerMembersFit(s, plan, Claiming(tasks), Claimants(s, remote, macKey));
    ReadMembersFitIff(ports, s, macKey, remote, tasks);
    var homes :| Housed(out, s, remote, macKey, plan.uplink, Claiming(tasks), homes);
    HomeOfMember(out, s, remote, macKey, plan.uplink, Claiming(tasks), homes, name);
  }

  lemma HomeOfMember(out: seq<Port>, s: Snapshot, remote: set<string>, macKey: string -> string, uplink: int,
                     members: set<string>, homes: map<string, int>, name: string)
    requires Housed(out, s, remote, macKey, uplink, members, homes) && name in members
    ensures name in homes && name in s.devices && 1 <= homes[name] <= |out| && homes[name] != uplink
    ensures out[homes[name] - 1].macs == LocalEntries(s.devices[name], remote, macKey)
  {
    hide LocalEntries, Injective;
  }

  lemma ClaimingAmongClaimants(s: Snapshot, macKey: string -> string, remote: set<string>, tasks: seq<Task>, name: string)
    requires MayAskFor(s, macKey, remote, tasks)
    ensures Claiming(tasks) <= Claimants(s, remote, macKey)
    ensures MustClaim(s, remote, macKey, name) ==> name in Claiming(tasks)
  {
    hide MayAskFor, MayClaim, MustClaim, LocalEntries, PinOf;
    EveryClaimantAsksOnce(s, macKey, remote, tasks);
    forall n | n in Claiming(tasks)
      ensures n in Claimants(s, remote, macKey)
    {
      assert tasks[Turn(tasks, n)] in tasks;
      OnlyDevicesClaim(s, remote, macKey, n);
    }
    if MustClaim(s, remote, macKey, name) {
      var task :| task in tasks && task.Claim? && task.name == name;
      var k :| 0 <= k < |tasks| && tasks[k] == task;
    }
  }
}
