/** Roles of bridge members: told by name, the sole physical member taken as uplink when none is
    named, and ignored members marked so that no lookup can miss it. */
module Classify {
  import opened Basics
  import opened Runes
  import opened Ports
  import opened MemberOrder
  import opened Members

  // ---- roles by name ----

  const VIRTUAL_PREFIXES: seq<string> := ["tap", "veth", "fwpr", "fwln", "fwbr", "epair", "vnet"]

  const PHYSICAL_PREFIXES: seq<string> := [
    "eth", "eno", "ens", "enp", "enx", "bond", "team", "lagg",
    "em", "igb", "ix", "ixl", "ice", "bnxt", "bge", "re", "vtnet"]

  predicate IsVirtualAccessMember(name: string) {
    exists prefix <- VIRTUAL_PREFIXES :: HasPrefix(Normal(name), prefix)
  }

  predicate IsPhysicalMember(name: string) {
    exists prefix <- PHYSICAL_PREFIXES :: HasPrefix(Normal(name), prefix)
  }

  function ClassifyMember(member: string, bridge: string, uplink: string): Role {
    var name := Normal(member);
    if name == "" then Unknown
    else if Normal(bridge) != "" && name == Normal(bridge) then BridgeRole
    else if Normal(uplink) != "" && name == Normal(uplink) then UplinkRole
    else if IsVirtualAccessMember(name) then Access
    else Unknown
  }

  /** A member that may be the uplink when none is named. */
  predicate Candidate(member: string, bridge: string, uplink: string) {
    TrimSpace(uplink) == "" && ClassifyMember(member, bridge, uplink) == Unknown && IsPhysicalMember(member)
  }

  ghost function Candidates(members: set<string>, bridge: string, uplink: string): set<string> {
    set m | m in members && Candidate(m, bridge, uplink)
  }

  /** Every member by its name, but for the sole candidate. */
  ghost function Classified(members: set<string>, bridge: string, uplink: string): map<string, Role> {
    map m | m in members ::
      if Candidates(members, bridge, uplink) == {m} then UplinkRole else ClassifyMember(m, bridge, uplink)
  }

  lemma CandidatesStep(seen: set<string>, m: string, bridge: string, uplink: string)
    ensures Candidates(seen + {m}, bridge, uplink)
         == Candidates(seen, bridge, uplink) + if Candidate(m, bridge, uplink) then {m} else {}
  {
    hide Candidate;
  }

  /** Every member by its name alone. */
  ghost function ByName(members: set<string>, bridge: string, uplink: string): map<string, Role> {
    map m | m in members :: ClassifyMember(m, bridge, uplink)
  }

  lemma ByNameStep(seen: set<string>, m: string, bridge: string, uplink: string)
    ensures ByName(seen + {m}, bridge, uplink) == ByName(seen, bridge, uplink)[m := ClassifyMember(m, bridge, uplink)]
    ensures ByName({}, bridge, uplink) == map[]
  {
    hide ClassifyMember;
  }

  method ClassifyByName(members: set<string>, bridge: string, uplink: string)
    returns (roles: map<string, Role>, physical: seq<string>)
    ensures roles == ByName(members, bridge, uplink)
    ensures multiset(physical) == multiset(Candidates(members, bridge, uplink))
  {
    hide ClassifyMember, IsPhysicalMember, TrimSpace, Candidates, ByName;
    roles, physical := map[], [];
    var left := members;
    NoCandidates(bridge, uplink);
    ByNameStep({}, "", bridge, uplink);
    assert members - left == {};
    while left != {}
      invariant left <= members
      invariant roles == ByName(members - left, bridge, uplink)
      invariant multiset(physical) == multiset(Candidates(members - left, bridge, uplink))
      decreases |left|
    {
      var member :| member in left;
      var role := ClassifyMember(member, bridge, uplink);
      ghost var seen := members - left;
      assert members - (left - {member}) == seen + {member};
      CandidatesStep(seen, member, bridge, uplink);
      ByNameStep(seen, member, bridge, uplink);
      CandidatesAreSeen(seen, bridge, uplink);
      roles := roles[member := role];
      if TrimSpace(uplink) == "" && role == Unknown && IsPhysicalMember(member) {
        physical := physical + [member];
      }
      left := left - {member};
    }
    assert members - left == members;
  }

  lemma NoCandidates(bridge: string, uplink: string)
    ensures Candidates({}, bridge, uplink) == {}
  {
  }

  lemma CandidatesAreSeen(seen: set<string>, bridge: string, uplink: string)
    ensures Candidates(seen, bridge, uplink) <= seen
  {
    hide Candidate;
  }

  lemma SoleMember(physical: seq<string>, all: set<string>)
    requires multiset(physical) == multiset(all)
    ensures |physical| == 1 ==> all == {physical[0]}
    ensures |physical| != 1 ==> forall m :: all != {m}
  {
    assert |multiset(physical)| == |physical| && |multiset(all)| == |all|;
    if |physical| == 1 {
      assert physical[0] in multiset(physical);
      assert |all - {physical[0]}| == 0;
    } else {
      forall m
        ensures all != {m}
      {
        assert |{m}| == 1;
      }
    }
  }

  /** Whatever order the members are walked in, the roles are the same. */
  method ClassifyMembers(members: set<string>, bridge: string, uplink: string) returns (roles: map<string, Role>)
    ensures roles == Classified(members, bridge, uplink)
  {
    hide ClassifyMember, Candidates;
    var physical;
    roles, physical := ClassifyByName(members, bridge, uplink);
    SoleMember(physical, Candidates(members, bridge, uplink));
    CandidatesAreSeen(members, bridge, uplink);
    if |physical| == 1 {
      roles := roles[physical[0] := UplinkRole];
    }
  }

  /** A member is taken as uplink exactly when it is the named one, or when none is named and it
      is the only physical member of unknown role; a named bridge is never the uplink. */
  lemma UplinkIff(members: set<string>, bridge: string, uplink: string, m: string)
    requires m in members
    ensures Classified(members, bridge, uplink)[m] == UplinkRole <==>
              || (IsUplinkDevice(m, uplink) && !IsBridgeDevice(m, bridge))
              || (forall other :: other in members && Candidate(other, bridge, uplink) <==> other == m)
  {
    hide IsPhysicalMember, IsVirtualAccessMember;
    var all := Candidates(members, bridge, uplink);
    if all == {m} {
      forall other
        ensures other in members && Candidate(other, bridge, uplink) <==> other == m
      {
        assert other in all <==> other == m;
      }
    }
    if forall other :: other in members && Candidate(other, bridge, uplink) <==> other == m {
      assert forall other :: other in all <==> other == m;
    }
  }

  ghost predicate StartsWithOneOf(m: string, prefixes: seq<string>) {
    exists prefix :: prefix in prefixes && prefix <= Normal(m)
  }

  lemma LooksAre(m: string)
    ensures StartsWithOneOf(m, VIRTUAL_PREFIXES) <==> IsVirtualAccessMember(m)
    ensures StartsWithOneOf(m, PHYSICAL_PREFIXES) <==> IsPhysicalMember(m)
  {
    hide Normal, VIRTUAL_PREFIXES, PHYSICAL_PREFIXES;
    forall prefix
      ensures HasPrefix(Normal(m), prefix) <==> prefix <= Normal(m)
    {
    }
  }

  /** A member that could be the uplink: a network card that is neither the bridge nor virtual. */
  ghost predicate CouldBeUplink(m: string, bridge: string) {
    StartsWithOneOf(m, PHYSICAL_PREFIXES) && !StartsWithOneOf(m, VIRTUAL_PREFIXES) && Normal(m) != "" && Normal(m) != Normal(bridge)
  }

  /** The role of every member, by its name: the bridge, the named uplink, virtual members, and,
      when no uplink is named, the only network card; any other member is unknown. */
  lemma RoleTable(members: set<string>, bridge: string, uplink: string, m: string)
    requires m in members
    ensures Classified(members, bridge, uplink)[m] ==
              var name := Normal(m);
              if name == "" then Unknown
              else if name == Normal(bridge) then BridgeRole
              else if name == Normal(uplink) then UplinkRole
              else if StartsWithOneOf(m, VIRTUAL_PREFIXES) then Access
              else if Normal(uplink) == "" && CouldBeUplink(m, bridge)
                      && (forall other :: other in members && CouldBeUplink(other, bridge) ==> other == m) then UplinkRole
              else Unknown
  {
    forall other
      ensures Candidate(other, bridge, uplink) <==> Normal(uplink) == "" && CouldBeUplink(other, bridge)
    {
      CandidateIff(other, bridge, uplink);
    }
    RoleByName(m, bridge, uplink);
    hide Candidate, CouldBeUplink, ClassifyMember, Normal, StartsWithOneOf, VIRTUAL_PREFIXES;
    var all := Candidates(members, bridge, uplink);
    assert m in all && (forall other :: other in all ==> other == m) ==> all == {m};
    assert all == {m} ==> m in all && forall other :: other in all ==> other == m;
    assert forall other :: other in all <==> other in members && Candidate(other, bridge, uplink);
  }

  lemma RoleByName(m: string, bridge: string, uplink: string)
    ensures ClassifyMember(m, bridge, uplink) ==
              if Normal(m) == "" then Unknown
              else if Normal(m) == Normal(bridge) then BridgeRole
              else if Normal(m) == Normal(uplink) then UplinkRole
              else if StartsWithOneOf(m, VIRTUAL_PREFIXES) then Access
              else Unknown
    ensures CouldBeUplink(m, bridge) ==> Normal(m) != "" && Normal(m) != Normal(bridge) && !StartsWithOneOf(m, VIRTUAL_PREFIXES)
  {
    NormalTwice(m);
    LooksAre(m);
    LooksAre(Normal(m));
    assert StartsWithOneOf(m, VIRTUAL_PREFIXES) <==> StartsWithOneOf(Normal(m), VIRTUAL_PREFIXES) by { hide Normal; }
    hide Normal, IsVirtualAccessMember, StartsWithOneOf, VIRTUAL_PREFIXES, PHYSICAL_PREFIXES;
  }

  lemma CandidateIff(m: string, bridge: string, uplink: string)
    ensures Candidate(m, bridge, uplink) <==> Normal(uplink) == "" && CouldBeUplink(m, bridge)
  {
    RoleByName(m, bridge, uplink);
    LooksAre(m);
    PhysicalHasName(m);
    hide Normal, IsVirtualAccessMember, IsPhysicalMember, StartsWithOneOf, VIRTUAL_PREFIXES, PHYSICAL_PREFIXES, ClassifyMember;
    BlankIff(uplink);
  }

  lemma PhysicalHasName(m: string)
    ensures StartsWithOneOf(m, PHYSICAL_PREFIXES) ==> Normal(m) != ""
  {
    hide Normal;
    assert forall prefix <- PHYSICAL_PREFIXES :: prefix != "";
  }

  lemma BlankIff(text: string)
    ensures TrimSpace(text) == "" <==> Normal(text) == ""
  {
    hide TrimSpace;
  }

  // ---- ignored members ----

  function IgnoredKeys(values: seq<string>): set<string> {
    set v | v in values && Normal(v) != "" :: Normal(v)
  }

  function Marking(roles: map<string, Role>, ignored: set<string>): map<string, Role> {
    map m | m in roles :: if Normal(m) in ignored then Ignored else roles[m]
  }

  /** Ignored members already known change their role, the others are added. */
  function Ignoring(roles: map<string, Role>, ignored: set<string>): map<string, Role> {
    Marking(roles, ignored) + Adding(roles, ignored)
  }

  function Adding(roles: map<string, Role>, keys: set<string>): map<string, Role> {
    map k | k in keys && (forall m <- roles :: Normal(m) != k) :: Ignored
  }

  method IgnoredMemberSet(values: seq<string>) returns (keys: set<string>)
    ensures keys == IgnoredKeys(values)
  {
    keys := {};
    for i := 0 to |values|
      invariant keys == IgnoredKeys(values[..i])
    {
      assert values[..i + 1] == values[..i] + [values[i]];
      if Normal(values[i]) != "" {
        keys := keys + {Normal(values[i])};
      }
    }
    assert values[..|values|] == values;
  }

  method KnownByKey(roles: map<string, Role>, key: string) returns (known: bool)
    ensures known <==> exists m :: m in roles && Normal(m) == key
  {
    var left := roles.Keys;
    while left != {}
      invariant left <= roles.Keys && forall m :: m in roles.Keys - left ==> Normal(m) != key
      decreases |left|
    {
      var m :| m in left;
      if Normal(m) == key {
        return true;
      }
      left := left - {m};
    }
    return false;
  }

  method MarkIgnored(roles: map<string, Role>, ignored: set<string>) returns (out: map<string, Role>)
    ensures out == Marking(roles, ignored)
  {
    hide Normal;
    out := map[];
    var left := roles.Keys;
    while left != {}
      invariant left <= roles.Keys
      invariant out == map m | m in roles.Keys - left :: if Normal(m) in ignored then Ignored else roles[m]
      decreases |left|
    {
      var m :| m in left;
      out := out[m := roles[m]];
      if Normal(m) in ignored {
        out := out[m := Ignored];
      }
      left := left - {m};
    }
  }

  method ApplyIgnoredMembers(roles: map<string, Role>, values: seq<string>) returns (out: map<string, Role>)
    ensures out == if IgnoredKeys(values) == {} then roles else Ignoring(roles, IgnoredKeys(values))
  {
    hide Normal, Marking, Adding, IgnoredKeys;
    var ignored := IgnoredMemberSet(values);
    if ignored == {} {
      return roles;
    }
    out := MarkIgnored(roles, ignored);
    var left := ignored;
    NothingAdded(roles, out);
    assert ignored - left == {};
    while left != {}
      invariant left <= ignored
      invariant out == Marking(roles, ignored) + Adding(roles, ignored - left)
      decreases |left|
    {
      var key :| key in left;
      KeyIsNormal(values, key);
      var known := KnownByKey(out, Normal(key));
      KnownIff(roles, ignored, values, ignored - left, key, out);
      AddingStep(roles, Marking(roles, ignored), ignored - left, key);
      assert ignored - (left - {key}) == (ignored - left) + {key};
      if !known {
        out := out[key := Ignored];
      }
      left := left - {key};
    }
    assert ignored - left == ignored;
  }

  lemma NothingAdded(roles: map<string, Role>, marked: map<string, Role>)
    ensures marked + Adding(roles, {}) == marked
  {
  }

  lemma AddingStep(roles: map<string, Role>, marked: map<string, Role>, done: set<string>, key: string)
    ensures marked + Adding(roles, done + {key})
         == if exists m :: m in roles && Normal(m) == key then marked + Adding(roles, done)
            else (marked + Adding(roles, done))[key := Ignored]
  {
    hide Normal;
    if m :| m in roles && Normal(m) == key {
      assert Adding(roles, done + {key}) == Adding(roles, done);
    } else {
      assert Adding(roles, done + {key}) == Adding(roles, done)[key := Ignored];
    }
  }

  lemma KeyIsNormal(values: seq<string>, key: string)
    requires key in IgnoredKeys(values)
    ensures Normal(key) == key
  {
    var v :| v in values && Normal(v) == key;
    NormalTwice(v);
  }

  lemma KnownIff(roles: map<string, Role>, ignored: set<string>, values: seq<string>, done: set<string>, key: string, out: map<string, Role>)
    requires ignored == IgnoredKeys(values) && done <= ignored && key in ignored - done
    requires out == Marking(roles, ignored) + Adding(roles, done)
    ensures (exists m :: m in out && Normal(m) == key) <==> exists m :: m in roles && Normal(m) == key
  {
    hide Normal;
    forall k | k in done
      ensures Normal(k) == k
    {
      KeyIsNormal(values, k);
    }
  }

  /** An ignored member is ignored under every spelling of its name, whatever order the role map
      is walked in, so it never asks for a port. */
  lemma IgnoredNeverAsks(s: Snapshot, roles: map<string, Role>, values: seq<string>, name: string,
                         remote: set<string>, macKey: string -> string, task: Option<Task>)
    requires Normal(name) in IgnoredKeys(values) && s.roles == Ignoring(roles, IgnoredKeys(values))
    requires name in s.devices && MayAsk(s, remote, macKey, name, task)
    ensures forall role :: MayBe(s, name, role) ==> role == Ignored
    ensures task == None
  {
    hide Normal, TrimSpace, LocalEntries, PinOf, CarriesUplink;
    forall role | MayBe(s, name, role)
      ensures role == Ignored
    {
      var r :| MayFind(s.roles, name, r) && role == r.GetOr(Unknown);
      OnlyIgnored(roles, values, name, r);
    }
  }

  lemma OnlyIgnored(roles: map<string, Role>, values: seq<string>, name: string, r: Option<Role>)
    requires Normal(name) in IgnoredKeys(values) && MayFind(Ignoring(roles, IgnoredKeys(values)), name, r)
    ensures r == Some(Ignored)
  {
    hide Normal, TrimSpace;
    var ignored := IgnoredKeys(values);
    var all := Ignoring(roles, ignored);
    NormalTwice(name);
    KeyIsNormal(values, Normal(name));
    forall m | m in all && Normal(m) == Normal(name)
      ensures all[m] == Ignored
    {
    }
    if forall m <- roles :: Normal(m) != Normal(name) {
      assert Normal(name) in all;
    } else {
      var m :| m in roles && Normal(m) == Normal(name);
      assert m in all;
    }
  }

  /** Ignoring members changes nobody else's role. */
  lemma OthersKeepRole(roles: map<string, Role>, values: seq<string>, name: string, r: Option<Role>)
    requires Normal(name) !in IgnoredKeys(values)
    ensures MayFind(Ignoring(roles, IgnoredKeys(values)), name, r) <==> MayFind(roles, name, r)
  {
    hide Normal, TrimSpace;
    var ignored := IgnoredKeys(values);
    var all := Ignoring(roles, ignored);
    NormalTwice(name);
    forall m | Normal(m) == Normal(name)
      ensures (m in all <==> m in roles) && (m in all ==> all[m] == roles[m])
    {
      if m in ignored {
        KeyIsNormal(values, m);
      }
    }
  }
}
