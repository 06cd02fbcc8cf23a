/** What a configuration migration comes to: when it is refused, what every setting is
    afterwards and what is reported, all in terms of the settings it starts from. */
module MigrationResult {
  import opened Basics
  import opened Runes
  import opened YamlTree
  import opened Migrate

  // ---- one alias and its target ----

  ghost predicate Blank(node: Node) {
    TrimSpace(node.value) == ""
  }

  /** Nothing is lost by folding an alias into its target: both are scalars, and the target
      is absent, blank or the same text. */
  ghost predicate Foldable(alias: Option<Node>, target: Option<Node>) {
    alias.Some? ==>
      && alias.value.kind == Scalar
      && (target.Some? ==>
            target.value.kind == Scalar && (Blank(target.value) || TrimSpace(target.value.value) == TrimSpace(alias.value.value)))
  }

  /** The alias has something to say that the target does not. */
  ghost predicate Taken(alias: Option<Node>, target: Option<Node>) {
    alias.Some? && (target.None? || (Blank(target.value) && !Blank(alias.value)))
  }

  ghost function Folded(alias: Option<Node>, target: Option<Node>): Option<Node> {
    if Taken(alias, target) then alias else target
  }

  /** A move when the alias's node is taken, a removed duplicate when it is only dropped. */
  ghost function Report(alias: Option<Node>, taken: bool, name: string, target: string): seq<Action> {
    if alias.None? then [] else if taken then [Moved(name, target)] else [RemovedDuplicate(name)]
  }

  /** The bridge step passes over a blank legacy setting. */
  ghost function Spoken(alias: Option<Node>): Option<Node> {
    if alias.Some? && alias.value.kind == Scalar && Blank(alias.value) then None else alias
  }

  /** The nested settings' node with new content; a fresh mapping when there was none. */
  ghost function BridgeNode(bridge: Option<Node>, inner: seq<Node>): Node {
    if bridge.None? then Node(Mapping, "!!map", "", inner) else bridge.value.(content := inner)
  }

  ghost predicate IsObserve(mode: Option<Node>) {
    mode.Some? && mode.value.kind == Scalar && TrimSpace(mode.value.value) == "observe"
  }

  ghost function NewMode(mode: Option<Node>): Option<Node> {
    if IsObserve(mode) then Some(mode.value.(value := "bridge-observe")) else mode
  }

  // ---- each step exactly ----

  lemma ScalarStepIs(d: Draft, alias: string, target: string)
    requires Plain(d.content) && alias != target
    ensures ScalarAlias(d, alias, target).Some? <==> Foldable(Child(d.content, alias), Child(d.content, target))
    ensures ScalarAlias(d, alias, target).Some? ==>
              var a, t, after := Child(d.content, alias), Child(d.content, target), ScalarAlias(d, alias, target).value;
              && Child(after.content, target) == Folded(a, t)
              && after.actions == d.actions + Report(a, Taken(a, t), alias, target)
  {
    hide Plain, SameBut, TrimSpace;
    var i, t := KeyIndex(d.content, alias), KeyIndex(d.content, target);
    if i < 0 {
      assert d.actions + [] == d.actions;
    } else if t < 0 {
      RenameOneKey(d.content, alias, target);
    } else if ScalarAlias(d, alias, target).Some? {
      var aliasValue := d.content[i + 1];
      if Blank(d.content[t + 1]) && !Blank(aliasValue) {
        var moved := d.content[t + 1 := aliasValue];
        ReplaceValue(d.content, target, aliasValue, alias);
        ReplaceChild(d.content, target, aliasValue);
        RemoveKey(moved, alias);
        SameChild(moved, RemovePair(moved, i), {alias}, target);
      } else {
        RemoveKey(d.content, alias);
        SameChild(d.content, RemovePair(d.content, i), {alias}, target);
      }
    }
  }

  lemma ModeStepIs(d: Draft)
    requires Plain(d.content)
    ensures var after, mode := OperationMode(d), Child(d.content, MODE);
            && Child(after.content, MODE) == NewMode(mode)
            && after.actions == d.actions + if IsObserve(mode) then [RenamedMode] else []
  {
    hide Plain, SameBut, TrimSpace;
    assert d.actions + [] == d.actions;
    var i := KeyIndex(d.content, MODE);
    if i >= 0 {
      ReplaceChild(d.content, MODE, d.content[i + 1].(value := BRIDGE_OBSERVE_MODE));
    }
  }

  lemma BridgeNodeGrows(content: seq<Node>, inner: seq<Node>, alias: string)
    requires Plain(content) && BridgeOpen(content) && alias != BRIDGE && KeyIndex(content, alias) >= 0
    ensures KeyIndex(SetBridge(content, inner), alias) == KeyIndex(content, alias)
    ensures var after := RemovePair(SetBridge(content, inner), KeyIndex(content, alias));
            && Child(after, BRIDGE) == Some(BridgeNode(Child(content, BRIDGE), inner))
            && BridgeContent(after) == inner && Child(after, alias) == None
  {
    hide Plain, SameBut, BRIDGE;
    SetBridgeKeepsIndex(content, inner, alias);
    SetBridgeDoes(content, inner);
    var set_ := SetBridge(content, inner);
    assert Child(set_, BRIDGE) == Some(BridgeNode(Child(content, BRIDGE), inner)) by {
      if KeyIndex(content, BRIDGE) < 0 {
        AppendChild(content, BRIDGE, Node(Mapping, "!!map", "", inner));
      } else {
        ReplaceChild(content, BRIDGE, BridgeNode(Child(content, BRIDGE), inner));
      }
    }
    RemoveKey(set_, alias);
    SameChild(set_, RemovePair(set_, KeyIndex(content, alias)), {alias}, BRIDGE);
  }

  ghost predicate BridgeFoldable(content: seq<Node>, alias: string, target: string) {
    var a := Spoken(Child(content, alias));
    a.Some? ==> BridgeOpen(content) && Foldable(a, Child(BridgeContent(content), target))
  }

  lemma BridgeStepWorksIff(d: Draft, alias: string, target: string)
    ensures BridgeAlias(d, alias, target).Some? <==> BridgeFoldable(d.content, alias, target)
  {
    hide TrimSpace, SetBridge, BRIDGE;
  }

  lemma BridgeStepIs(d: Draft, alias: string, target: string)
    requires Plain(d.content) && Plain(BridgeContent(d.content)) && alias != BRIDGE
    requires BridgeAlias(d, alias, target).Some?
    ensures var a, t, after := Spoken(Child(d.content, alias)), Child(BridgeContent(d.content), target), BridgeAlias(d, alias, target).value;
            && Child(after.content, alias) == (if a.None? then Child(d.content, alias) else None)
            && Child(BridgeContent(after.content), target) == Folded(a, t)
            && after.actions == d.actions + Report(a, Taken(a, t), alias, target)
            && Child(after.content, BRIDGE)
               == if Taken(a, t) then Some(BridgeNode(Child(d.content, BRIDGE), BridgeContent(after.content)))
                  else Child(d.content, BRIDGE)
  {
    hide Plain, SameBut, TrimSpace, BRIDGE;
    var a := Spoken(Child(d.content, alias));
    var inner := BridgeContent(d.content);
    var t := Child(inner, target);
    if a.None? {
      assert d.actions + [] == d.actions;
    } else {
      BridgeStepWorksIff(d, alias, target);
      BridgeStepMoves(d, alias, target);
    }
  }

  lemma BridgeStepMoves(d: Draft, alias: string, target: string)
    requires Plain(d.content) && Plain(BridgeContent(d.content)) && alias != BRIDGE
    requires BridgeFoldable(d.content, alias, target) && Spoken(Child(d.content, alias)).Some? && BridgeAlias(d, alias, target).Some?
    ensures var a, t, after := Child(d.content, alias), Child(BridgeContent(d.content), target), BridgeAlias(d, alias, target).value;
            && Child(after.content, alias) == None
            && Child(BridgeContent(after.content), target) == Folded(a, t)
            && after.actions == d.actions + Report(a, Taken(a, t), alias, target)
            && Child(after.content, BRIDGE)
               == if Taken(a, t) then Some(BridgeNode(Child(d.content, BRIDGE), BridgeContent(after.content)))
                  else Child(d.content, BRIDGE)
  {
    hide Plain, SameBut, TrimSpace, BRIDGE;
    var i := KeyIndex(d.content, alias);
    var aliasValue := d.content[i + 1];
    var inner := BridgeContent(d.content);
    var t := KeyIndex(inner, target);
    if t < 0 {
      var grown := inner + [StringNode(target), aliasValue];
      AppendChild(inner, target, aliasValue);
      BridgeNodeGrows(d.content, grown, alias);
      hide SetBridge;
    } else if Blank(inner[t + 1]) {
      var grown := inner[t + 1 := aliasValue];
      ReplaceChild(inner, target, aliasValue);
      BridgeNodeGrows(d.content, grown, alias);
      hide SetBridge;
    } else {
      RemoveKey(d.content, alias);
      SameChild(d.content, RemovePair(d.content, i), {alias}, BRIDGE);
      hide SetBridge;
    }
  }

  ghost predicate NodesFoldable(marshal: Marshal, alias: Option<Node>, target: Option<Node>) {
    alias.Some? && target.Some? ==> SameNode(marshal, alias.value, target.value)
  }

  lemma NodeStepIs(marshal: Marshal, d: Draft, alias: string, target: string)
    requires Plain(d.content) && alias != target
    ensures NodeAlias(marshal, d, alias, target).Some? <==> NodesFoldable(marshal, Child(d.content, alias), Child(d.content, target))
    ensures NodeAlias(marshal, d, alias, target).Some? ==>
              var a, t, after := Child(d.content, alias), Child(d.content, target), NodeAlias(marshal, d, alias, target).value;
              && Child(after.content, target) == (if t.None? then a else t)
              && after.actions == d.actions + Report(a, t.None?, alias, target)
  {
    hide Plain, SameBut, SameNode;
    var i, t := KeyIndex(d.content, alias), KeyIndex(d.content, target);
    if i < 0 {
      assert d.actions + [] == d.actions;
    } else if t < 0 {
      RenameOneKey(d.content, alias, target);
    } else {
      RemoveKey(d.content, alias);
      SameChild(d.content, RemovePair(d.content, i), {alias}, target);
    }
  }

  lemma {:induction false} RenamedKeys(content: seq<Node>, i: nat, key: string)
    requires i % 2 == 0 && i + 1 < |content|
    ensures i / 2 < |Keys(content)| && Keys(content)[i / 2] == content[i].value
    ensures Keys(RenameKey(content, i, key)) == Keys(content)[i / 2 := key]
    decreases |content|
  {
    var after := RenameKey(content, i, key);
    if i == 0 {
      assert after[2..] == content[2..];
    } else {
      RenamedKeys(content[2..], i - 2, key);
      assert after[2..] == RenameKey(content[2..], i - 2, key);
    }
  }

  /** A renamed setting keeps its place among the keys. */
  lemma RenamedInPlace(marshal: Marshal, d: Draft, alias: string, target: string)
    requires KeyIndex(d.content, alias) >= 0 && KeyIndex(d.content, target) < 0
    ensures NodeAlias(marshal, d, alias, target).Some?
    ensures var at := KeyIndex(d.content, alias) / 2;
            && at < |Keys(d.content)| && Keys(d.content)[at] == alias
            && Keys(NodeAlias(marshal, d, alias, target).value.content) == Keys(d.content)[at := target]
            && (ScalarAlias(d, alias, target).Some? ==>
                  Keys(ScalarAlias(d, alias, target).value.content) == Keys(d.content)[at := target])
  {
    RenamedKeys(d.content, KeyIndex(d.content, alias), target);
    hide Keys, RenameKey;
  }

  // ---- the steps together ----

  ghost function NewURL(content: seq<Node>): Option<Node> {
    Folded(Child(content, INFORM_URL), Folded(Child(content, CONTROLLER), Child(content, CONTROLLER_URL)))
  }

  ghost predicate ScalarsFoldable(content: seq<Node>) {
    && Foldable(Child(content, CONTROLLER), Child(content, CONTROLLER_URL))
    && Foldable(Child(content, INFORM_URL), Folded(Child(content, CONTROLLER), Child(content, CONTROLLER_URL)))
  }

  ghost function ScalarReports(content: seq<Node>): seq<Action> {
    var c, i, u := Child(content, CONTROLLER), Child(content, INFORM_URL), Child(content, CONTROLLER_URL);
    Report(c, Taken(c, u), CONTROLLER, CONTROLLER_URL)
    + Report(i, Taken(i, Folded(c, u)), INFORM_URL, CONTROLLER_URL)
    + if IsObserve(Child(content, MODE)) then [RenamedMode] else []
  }

  const SCALAR_NAMES := {CONTROLLER, INFORM_URL, CONTROLLER_URL, MODE}

  lemma ScalarNames()
    ensures {CONTROLLER, CONTROLLER_URL} + {INFORM_URL, CONTROLLER_URL} <= SCALAR_NAMES
    ensures SCALAR_NAMES + {MODE} <= SCALAR_NAMES
    ensures forall name :: name in SCALAR_NAMES <==> name in [CONTROLLER, INFORM_URL, CONTROLLER_URL, MODE]
  {
  }

  lemma ScalarStepsAre(content: seq<Node>)
    requires Plain(content)
    ensures ScalarSteps(Draft(content, [])).Some? <==> ScalarsFoldable(content)
    ensures ScalarSteps(Draft(content, [])).Some? ==>
              var after := ScalarSteps(Draft(content, [])).value;
              && Plain(after.content) && SameBut(content, after.content, SCALAR_NAMES)
              && Child(after.content, CONTROLLER) == None && Child(after.content, INFORM_URL) == None
              && Child(after.content, CONTROLLER_URL) == NewURL(content)
              && Child(after.content, MODE) == NewMode(Child(content, MODE))
              && after.actions == ScalarReports(content)
  {
    NamesDiffer();
    ScalarNames();
    hide Plain, SameBut, ScalarAlias, OperationMode, Child, Foldable, Folded, Report, Taken, NewMode, IsObserve;
    assert MODE != CONTROLLER && MODE != INFORM_URL && MODE != CONTROLLER_URL by {
      assert CONTROLLER in [CONTROLLER, INFORM_URL, CONTROLLER_URL];
      assert INFORM_URL in [CONTROLLER, INFORM_URL, CONTROLLER_URL];
      assert CONTROLLER_URL in [CONTROLLER, INFORM_URL, CONTROLLER_URL];
    }
    hide CONTROLLER, INFORM_URL, CONTROLLER_URL, MODE, SCALAR_NAMES;
    var d0 := Draft(content, []);
    ScalarStepIs(d0, CONTROLLER, CONTROLLER_URL);
    var r1 := ScalarAlias(d0, CONTROLLER, CONTROLLER_URL);
    if r1.Some? {
      var d1 := r1.value;
      ScalarAliasDoes(d0, CONTROLLER, CONTROLLER_URL);
      SameChild(content, d1.content, {CONTROLLER, CONTROLLER_URL}, INFORM_URL);
      SameChild(content, d1.content, {CONTROLLER, CONTROLLER_URL}, MODE);
      ScalarStepIs(d1, INFORM_URL, CONTROLLER_URL);
      var r2 := ScalarAlias(d1, INFORM_URL, CONTROLLER_URL);
      if r2.Some? {
        var d2, d3 := r2.value, OperationMode(r2.value);
        ScalarAliasDoes(d1, INFORM_URL, CONTROLLER_URL);
        SameChild(d1.content, d2.content, {INFORM_URL, CONTROLLER_URL}, CONTROLLER);
        SameChild(d1.content, d2.content, {INFORM_URL, CONTROLLER_URL}, MODE);
        ModeStepIs(d2);
        OperationModeDoes(d2);
        SameChild(d2.content, d3.content, {MODE}, CONTROLLER);
        SameChild(d2.content, d3.content, {MODE}, INFORM_URL);
        SameChild(d2.content, d3.content, {MODE}, CONTROLLER_URL);
        SameButTrans(content, d1.content, d2.content, {CONTROLLER, CONTROLLER_URL}, {INFORM_URL, CONTROLLER_URL}, SCALAR_NAMES);
        SameButTrans(content, d2.content, d3.content, SCALAR_NAMES, {MODE}, SCALAR_NAMES);
        var first := Report(Child(content, CONTROLLER), Taken(Child(content, CONTROLLER), Child(content, CONTROLLER_URL)), CONTROLLER, CONTROLLER_URL);
        assert [] + first == first;
      }
    }
  }

  ghost function BridgeReport(content: seq<Node>, alias: string, target: string): seq<Action> {
    var a := Spoken(Child(content, alias));
    Report(a, Taken(a, Child(BridgeContent(content), target)), alias, target)
  }

  ghost predicate BridgeTakes(content: seq<Node>, alias: string, target: string) {
    Taken(Spoken(Child(content, alias)), Child(BridgeContent(content), target))
  }

  /** What is left of a legacy bridge setting: a blank one is not touched. */
  ghost function Unspoken(alias: Option<Node>): Option<Node> {
    if Spoken(alias).None? then alias else None
  }

  ghost function NewInner(content: seq<Node>, alias: string, target: string): Option<Node> {
    Folded(Spoken(Child(content, alias)), Child(BridgeContent(content), target))
  }

  ghost predicate BridgeResult(before: seq<Node>, after: seq<Node>) {
    && Child(after, OLD_BRIDGE) == Unspoken(Child(before, OLD_BRIDGE))
    && Child(after, OLD_UPLINK) == Unspoken(Child(before, OLD_UPLINK))
    && Child(BridgeContent(after), INNER_BRIDGE) == NewInner(before, OLD_BRIDGE, INNER_BRIDGE)
    && Child(BridgeContent(after), INNER_UPLINK) == NewInner(before, OLD_UPLINK, INNER_UPLINK)
    && Child(after, BRIDGE)
       == if BridgeTakes(before, OLD_BRIDGE, INNER_BRIDGE) || BridgeTakes(before, OLD_UPLINK, INNER_UPLINK) then
            Some(BridgeNode(Child(before, BRIDGE), BridgeContent(after)))
          else Child(before, BRIDGE)
  }

  const BRIDGE_NAMES := {OLD_BRIDGE, OLD_UPLINK, BRIDGE}

  lemma BridgeNames()
    ensures {OLD_BRIDGE, BRIDGE} + {OLD_UPLINK, BRIDGE} <= BRIDGE_NAMES
    ensures forall name :: name in BRIDGE_NAMES <==> name in [OLD_BRIDGE, OLD_UPLINK, BRIDGE]
  {
  }

  /** A step for one setting leaves the other as open to folding as it was. */
  lemma SecondStepSees(content: seq<Node>, after: seq<Node>)
    requires SameBut(content, after, {OLD_BRIDGE, BRIDGE}) && SameBut(BridgeContent(content), BridgeContent(after), {INNER_BRIDGE})
    requires BridgeFoldable(content, OLD_BRIDGE, INNER_BRIDGE)
    requires Child(after, BRIDGE)
          == if BridgeTakes(content, OLD_BRIDGE, INNER_BRIDGE) then Some(BridgeNode(Child(content, BRIDGE), BridgeContent(after)))
             else Child(content, BRIDGE)
    ensures Child(after, OLD_UPLINK) == Child(content, OLD_UPLINK)
    ensures Child(BridgeContent(after), INNER_UPLINK) == Child(BridgeContent(content), INNER_UPLINK)
    ensures BridgeFoldable(after, OLD_UPLINK, INNER_UPLINK) <==> BridgeFoldable(content, OLD_UPLINK, INNER_UPLINK)
  {
    NamesDiffer();
    SameChild(content, after, {OLD_BRIDGE, BRIDGE}, OLD_UPLINK);
    SameChild(BridgeContent(content), BridgeContent(after), {INNER_BRIDGE}, INNER_UPLINK);
    hide SameBut, Child, Foldable, Spoken;
    hide BRIDGE, OLD_BRIDGE, OLD_UPLINK, INNER_BRIDGE, INNER_UPLINK;
    assert BridgeOpen(after) <==> BridgeOpen(content);
  }

  lemma BridgeStepsAre(d: Draft)
    requires Plain(d.content) && Plain(BridgeContent(d.content))
    ensures BridgeSteps(d).Some? <==>
              BridgeFoldable(d.content, OLD_BRIDGE, INNER_BRIDGE) && BridgeFoldable(d.content, OLD_UPLINK, INNER_UPLINK)
    ensures BridgeSteps(d).Some? ==>
              var after := BridgeSteps(d).value;
              && Plain(after.content) && SameBut(d.content, after.content, BRIDGE_NAMES) && BridgeResult(d.content, after.content)
              && after.actions == d.actions + BridgeReport(d.content, OLD_BRIDGE, INNER_BRIDGE) + BridgeReport(d.content, OLD_UPLINK, INNER_UPLINK)
  {
    NamesDiffer();
    BridgeNames();
    hide Plain, SameBut, BridgeAlias, Child, BridgeFoldable, Foldable, Folded, Report, Taken, Spoken, BridgeContent, BridgeNode, BRIDGE_NAMES;
    hide BRIDGE, OLD_BRIDGE, OLD_UPLINK, INNER_BRIDGE, INNER_UPLINK;
    BridgeStepWorksIff(d, OLD_BRIDGE, INNER_BRIDGE);
    var r1 := BridgeAlias(d, OLD_BRIDGE, INNER_BRIDGE);
    if r1.Some? {
      var d1 := r1.value;
      BridgeStepIs(d, OLD_BRIDGE, INNER_BRIDGE);
      BridgeAliasDoes(d, OLD_BRIDGE, INNER_BRIDGE);
      SecondStepSees(d.content, d1.content);
      BridgeStepWorksIff(d1, OLD_UPLINK, INNER_UPLINK);
      var r2 := BridgeAlias(d1, OLD_UPLINK, INNER_UPLINK);
      if r2.Some? {
        var d2 := r2.value;
        BridgeStepIs(d1, OLD_UPLINK, INNER_UPLINK);
        BridgeAliasDoes(d1, OLD_UPLINK, INNER_UPLINK);
        SameChild(d1.content, d2.content, {OLD_UPLINK, BRIDGE}, OLD_BRIDGE);
        SameChild(BridgeContent(d1.content), BridgeContent(d2.content), {INNER_UPLINK}, INNER_BRIDGE);
        SameButTrans(d.content, d1.content, d2.content, {OLD_BRIDGE, BRIDGE}, {OLD_UPLINK, BRIDGE}, BRIDGE_NAMES);
        BridgeNodeTwice(Child(d.content, BRIDGE), BridgeContent(d1.content), BridgeContent(d2.content));
        BridgeUntouched(d1.content, d2.content);
      }
    }
  }

  lemma BridgeNodeTwice(bridge: Option<Node>, first: seq<Node>, second: seq<Node>)
    ensures BridgeNode(Some(BridgeNode(bridge, first)), second) == BridgeNode(bridge, second)
  {
  }

  lemma BridgeUntouched(before: seq<Node>, after: seq<Node>)
    ensures Child(after, BRIDGE) == Child(before, BRIDGE) ==> BridgeContent(after) == BridgeContent(before)
  {
  }

  // ---- the whole migration ----

  /** A migration is refused exactly for an alias that is not a scalar, for one that says
      something other than its non-blank target, for a target that is not a scalar, for
      bridge settings that are no mapping and have to be written, and for two port maps
      that differ. */
  lemma MigratesIff(marshal: Marshal, content: seq<Node>)
    requires Plain(content) && Plain(BridgeContent(content))
    ensures Migrated(marshal, content).Some? <==>
              && Foldable(Child(content, CONTROLLER), Child(content, CONTROLLER_URL))
              && Foldable(Child(content, INFORM_URL), Folded(Child(content, CONTROLLER), Child(content, CONTROLLER_URL)))
              && BridgeFoldable(content, OLD_BRIDGE, INNER_BRIDGE)
              && BridgeFoldable(content, OLD_UPLINK, INNER_UPLINK)
              && NodesFoldable(marshal, Child(content, PORT_MAP), Child(content, PORT_MAPPINGS))
  {
    MigrationIs(marshal, content);
  }

  /** What every setting is after a migration. The controller URL is folded from three names
      into one, a scalar mode observe becomes bridge-observe and any other mode node stays
      untouched, the two legacy bridge settings move into the nested mapping unless they are
      blank, and the port map takes its new name; no other setting changes. */
  lemma MigratedSettings(marshal: Marshal, content: seq<Node>, key: string)
    requires Plain(content) && Plain(BridgeContent(content)) && Migrated(marshal, content).Some?
    ensures var after := Migrated(marshal, content).value.content;
            && Child(after, CONTROLLER) == None && Child(after, INFORM_URL) == None && Child(after, PORT_MAP) == None
            && Child(after, CONTROLLER_URL) == NewURL(content)
            && Child(after, MODE) == (if IsObserve(Child(content, MODE)) then Some(Child(content, MODE).value.(value := "bridge-observe"))
                                      else Child(content, MODE))
            && BridgeResult(content, after)
            && Child(after, PORT_MAPPINGS) == (if Child(content, PORT_MAPPINGS).None? then Child(content, PORT_MAP) else Child(content, PORT_MAPPINGS))
            && (key !in NAMES ==> Child(after, key) == Child(content, key))
  {
    MigrationIs(marshal, content);
    hide Plain, Migrated, BridgeResult, NewURL, Child, NAMES;
  }

  /** What a migration reports, in order: one entry for each alias that was there, unless it
      was a blank bridge setting, and one for a renamed mode. */
  ghost function Reports(content: seq<Node>): seq<Action> {
    ScalarReports(content)
    + BridgeReport(content, OLD_BRIDGE, INNER_BRIDGE) + BridgeReport(content, OLD_UPLINK, INNER_UPLINK)
    + Report(Child(content, PORT_MAP), Child(content, PORT_MAPPINGS).None?, PORT_MAP, PORT_MAPPINGS)
  }

  lemma MigratedReports(marshal: Marshal, content: seq<Node>)
    requires Plain(content) && Plain(BridgeContent(content)) && Migrated(marshal, content).Some?
    ensures Migrated(marshal, content).value.actions == Reports(content)
  {
    MigrationIs(marshal, content);
  }

  ghost predicate MigratedTo(content: seq<Node>, after: Draft) {
    && SameBut(content, after.content, NAMES)
    && Child(after.content, CONTROLLER) == None && Child(after.content, INFORM_URL) == None && Child(after.content, PORT_MAP) == None
    && Child(after.content, CONTROLLER_URL) == NewURL(content)
    && Child(after.content, MODE) == NewMode(Child(content, MODE))
    && BridgeResult(content, after.content)
    && Child(after.content, PORT_MAPPINGS) == (if Child(content, PORT_MAPPINGS).None? then Child(content, PORT_MAP) else Child(content, PORT_MAPPINGS))
    && after.actions == Reports(content)
  }

  lemma AllNames()
    ensures SCALAR_NAMES + BRIDGE_NAMES <= NAMES && NAMES + {PORT_MAP, PORT_MAPPINGS} <= NAMES
    ensures forall name <- SCALAR_NAMES :: name !in BRIDGE_NAMES + {PORT_MAP, PORT_MAPPINGS}
    ensures forall name <- BRIDGE_NAMES :: name !in SCALAR_NAMES + {PORT_MAP, PORT_MAPPINGS}
    ensures PORT_MAP !in SCALAR_NAMES + BRIDGE_NAMES && PORT_MAPPINGS !in SCALAR_NAMES + BRIDGE_NAMES
  {
    NamesDiffer();
    ScalarNames();
    BridgeNames();
    hide CONTROLLER, INFORM_URL, CONTROLLER_URL, MODE, OLD_BRIDGE, OLD_UPLINK, BRIDGE, PORT_MAP, PORT_MAPPINGS;
  }

  /** The bridge settings as the later steps find them. */
  lemma SameBridgeParts(before: seq<Node>, after: seq<Node>)
    requires Child(after, OLD_BRIDGE) == Child(before, OLD_BRIDGE) && Child(after, OLD_UPLINK) == Child(before, OLD_UPLINK)
    requires Child(after, BRIDGE) == Child(before, BRIDGE)
    ensures BridgeContent(after) == BridgeContent(before)
    ensures BridgeFoldable(after, OLD_BRIDGE, INNER_BRIDGE) <==> BridgeFoldable(before, OLD_BRIDGE, INNER_BRIDGE)
    ensures BridgeFoldable(after, OLD_UPLINK, INNER_UPLINK) <==> BridgeFoldable(before, OLD_UPLINK, INNER_UPLINK)
    ensures BridgeReport(after, OLD_BRIDGE, INNER_BRIDGE) == BridgeReport(before, OLD_BRIDGE, INNER_BRIDGE)
    ensures BridgeReport(after, OLD_UPLINK, INNER_UPLINK) == BridgeReport(before, OLD_UPLINK, INNER_UPLINK)
    ensures forall end :: BridgeResult(after, end) <==> BridgeResult(before, end)
  {
    hide Child, Spoken, Taken, Folded, Foldable, Report;
    hide BRIDGE, OLD_BRIDGE, OLD_UPLINK, INNER_BRIDGE, INNER_UPLINK;
  }

  lemma MigrationIs(marshal: Marshal, content: seq<Node>)
    requires Plain(content) && Plain(BridgeContent(content))
    ensures Migrated(marshal, content).Some? <==>
              && ScalarsFoldable(content)
              && BridgeFoldable(content, OLD_BRIDGE, INNER_BRIDGE) && BridgeFoldable(content, OLD_UPLINK, INNER_UPLINK)
              && NodesFoldable(marshal, Child(content, PORT_MAP), Child(content, PORT_MAPPINGS))
    ensures Migrated(marshal, content).Some? ==> MigratedTo(content, Migrated(marshal, content).value)
  {
    NamesDiffer();
    AllNames();
    ScalarNames();
    BridgeNames();
    hide Plain, SameBut, Child, ScalarSteps, BridgeSteps, NodeAlias, NodesFoldable, ScalarsFoldable, BridgeFoldable, BridgeContent, BridgeResult;
    hide ScalarReports, BridgeReport, Report, NewURL, NewMode, SCALAR_NAMES, BRIDGE_NAMES, NAMES;
    hide CONTROLLER, INFORM_URL, CONTROLLER_URL, MODE, OLD_BRIDGE, OLD_UPLINK, BRIDGE, PORT_MAP, PORT_MAPPINGS, INNER_BRIDGE, INNER_UPLINK;
    ScalarStepsAre(content);
    var r1 := ScalarSteps(Draft(content, []));
    if r1.Some? {
      var d1 := r1.value;
      SameChild(content, d1.content, SCALAR_NAMES, OLD_BRIDGE);
      SameChild(content, d1.content, SCALAR_NAMES, OLD_UPLINK);
      SameChild(content, d1.content, SCALAR_NAMES, BRIDGE);
      SameChild(content, d1.content, SCALAR_NAMES, PORT_MAP);
      SameChild(content, d1.content, SCALAR_NAMES, PORT_MAPPINGS);
      SameBridgeParts(content, d1.content);
      BridgeStepsAre(d1);
      var r2 := BridgeSteps(d1);
      if r2.Some? {
        var d2 := r2.value;
        SameChild(d1.content, d2.content, BRIDGE_NAMES, PORT_MAP);
        SameChild(d1.content, d2.content, BRIDGE_NAMES, PORT_MAPPINGS);
        NodeStepIs(marshal, d2, PORT_MAP, PORT_MAPPINGS);
        var r3 := NodeAlias(marshal, d2, PORT_MAP, PORT_MAPPINGS);
        if r3.Some? {
          NodeAliasDoes(marshal, d2, PORT_MAP, PORT_MAPPINGS);
          LastChildren(content, d1.content, d2.content, r3.value.content);
        }
      }
    }
  }

  /** No step undoes what an earlier one did. */
  lemma LastChildren(c0: seq<Node>, c1: seq<Node>, c2: seq<Node>, c3: seq<Node>)
    requires SameBut(c0, c1, SCALAR_NAMES) && SameBut(c1, c2, BRIDGE_NAMES) && SameBut(c2, c3, {PORT_MAP, PORT_MAPPINGS})
    requires BridgeResult(c0, c2)
    ensures SameBut(c0, c3, NAMES) && BridgeResult(c0, c3)
    ensures Child(c3, CONTROLLER) == Child(c1, CONTROLLER) && Child(c3, INFORM_URL) == Child(c1, INFORM_URL)
    ensures Child(c3, CONTROLLER_URL) == Child(c1, CONTROLLER_URL) && Child(c3, MODE) == Child(c1, MODE)
  {
    AllNames();
    ScalarNames();
    BridgeNames();
    hide CONTROLLER, INFORM_URL, CONTROLLER_URL, MODE, OLD_BRIDGE, OLD_UPLINK, BRIDGE, PORT_MAP, PORT_MAPPINGS, INNER_BRIDGE, INNER_UPLINK;
    hide NAMES, SCALAR_NAMES, BRIDGE_NAMES, Child;
    SameButTrans(c0, c1, c2, SCALAR_NAMES, BRIDGE_NAMES, NAMES);
    SameButTrans(c0, c2, c3, NAMES, {PORT_MAP, PORT_MAPPINGS}, NAMES);
    SameChild(c2, c3, {PORT_MAP, PORT_MAPPINGS}, OLD_BRIDGE);
    SameChild(c2, c3, {PORT_MAP, PORT_MAPPINGS}, OLD_UPLINK);
    SameChild(c2, c3, {PORT_MAP, PORT_MAPPINGS}, BRIDGE);
    forall name | name in SCALAR_NAMES
      ensures Child(c3, name) == Child(c1, name)
    {
      SameChild(c1, c2, BRIDGE_NAMES, name);
      SameChild(c2, c3, {PORT_MAP, PORT_MAPPINGS}, name);
    }
    BridgeUntouched(c2, c3);
    hide SameBut, Unspoken, NewInner, BridgeTakes, BridgeNode;
  }

  // ---- the log tells whether anything changed ----

  lemma ReportedAlias(alias: Option<Node>, taken: bool, name: string, target: string)
    ensures |Report(alias, taken, name, target)| == if alias.Some? then 1 else 0
  {
  }

  /** An edit shows: a renamed mode reads differently, and the other edits remove their alias. */
  lemma EditsShow(content: seq<Node>, after: seq<Node>)
    requires Child(after, CONTROLLER) == None && Child(after, INFORM_URL) == None && Child(after, PORT_MAP) == None
    requires Child(after, MODE) == NewMode(Child(content, MODE)) && BridgeResult(content, after) && after == content
    ensures Reports(content) == []
  {
    ModeNames();
    assert BRIDGE_OBSERVE_MODE != OBSERVE by { assert |BRIDGE_OBSERVE_MODE| == 14 && |OBSERVE| == 7; }
    hide Child, TrimSpace;
    assert !IsObserve(Child(content, MODE));
  }

  /** The report is empty exactly when the document comes back as it was, so what is written
      to disk is what changed. */
  lemma ReportedIffChanged(marshal: Marshal, content: seq<Node>)
    requires Plain(content) && Plain(BridgeContent(content)) && Migrated(marshal, content).Some?
    ensures Migrated(marshal, content).value.actions == [] <==> Migrated(marshal, content).value.content == content
  {
    MigrationIs(marshal, content);
    var after := Migrated(marshal, content).value;
    if after.actions == [] {
      NothingReported(content);
      NothingDone(marshal, content);
    } else if after.content == content {
      hide Reports, BridgeResult, Migrated;
      EditsShow(content, after.content);
    }
  }

  lemma NothingReported(content: seq<Node>)
    requires Reports(content) == []
    ensures Child(content, CONTROLLER) == None && Child(content, INFORM_URL) == None && Child(content, PORT_MAP) == None
    ensures !IsObserve(Child(content, MODE))
    ensures Spoken(Child(content, OLD_BRIDGE)) == None && Spoken(Child(content, OLD_UPLINK)) == None
  {
    var c, i, u := Child(content, CONTROLLER), Child(content, INFORM_URL), Child(content, CONTROLLER_URL);
    ReportedAlias(c, Taken(c, u), CONTROLLER, CONTROLLER_URL);
    ReportedAlias(i, Taken(i, Folded(c, u)), INFORM_URL, CONTROLLER_URL);
    ReportedAlias(Spoken(Child(content, OLD_BRIDGE)), BridgeTakes(content, OLD_BRIDGE, INNER_BRIDGE), OLD_BRIDGE, INNER_BRIDGE);
    ReportedAlias(Spoken(Child(content, OLD_UPLINK)), BridgeTakes(content, OLD_UPLINK, INNER_UPLINK), OLD_UPLINK, INNER_UPLINK);
    ReportedAlias(Child(content, PORT_MAP), Child(content, PORT_MAPPINGS).None?, PORT_MAP, PORT_MAPPINGS);
    hide Report, Child, Spoken, Taken, Folded, IsObserve;
    assert |Reports(content)| == 0;
  }

  lemma NothingDone(marshal: Marshal, content: seq<Node>)
    requires Child(content, CONTROLLER) == None && Child(content, INFORM_URL) == None && Child(content, PORT_MAP) == None
    requires !IsObserve(Child(content, MODE))
    requires Spoken(Child(content, OLD_BRIDGE)) == None && Spoken(Child(content, OLD_UPLINK)) == None
    ensures Migrated(marshal, content) == Some(Draft(content, []))
  {
    var d := Draft(content, []);
    AbsentIsNoOp(marshal, d, CONTROLLER, CONTROLLER_URL);
    AbsentIsNoOp(marshal, d, INFORM_URL, CONTROLLER_URL);
    AbsentIsNoOp(marshal, d, PORT_MAP, PORT_MAPPINGS);
    NothingLeftIsNoOp(d, OLD_BRIDGE, INNER_BRIDGE);
    NothingLeftIsNoOp(d, OLD_UPLINK, INNER_UPLINK);
    assert OperationMode(d) == d by { hide TrimSpace; }
    hide ScalarAlias, BridgeAlias, NodeAlias, OperationMode, Child;
  }
}
