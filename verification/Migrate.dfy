/** The configuration migration: legacy aliases are renamed, folded or moved inside the
    document's top-level mapping without changing what the configuration means. */
module Migrate {
  import opened Basics
  import opened Runes
  import opened YamlTree

  // ---- edits of a flat key/value list ----

  function RemovePair(content: seq<Node>, i: int): seq<Node>
    requires 0 <= i && i + 1 < |content|
  {
    content[..i] + content[i + 2..]
  }

  function RenameKey(content: seq<Node>, i: int, key: string): seq<Node>
    requires 0 <= i < |content|
  {
    content[i := content[i].(value := key)]
  }

  function StringNode(text: string): Node {
    Node(Scalar, "!!str", text, [])
  }

  /** The pairs whose keys are not among the given names, in order. */
  ghost function Others(content: seq<Node>, names: set<string>): seq<Node> {
    if |content| < 2 then []
    else (if content[0].value in names then [] else content[..2]) + Others(content[2..], names)
  }

  /** A list of whole pairs without repeated keys. */
  ghost predicate Plain(content: seq<Node>) {
    Paired(content) && UniqueKeys(content)
  }

  /** Two lists agree but for some names: same children elsewhere, same other pairs in order. */
  ghost predicate SameBut(before: seq<Node>, after: seq<Node>, names: set<string>) {
    && (forall key :: key !in names ==> Child(after, key) == Child(before, key))
    && (forall more :: names <= more ==> Others(after, more) == Others(before, more))
  }

  /** A list seen as its first pair and the rest. */
  lemma FirstPair(content: seq<Node>, key: string)
    requires |content| >= 2
    ensures Child(content, key) == if content[0].value == key then Some(content[1]) else Child(content[2..], key)
    ensures KeyIndex(content, key)
         == if content[0].value == key then 0
            else if KeyIndex(content[2..], key) < 0 then -1 else KeyIndex(content[2..], key) + 2
  {
  }

  lemma {:induction false} RemovedChild(content: seq<Node>, key: string, other: string)
    requires UniqueKeys(content) && KeyIndex(content, key) >= 0
    ensures Child(RemovePair(content, KeyIndex(content, key)), other) == if other == key then None else Child(content, other)
    decreases |content|
  {
    hide KeyIndex, Child;
    var i := KeyIndex(content, key);
    var after := RemovePair(content, i);
    FirstPair(content, key);
    FirstPair(content, other);
    if i == 0 {
      assert after == content[2..];
      NoIndexNoChild(content[2..], key);
    } else {
      RemovedChild(content[2..], key, other);
      assert after[2..] == RemovePair(content[2..], i - 2);
      FirstPair(after, other);
    }
  }

  lemma NoIndexNoChild(content: seq<Node>, key: string)
    ensures KeyIndex(content, key) < 0 <==> Child(content, key) == None
  {
  }

  lemma {:induction false} RemovedIsUnique(content: seq<Node>, key: string)
    requires UniqueKeys(content) && KeyIndex(content, key) >= 0
    ensures UniqueKeys(RemovePair(content, KeyIndex(content, key)))
    decreases |content|
  {
    hide KeyIndex, Child;
    var i := KeyIndex(content, key);
    var after := RemovePair(content, i);
    FirstPair(content, key);
    if i == 0 {
      assert after == content[2..];
    } else {
      RemovedIsUnique(content[2..], key);
      var rest := RemovePair(content[2..], i - 2);
      assert after[2..] == rest && after[0] == content[0];
      RemovedChild(content[2..], key, content[0].value);
      NoIndexNoChild(content[2..], content[0].value);
      NoIndexNoChild(rest, content[0].value);
    }
  }

  lemma {:induction false} RemovedOthers(content: seq<Node>, key: string, names: set<string>)
    requires KeyIndex(content, key) >= 0 && key in names
    ensures Others(RemovePair(content, KeyIndex(content, key)), names) == Others(content, names)
    decreases |content|
  {
    hide KeyIndex;
    var i := KeyIndex(content, key);
    var after := RemovePair(content, i);
    FirstPair(content, key);
    if i == 0 {
      assert after == content[2..];
    } else {
      RemovedOthers(content[2..], key, names);
      assert after[2..] == RemovePair(content[2..], i - 2) && after[..2] == content[..2];
    }
  }

  lemma RemoveKey(content: seq<Node>, key: string)
    requires Plain(content) && KeyIndex(content, key) >= 0
    ensures var after := RemovePair(content, KeyIndex(content, key));
            Plain(after) && Child(after, key) == None && SameBut(content, after, {key})
  {
    hide KeyIndex, Child, UniqueKeys, Others;
    var after := RemovePair(content, KeyIndex(content, key));
    RemovedIsUnique(content, key);
    forall other
      ensures Child(after, other) == if other == key then None else Child(content, other)
    {
      RemovedChild(content, key, other);
    }
    forall names: set<string> | {key} <= names
      ensures Others(after, names) == Others(content, names)
    {
      assert key in names;
      RemovedOthers(content, key, names);
    }
  }

  lemma {:induction false} RenamedChild(content: seq<Node>, key: string, target: string, other: string)
    requires UniqueKeys(content) && KeyIndex(content, key) >= 0 && KeyIndex(content, target) < 0
    ensures Child(RenameKey(content, KeyIndex(content, key), target), other)
         == if other == target then Child(content, key) else if other == key then None else Child(content, other)
    decreases |content|
  {
    hide KeyIndex, Child;
    var i := KeyIndex(content, key);
    var after := RenameKey(content, i, target);
    FirstPair(content, key);
    FirstPair(content, target);
    FirstPair(content, other);
    FirstPair(after, other);
    if i == 0 {
      assert after[2..] == content[2..];
      NoIndexNoChild(content[2..], key);
      NoIndexNoChild(content[2..], target);
    } else {
      RenamedChild(content[2..], key, target, other);
      assert after[2..] == RenameKey(content[2..], i - 2, target) && after[..2] == content[..2];
    }
  }

  lemma {:induction false} RenamedIsUnique(content: seq<Node>, key: string, target: string)
    requires UniqueKeys(content) && KeyIndex(content, key) >= 0 && KeyIndex(content, target) < 0
    ensures UniqueKeys(RenameKey(content, KeyIndex(content, key), target))
    decreases |content|
  {
    hide KeyIndex, Child;
    var i := KeyIndex(content, key);
    var after := RenameKey(content, i, target);
    FirstPair(content, key);
    FirstPair(content, target);
    if i == 0 {
      assert after[2..] == content[2..] && after[0].value == target;
    } else {
      RenamedIsUnique(content[2..], key, target);
      var rest := RenameKey(content[2..], i - 2, target);
      assert after[2..] == rest && after[0] == content[0];
      RenamedChild(content[2..], key, target, content[0].value);
      NoIndexNoChild(content[2..], content[0].value);
      NoIndexNoChild(rest, content[0].value);
    }
  }

  lemma {:induction false} RenamedOthers(content: seq<Node>, key: string, target: string, names: set<string>)
    requires KeyIndex(content, key) >= 0 && key in names && target in names
    ensures Others(RenameKey(content, KeyIndex(content, key), target), names) == Others(content, names)
    decreases |content|
  {
    hide KeyIndex;
    var i := KeyIndex(content, key);
    var after := RenameKey(content, i, target);
    FirstPair(content, key);
    if i == 0 {
      assert after[2..] == content[2..];
    } else {
      RenamedOthers(content[2..], key, target, names);
      assert after[2..] == RenameKey(content[2..], i - 2, target) && after[..2] == content[..2];
    }
  }

  lemma RenameOneKey(content: seq<Node>, key: string, target: string)
    requires Plain(content) && KeyIndex(content, key) >= 0 && KeyIndex(content, target) < 0
    ensures var after := RenameKey(content, KeyIndex(content, key), target);
            && Plain(after) && Child(after, key) == None && Child(after, target) == Child(content, key)
            && SameBut(content, after, {key, target})
  {
    hide KeyIndex, Child, UniqueKeys, Others;
    var after := RenameKey(content, KeyIndex(content, key), target);
    RenamedIsUnique(content, key, target);
    forall other
      ensures Child(after, other) == if other == target then Child(content, key) else if other == key then None else Child(content, other)
    {
      RenamedChild(content, key, target, other);
    }
    forall names: set<string> | {key, target} <= names
      ensures Others(after, names) == Others(content, names)
    {
      assert key in names && target in names;
      RenamedOthers(content, key, target, names);
    }
  }

  lemma {:induction false} OthersOfReplaced(content: seq<Node>, key: string, node: Node, names: set<string>)
    requires KeyIndex(content, key) >= 0 && key in names
    ensures Others(content[KeyIndex(content, key) + 1 := node], names) == Others(content, names)
    decreases |content|
  {
    var i := KeyIndex(content, key);
    var after := content[i + 1 := node];
    if i == 0 {
      assert after[2..] == content[2..];
    } else {
      OthersOfReplaced(content[2..], key, node, names);
      assert after[2..] == content[2..][i - 1 := node] && after[..2] == content[..2];
    }
  }

  lemma ReplaceChild(content: seq<Node>, key: string, node: Node)
    requires Plain(content) && KeyIndex(content, key) >= 0
    ensures var after := content[KeyIndex(content, key) + 1 := node];
            Plain(after) && Child(after, key) == Some(node) && SameBut(content, after, {key})
  {
    var after := content[KeyIndex(content, key) + 1 := node];
    ReplaceValue(content, key, node, key);
    UniqueByKeys(content, after);
    forall other | other != key
      ensures Child(after, other) == Child(content, other)
    {
      ReplaceValue(content, key, node, other);
    }
    forall names: set<string> | {key} <= names
      ensures Others(after, names) == Others(content, names)
    {
      assert key in names;
      OthersOfReplaced(content, key, node, names);
    }
  }

  lemma {:induction false} OthersOfAppended(content: seq<Node>, key: Node, node: Node, names: set<string>)
    requires Paired(content) && key.value in names
    ensures Others(content + [key, node], names) == Others(content, names)
    decreases |content|
  {
    var after := content + [key, node];
    if |content| >= 2 {
      OthersOfAppended(content[2..], key, node, names);
      assert after[2..] == content[2..] + [key, node] && after[..2] == content[..2];
    } else {
      assert after == [key, node] && after[2..] == [];
    }
  }

  lemma AppendChild(content: seq<Node>, key: string, node: Node)
    requires Plain(content) && KeyIndex(content, key) < 0
    ensures var after := content + [StringNode(key), node];
            Plain(after) && Child(after, key) == Some(node) && SameBut(content, after, {key})
  {
    var after := content + [StringNode(key), node];
    AppendStaysUnique(content, StringNode(key), node);
    AppendPair(content, StringNode(key), node, key);
    forall other | other != key
      ensures Child(after, other) == Child(content, other)
    {
      AppendPair(content, StringNode(key), node, other);
    }
    forall names: set<string> | {key} <= names
      ensures Others(after, names) == Others(content, names)
    {
      assert key in names;
      OthersOfAppended(content, StringNode(key), node, names);
    }
  }

  lemma SameButTrans(a: seq<Node>, b: seq<Node>, c: seq<Node>, first: set<string>, second: set<string>, names: set<string>)
    requires SameBut(a, b, first) && SameBut(b, c, second) && first + second <= names
    ensures SameBut(a, c, names)
  {
    forall key | key !in names
      ensures Child(c, key) == Child(a, key)
    {
      assert key !in first && key !in second;
    }
    forall more: set<string> | names <= more
      ensures Others(c, more) == Others(a, more)
    {
      assert first <= more && second <= more;
    }
  }

  lemma SameButRefl(a: seq<Node>, names: set<string>)
    ensures SameBut(a, a, names)
  {
  }

  // ---- the migration steps ----

  datatype Action = Moved(alias: string, target: string) | RemovedDuplicate(alias: string) | RenamedMode

  /** The mapping's content and what has been done to it; something changed when anything was done. */
  datatype Draft = Draft(content: seq<Node>, actions: seq<Action>)

  function ScalarAlias(d: Draft, alias: string, target: string): Option<Draft> {
    var i, t := KeyIndex(d.content, alias), KeyIndex(d.content, target);
    if i < 0 then Some(d)
    else
      var aliasValue := d.content[i + 1];
      if aliasValue.kind != Scalar then None
      else if t < 0 then Some(Draft(RenameKey(d.content, i, target), d.actions + [Moved(alias, target)]))
      else
        var targetValue := d.content[t + 1];
        if targetValue.kind != Scalar then None
        else
          var aliasText, targetText := TrimSpace(aliasValue.value), TrimSpace(targetValue.value);
          if targetText == "" && aliasText != "" then
            Some(Draft(RemovePair(d.content[t + 1 := aliasValue], i), d.actions + [Moved(alias, target)]))
          else if targetText == aliasText then Some(Draft(RemovePair(d.content, i), d.actions + [RemovedDuplicate(alias)]))
          else None
  }

  const OBSERVE := "observe"
  const BRIDGE_OBSERVE_MODE := "bridge-observe"

  function OperationMode(d: Draft): Draft {
    var i := KeyIndex(d.content, "operation_mode");
    if i < 0 || d.content[i + 1].kind != Scalar || TrimSpace(d.content[i + 1].value) != OBSERVE then d
    else Draft(d.content[i + 1 := d.content[i + 1].(value := BRIDGE_OBSERVE_MODE)], d.actions + [RenamedMode])
  }

  const BRIDGE := "bridge_observe"

  /** The nested bridge mapping with new content, appended when there was none. */
  function SetBridge(content: seq<Node>, inner: seq<Node>): seq<Node> {
    var b := KeyIndex(content, BRIDGE);
    if b < 0 then content + [StringNode(BRIDGE), Node(Mapping, "!!map", "", inner)]
    else content[b + 1 := content[b + 1].(content := inner)]
  }

  /** The pairs of the nested bridge settings; none when the key is absent or holds no mapping. */
  function BridgeContent(content: seq<Node>): seq<Node> {
    var b := Child(content, BRIDGE);
    if b.Some? && b.value.kind == Mapping then b.value.content else []
  }

  /** The nested settings can be written: they are a mapping, or are yet to be created. */
  predicate BridgeOpen(content: seq<Node>) {
    var b := Child(content, BRIDGE);
    b.Some? ==> b.value.kind == Mapping
  }

  function BridgeAlias(d: Draft, alias: string, target: string): Option<Draft> {
    var i := KeyIndex(d.content, alias);
    if i < 0 then Some(d)
    else
      var aliasValue := d.content[i + 1];
      if aliasValue.kind != Scalar then None
      else if TrimSpace(aliasValue.value) == "" then Some(d)
      else if !BridgeOpen(d.content) then None
      else
        var inner := BridgeContent(d.content);
        var t := KeyIndex(inner, target);
        if t < 0 then
          var moved := SetBridge(d.content, inner + [StringNode(target), aliasValue]);
          SetBridgeKeepsIndex(d.content, inner + [StringNode(target), aliasValue], alias);
          Some(Draft(RemovePair(moved, i), d.actions + [Moved(alias, target)]))
        else if inner[t + 1].kind != Scalar then None
        else if TrimSpace(inner[t + 1].value) == "" then
          var moved := SetBridge(d.content, inner[t + 1 := aliasValue]);
          SetBridgeKeepsIndex(d.content, inner[t + 1 := aliasValue], alias);
          Some(Draft(RemovePair(moved, i), d.actions + [Moved(alias, target)]))
        else if TrimSpace(inner[t + 1].value) == TrimSpace(aliasValue.value) then
          Some(Draft(RemovePair(d.content, i), d.actions + [RemovedDuplicate(alias)]))
        else None
  }

  lemma SetBridgeKeepsIndex(content: seq<Node>, inner: seq<Node>, key: string)
    ensures KeyIndex(content, key) >= 0 ==> KeyIndex(SetBridge(content, inner), key) == KeyIndex(content, key)
  {
    if KeyIndex(content, key) >= 0 {
      if KeyIndex(content, BRIDGE) < 0 {
        IndexInLonger(content, [StringNode(BRIDGE), Node(Mapping, "!!map", "", inner)], key);
      } else {
        var b := KeyIndex(content, BRIDGE);
        ReplaceValue(content, BRIDGE, content[b + 1].(content := inner), key);
      }
    }
  }

  lemma {:induction false} IndexInLonger(content: seq<Node>, more: seq<Node>, key: string)
    requires KeyIndex(content, key) >= 0
    ensures KeyIndex(content + more, key) == KeyIndex(content, key)
    decreases |content|
  {
    if content[0].value != key {
      IndexInLonger(content[2..], more, key);
      assert (content + more)[2..] == content[2..] + more;
    }
  }

  /** How a node is rendered for comparison; None is a rendering error. */
  type Marshal = Node -> Option<string>

  predicate SameNode(marshal: Marshal, left: Node, right: Node) {
    marshal(left).Some? && marshal(left) == marshal(right)
  }

  function NodeAlias(marshal: Marshal, d: Draft, alias: string, target: string): Option<Draft> {
    var i, t := KeyIndex(d.content, alias), KeyIndex(d.content, target);
    if i < 0 then Some(d)
    else if t < 0 then Some(Draft(RenameKey(d.content, i, target), d.actions + [Moved(alias, target)]))
    else if SameNode(marshal, d.content[i + 1], d.content[t + 1]) then
      Some(Draft(RemovePair(d.content, i), d.actions + [RemovedDuplicate(alias)]))
    else None
  }

  const CONTROLLER := "controller"
  const INFORM_URL := "inform_url"
  const CONTROLLER_URL := "controller_url"
  const MODE := "operation_mode"
  const OLD_BRIDGE := "observe_bridge"
  const OLD_UPLINK := "observe_interface"
  const INNER_BRIDGE := "bridge"
  const INNER_UPLINK := "uplink_interface"
  const PORT_MAP := "port_map"
  const PORT_MAPPINGS := "port_mappings"

  /** The steps before the port map, which alone needs the rendering. */
  function ScalarSteps(d: Draft): Option<Draft> {
    var first := ScalarAlias(d, CONTROLLER, CONTROLLER_URL);
    if first.None? then None
    else
      var second := ScalarAlias(first.value, INFORM_URL, CONTROLLER_URL);
      if second.None? then None else Some(OperationMode(second.value))
  }

  function BridgeSteps(d: Draft): Option<Draft> {
    var third := BridgeAlias(d, OLD_BRIDGE, INNER_BRIDGE);
    if third.None? then None else BridgeAlias(third.value, OLD_UPLINK, INNER_UPLINK)
  }

  function Migrated(marshal: Marshal, content: seq<Node>): Option<Draft> {
    var scalars := ScalarSteps(Draft(content, []));
    if scalars.None? then None
    else
      var bridged := BridgeSteps(scalars.value);
      if bridged.None? then None else NodeAlias(marshal, bridged.value, PORT_MAP, PORT_MAPPINGS)
  }

  // ---- the migration as the program runs it ----

  /** The document being edited, and the log of what was done. */
  class Migration {
    var content: seq<Node>
    var actions: seq<Action>
    var changed: bool

    ghost predicate Valid()
      reads this
    {
      changed <==> actions != []
    }

    ghost function Current(): Draft
      reads this
    {
      Draft(content, actions)
    }

    constructor (content: seq<Node>)
      ensures Valid() && Current() == Draft(content, [])
    {
      this.content, actions, changed := content, [], false;
    }

    method Did(action: Action)
      modifies this
      ensures Valid() && Current() == Draft(old(content), old(actions) + [action])
    {
      changed := true;
      actions := actions + [action];
    }

    method MigrateScalarAlias(alias: string, target: string) returns (ok: bool)
      requires Valid()
      modifies this
      ensures Valid()
      ensures ok <==> ScalarAlias(old(Current()), alias, target).Some?
      ensures ok ==> Current() == ScalarAlias(old(Current()), alias, target).value
    {
      hide TrimSpace, KeyIndex, SetBridge, BRIDGE;
      var aliasIndex := KeyIndex(content, alias);
      if aliasIndex < 0 {
        return true;
      }
      var aliasValue := content[aliasIndex + 1];
      if aliasValue.kind != Scalar {
        return false;
      }
      var targetIndex := KeyIndex(content, target);
      if targetIndex < 0 {
        content := RenameKey(content, aliasIndex, target);
        Did(Moved(alias, target));
        return true;
      }
      if content[targetIndex + 1].kind != Scalar {
        return false;
      }
      var aliasText, targetText := TrimSpace(aliasValue.value), TrimSpace(content[targetIndex + 1].value);
      if targetText == "" && aliasText != "" {
        content := content[targetIndex + 1 := aliasValue];
        content := RemovePair(content, aliasIndex);
        Did(Moved(alias, target));
      } else if targetText == aliasText {
        content := RemovePair(content, aliasIndex);
        Did(RemovedDuplicate(alias));
      } else {
        return false;
      }
      return true;
    }

    method MigrateOperationMode()
      requires Valid()
      modifies this
      ensures Valid() && Current() == OperationMode(old(Current()))
    {
      hide TrimSpace;
      var i := KeyIndex(content, MODE);
      if i >= 0 && content[i + 1].kind == Scalar && TrimSpace(content[i + 1].value) == OBSERVE {
        content := content[i + 1 := content[i + 1].(value := BRIDGE_OBSERVE_MODE)];
        Did(RenamedMode);
      }
    }

    method MigrateBridgeAlias(alias: string, target: string) returns (ok: bool)
      requires Valid()
      modifies this
      ensures Valid()
      ensures ok <==> BridgeAlias(old(Current()), alias, target).Some?
      ensures ok ==> Current() == BridgeAlias(old(Current()), alias, target).value
    {
      hide TrimSpace, KeyIndex, SetBridge, BRIDGE;
      var aliasIndex := KeyIndex(content, alias);
      if aliasIndex < 0 {
        return true;
      }
      var aliasValue := content[aliasIndex + 1];
      if aliasValue.kind != Scalar {
        return false;
      }
      var aliasText := TrimSpace(aliasValue.value);
      if aliasText == "" {
        return true;
      }
      var bridgeIndex := KeyIndex(content, BRIDGE);
      if bridgeIndex >= 0 && content[bridgeIndex + 1].kind != Mapping {
        return false;
      }
      var bridge := if bridgeIndex >= 0 then content[bridgeIndex + 1].content else [];
      var targetIndex := KeyIndex(bridge, target);
      if targetIndex < 0 {
        bridge := bridge + [StringNode(target), aliasValue];
      } else if bridge[targetIndex + 1].kind != Scalar {
        return false;
      } else {
        var targetText := TrimSpace(bridge[targetIndex + 1].value);
        if targetText == aliasText {
          content := RemovePair(content, aliasIndex);
          Did(RemovedDuplicate(alias));
          return true;
        }
        if targetText != "" {
          return false;
        }
        bridge := bridge[targetIndex + 1 := aliasValue];
      }
      SetBridgeKeepsIndex(content, bridge, alias);
      content := RemovePair(SetBridge(content, bridge), aliasIndex);
      Did(Moved(alias, target));
      return true;
    }

    method MigrateNodeAlias(marshal: Marshal, alias: string, target: string) returns (ok: bool)
      requires Valid()
      modifies this
      ensures Valid()
      ensures ok <==> NodeAlias(marshal, old(Current()), alias, target).Some?
      ensures ok ==> Current() == NodeAlias(marshal, old(Current()), alias, target).value
    {
      var aliasIndex := KeyIndex(content, alias);
      if aliasIndex < 0 {
        return true;
      }
      var targetIndex := KeyIndex(content, target);
      if targetIndex < 0 {
        content := RenameKey(content, aliasIndex, target);
        Did(Moved(alias, target));
        return true;
      }
      if SameNode(marshal, content[aliasIndex + 1], content[targetIndex + 1]) {
        content := RemovePair(content, aliasIndex);
        Did(RemovedDuplicate(alias));
        return true;
      }
      return false;
    }

    /** All steps in order; a changed document must still decode as a configuration. */
    method MigrateData(marshal: Marshal, decodes: seq<Node> -> bool) returns (ok: bool)
      requires Valid() && actions == []
      modifies this
      ensures Valid()
      ensures ok <==> var r := Migrated(marshal, old(content)); r.Some? && (r.value.actions == [] || decodes(r.value.content))
      ensures ok ==> Current() == Migrated(marshal, old(content)).value
    {
      hide ScalarAlias, BridgeAlias, NodeAlias, OperationMode;
      ok := MigrateScalarAlias(CONTROLLER, CONTROLLER_URL);
      if !ok {
        return;
      }
      ok := MigrateScalarAlias(INFORM_URL, CONTROLLER_URL);
      if !ok {
        return;
      }
      MigrateOperationMode();
      ok := MigrateBridgeAlias(OLD_BRIDGE, INNER_BRIDGE);
      if !ok {
        return;
      }
      ok := MigrateBridgeAlias(OLD_UPLINK, INNER_UPLINK);
      if !ok {
        return;
      }
      ok := MigrateNodeAlias(marshal, PORT_MAP, PORT_MAPPINGS);
      if !ok {
        return;
      }
      if changed && !decodes(content) {
        return false;
      }
    }
  }

  // ---- what each step does to the mapping ----

  function TextOf(content: seq<Node>, key: string): string {
    var node := Child(content, key);
    if node.Some? then node.value.value else ""
  }

  /** The trimmed text of a setting. */
  function Setting(content: seq<Node>, key: string): string {
    TrimSpace(TextOf(content, key))
  }

  lemma TrimmedNothing()
    ensures TrimSpace("") == ""
  {
  }

  lemma ScalarAliasDoes(d: Draft, alias: string, target: string)
    requires Plain(d.content) && alias != target && ScalarAlias(d, alias, target).Some?
    ensures var after := ScalarAlias(d, alias, target).value;
            && Plain(after.content) && Child(after.content, alias) == None
            && SameBut(d.content, after.content, {alias, target})
            && (Setting(d.content, alias) != "" ==> Setting(after.content, target) == Setting(d.content, alias))
            && (Setting(d.content, target) != "" ==> Setting(after.content, target) == Setting(d.content, target))
            && (Child(d.content, alias) == None ==> after == d)
  {
    hide Plain, SameBut, TrimSpace;
    TrimmedNothing();
    var i, t := KeyIndex(d.content, alias), KeyIndex(d.content, target);
    if i < 0 {
      SameButRefl(d.content, {alias, target});
    } else if t < 0 {
      RenameOneKey(d.content, alias, target);
    } else {
      var aliasValue := d.content[i + 1];
      if TrimSpace(d.content[t + 1].value) == "" && TrimSpace(aliasValue.value) != "" {
        var moved := d.content[t + 1 := aliasValue];
        ReplaceValue(d.content, target, aliasValue, alias);
        ReplaceChild(d.content, target, aliasValue);
        RemoveKey(moved, alias);
        SameButTrans(d.content, moved, RemovePair(moved, i), {target}, {alias}, {alias, target});
        SameChild(moved, RemovePair(moved, i), {alias}, target);
      } else {
        var after := RemovePair(d.content, i);
        RemoveKey(d.content, alias);
        SameButRefl(after, {target});
        SameButTrans(d.content, after, after, {alias}, {target}, {alias, target});
        SameChild(d.content, after, {alias}, target);
      }
    }
  }

  lemma SameChild(before: seq<Node>, after: seq<Node>, names: set<string>, key: string)
    requires SameBut(before, after, names) && key !in names
    ensures Child(after, key) == Child(before, key)
  {
  }

  /** normalizeMode: the legacy observe is the bridge mode, and no mode is the stub. */
  function NormalMode(value: string): string {
    var mode := Normal(value);
    if mode == "" then "stub" else if mode == OBSERVE then BRIDGE_OBSERVE_MODE else mode
  }

  function Mode(content: seq<Node>): string {
    NormalMode(TextOf(content, MODE))
  }

  lemma LowerCaseStays(s: string)
    requires forall i :: 0 <= i < |s| ==> !('A' <= s[i] <= 'Z')
    ensures ToLower(s) == s
  {
  }

  lemma ModeNames()
    ensures TrimSpace(BRIDGE_OBSERVE_MODE) == BRIDGE_OBSERVE_MODE && ToLower(BRIDGE_OBSERVE_MODE) == BRIDGE_OBSERVE_MODE
    ensures ToLower(OBSERVE) == OBSERVE
  {
    hide ToLower;
    var s, t := BRIDGE_OBSERVE_MODE, OBSERVE;
    assert |s| == 14 && s[0] == 'b' && s[1] == 'r' && s[2] == 'i' && s[3] == 'd' && s[4] == 'g' && s[5] == 'e' && s[6] == '-';
    assert s[7] == 'o' && s[8] == 'b' && s[9] == 's' && s[10] == 'e' && s[11] == 'r' && s[12] == 'v' && s[13] == 'e';
    assert |t| == 7 && t[0] == 'o' && t[1] == 'b' && t[2] == 's' && t[3] == 'e' && t[4] == 'r' && t[5] == 'v' && t[6] == 'e';
    LowerCaseStays(s);
    LowerCaseStays(t);
  }

  lemma OperationModeDoes(d: Draft)
    requires Plain(d.content)
    ensures var after := OperationMode(d);
            && Plain(after.content)
            && SameBut(d.content, after.content, {MODE})
            && Mode(after.content) == Mode(d.content)
            && OperationMode(Draft(after.content, [])) == Draft(after.content, [])
  {
    hide Plain, SameBut;
    ModeNames();
    hide TrimSpace, ToLower;
    var i := KeyIndex(d.content, MODE);
    if OperationMode(d) == d {
      SameButRefl(d.content, {MODE});
    } else {
      ReplaceChild(d.content, MODE, d.content[i + 1].(value := BRIDGE_OBSERVE_MODE));
    }
  }

  /** effectiveBridgeObserve for one setting: the nested text unless it is blank, then the
      legacy top-level one. */
  function Effective(content: seq<Node>, target: string, alias: string): string {
    if Setting(BridgeContent(content), target) == "" then Setting(content, alias) else TextOf(BridgeContent(content), target)
  }

  /** Absent or blank: nothing for the bridge step to move. */
  ghost predicate NothingLeft(content: seq<Node>, alias: string) {
    var node := Child(content, alias);
    node.None? || (node.value.kind == Scalar && TrimSpace(node.value.value) == "")
  }

  lemma NothingLeftIsNoOp(d: Draft, alias: string, target: string)
    ensures NothingLeft(d.content, alias) ==> BridgeAlias(d, alias, target) == Some(d)
    ensures NothingLeft(d.content, alias) ==> Setting(d.content, alias) == ""
  {
    TrimmedNothing();
    hide TrimSpace;
  }

  lemma SetBridgeDoes(content: seq<Node>, inner: seq<Node>)
    requires Plain(content) && BridgeOpen(content)
    ensures var after := SetBridge(content, inner);
            Plain(after) && BridgeContent(after) == inner && SameBut(content, after, {BRIDGE})
  {
    hide Plain, SameBut;
    var b := KeyIndex(content, BRIDGE);
    if b < 0 {
      AppendChild(content, BRIDGE, Node(Mapping, "!!map", "", inner));
    } else {
      ReplaceChild(content, BRIDGE, content[b + 1].(content := inner));
    }
  }

  /** One bridge alias: the nested mapping gains the text if it had none, the alias is gone
      or blank, and what the setting means is unchanged. */
  lemma BridgeAliasDoes(d: Draft, alias: string, target: string)
    requires Plain(d.content) && Plain(BridgeContent(d.content)) && alias != BRIDGE
    requires BridgeAlias(d, alias, target).Some?
    ensures var after := BridgeAlias(d, alias, target).value;
            && Plain(after.content) && Plain(BridgeContent(after.content))
            && SameBut(d.content, after.content, {alias, BRIDGE})
            && SameBut(BridgeContent(d.content), BridgeContent(after.content), {target})
            && NothingLeft(after.content, alias)
            && TrimSpace(Effective(after.content, target, alias)) == TrimSpace(Effective(d.content, target, alias))
  {
    hide Plain, SameBut, TrimSpace;
    TrimmedNothing();
    var i := KeyIndex(d.content, alias);
    var inner := BridgeContent(d.content);
    var t := KeyIndex(inner, target);
    if i < 0 || TrimSpace(d.content[i + 1].value) == "" {
      SameButRefl(d.content, {alias, BRIDGE});
      SameButRefl(inner, {target});
    } else {
      var aliasValue := d.content[i + 1];
      var text := TrimSpace(aliasValue.value);
      if t >= 0 && TrimSpace(inner[t + 1].value) == text {
        BridgeDuplicate(d.content, alias, target);
      } else {
        TrimTwice(aliasValue.value);
        var grown := if t < 0 then inner + [StringNode(target), aliasValue] else inner[t + 1 := aliasValue];
        if t < 0 { AppendChild(inner, target, aliasValue); } else { ReplaceChild(inner, target, aliasValue); }
        BridgeGrown(d.content, grown, alias);
      }
    }
  }

  lemma BridgeDuplicate(content: seq<Node>, alias: string, target: string)
    requires Plain(content) && Plain(BridgeContent(content)) && alias != BRIDGE && KeyIndex(content, alias) >= 0
    ensures var after := RemovePair(content, KeyIndex(content, alias));
            && Plain(after) && BridgeContent(after) == BridgeContent(content) && Child(after, alias) == None
            && SameBut(content, after, {alias, BRIDGE}) && SameBut(BridgeContent(content), BridgeContent(after), {target})
  {
    hide Plain, SameBut;
    var after := RemovePair(content, KeyIndex(content, alias));
    RemoveKey(content, alias);
    SameChild(content, after, {alias}, BRIDGE);
    SameButRefl(after, {BRIDGE});
    SameButTrans(content, after, after, {alias}, {BRIDGE}, {alias, BRIDGE});
    SameButRefl(BridgeContent(content), {target});
  }

  lemma BridgeGrown(content: seq<Node>, inner: seq<Node>, alias: string)
    requires Plain(content) && BridgeOpen(content) && alias != BRIDGE && KeyIndex(content, alias) >= 0
    ensures KeyIndex(SetBridge(content, inner), alias) == KeyIndex(content, alias)
    ensures var after := RemovePair(SetBridge(content, inner), KeyIndex(content, alias));
            Plain(after) && BridgeContent(after) == inner && Child(after, alias) == None && SameBut(content, after, {alias, BRIDGE})
  {
    hide Plain, SameBut, SetBridge;
    SetBridgeKeepsIndex(content, inner, alias);
    SetBridgeDoes(content, inner);
    var set_ := SetBridge(content, inner);
    var after := RemovePair(set_, KeyIndex(content, alias));
    RemoveKey(set_, alias);
    SameChild(set_, after, {alias}, BRIDGE);
    SameButTrans(content, set_, after, {BRIDGE}, {alias}, {alias, BRIDGE});
  }

  lemma NodeAliasDoes(marshal: Marshal, d: Draft, alias: string, target: string)
    requires Plain(d.content) && alias != target && NodeAlias(marshal, d, alias, target).Some?
    ensures var after := NodeAlias(marshal, d, alias, target).value;
            && Plain(after.content) && Child(after.content, alias) == None
            && SameBut(d.content, after.content, {alias, target})
            && (if Child(d.content, target).Some? then Child(after.content, target) == Child(d.content, target)
                else Child(after.content, target) == Child(d.content, alias))
            && (Child(d.content, alias).Some? && Child(d.content, target).Some? ==>
                  SameNode(marshal, Child(d.content, alias).value, Child(d.content, target).value))
  {
    hide Plain, SameBut;
    var i, t := KeyIndex(d.content, alias), KeyIndex(d.content, target);
    if i < 0 {
      SameButRefl(d.content, {alias, target});
    } else if t < 0 {
      RenameOneKey(d.content, alias, target);
    } else {
      var after := RemovePair(d.content, i);
      RemoveKey(d.content, alias);
      SameButRefl(after, {target});
      SameButTrans(d.content, after, after, {alias}, {target}, {alias, target});
      SameChild(d.content, after, {alias}, target);
    }
  }

  // ---- the whole migration ----

  /** Every name some step reads or writes. */
  const NAMES := {CONTROLLER, INFORM_URL, CONTROLLER_URL, MODE, OLD_BRIDGE, OLD_UPLINK, BRIDGE, PORT_MAP, PORT_MAPPINGS}
  const INNER_NAMES := {INNER_BRIDGE, INNER_UPLINK}

  lemma NamesDiffer()
    ensures CONTROLLER != INFORM_URL && CONTROLLER != CONTROLLER_URL && INFORM_URL != CONTROLLER_URL
    ensures forall n :: n in [CONTROLLER, INFORM_URL, CONTROLLER_URL] ==> n !in [MODE, OLD_BRIDGE, OLD_UPLINK, BRIDGE, PORT_MAP, PORT_MAPPINGS]
    ensures MODE !in [OLD_BRIDGE, OLD_UPLINK, BRIDGE, PORT_MAP, PORT_MAPPINGS]
    ensures OLD_BRIDGE !in [OLD_UPLINK, BRIDGE, PORT_MAP, PORT_MAPPINGS]
    ensures OLD_UPLINK !in [BRIDGE, PORT_MAP, PORT_MAPPINGS]
    ensures BRIDGE !in [PORT_MAP, PORT_MAPPINGS] && PORT_MAP != PORT_MAPPINGS
    ensures INNER_BRIDGE != INNER_UPLINK
  {
    assert CONTROLLER[0] == 'c' && CONTROLLER_URL[0] == 'c' && INFORM_URL[0] == 'i' && BRIDGE[0] == 'b' && PORT_MAP[0] == 'p' && PORT_MAPPINGS[0] == 'p';
    assert MODE[0] == 'o' && OLD_BRIDGE[0] == 'o' && OLD_UPLINK[0] == 'o' && MODE[1] == 'p' && OLD_BRIDGE[1] == 'b' && OLD_UPLINK[1] == 'b';
    assert |CONTROLLER| == 10 && |CONTROLLER_URL| == 14 && |OLD_BRIDGE| == 14 && |OLD_UPLINK| == 17 && |PORT_MAP| == 8 && |PORT_MAPPINGS| == 13;
    assert |INNER_BRIDGE| == 6 && |INNER_UPLINK| == 16;
  }

  /** The intermediate documents of a successful migration and what each step did. */
  lemma MigrationSteps(marshal: Marshal, content: seq<Node>)
    returns (c1: seq<Node>, c2: seq<Node>, c3: seq<Node>, c4: seq<Node>, c5: seq<Node>, c6: seq<Node>)
    requires Plain(content) && Plain(BridgeContent(content)) && Migrated(marshal, content).Some?
    ensures c6 == Migrated(marshal, content).value.content
    ensures Plain(c6) && Plain(BridgeContent(c6))
    ensures SameBut(content, c1, {CONTROLLER, CONTROLLER_URL}) && SameBut(c1, c2, {INFORM_URL, CONTROLLER_URL})
    ensures SameBut(c2, c3, {MODE}) && SameBut(c3, c4, {OLD_BRIDGE, BRIDGE}) && SameBut(c4, c5, {OLD_UPLINK, BRIDGE})
    ensures SameBut(c5, c6, {PORT_MAP, PORT_MAPPINGS})
    ensures SameBut(BridgeContent(c3), BridgeContent(c4), {INNER_BRIDGE}) && SameBut(BridgeContent(c4), BridgeContent(c5), {INNER_UPLINK})
    ensures Child(c1, CONTROLLER) == None && Child(c2, INFORM_URL) == None && Child(c6, PORT_MAP) == None
    ensures Setting(content, CONTROLLER) != "" ==> Setting(c1, CONTROLLER_URL) == Setting(content, CONTROLLER)
    ensures Setting(content, CONTROLLER_URL) != "" ==> Setting(c1, CONTROLLER_URL) == Setting(content, CONTROLLER_URL)
    ensures Setting(c1, INFORM_URL) != "" ==> Setting(c2, CONTROLLER_URL) == Setting(c1, INFORM_URL)
    ensures Setting(c1, CONTROLLER_URL) != "" ==> Setting(c2, CONTROLLER_URL) == Setting(c1, CONTROLLER_URL)
    ensures Mode(c3) == Mode(c2) && OperationMode(Draft(c3, [])) == Draft(c3, [])
    ensures NothingLeft(c4, OLD_BRIDGE) && NothingLeft(c5, OLD_UPLINK)
    ensures TrimSpace(Effective(c4, INNER_BRIDGE, OLD_BRIDGE)) == TrimSpace(Effective(c3, INNER_BRIDGE, OLD_BRIDGE))
    ensures TrimSpace(Effective(c5, INNER_UPLINK, OLD_UPLINK)) == TrimSpace(Effective(c4, INNER_UPLINK, OLD_UPLINK))
    ensures if Child(c5, PORT_MAPPINGS).Some? then Child(c6, PORT_MAPPINGS) == Child(c5, PORT_MAPPINGS)
            else Child(c6, PORT_MAPPINGS) == Child(c5, PORT_MAP)
  {
    NamesDiffer();
    hide Plain, SameBut, ScalarAlias, BridgeAlias, NodeAlias, OperationMode, Setting, TrimSpace, Effective, NothingLeft, Mode;
    var d0 := Draft(content, []);
    var d1 := ScalarAlias(d0, CONTROLLER, CONTROLLER_URL).value;
    ScalarAliasDoes(d0, CONTROLLER, CONTROLLER_URL);
    var d2 := ScalarAlias(d1, INFORM_URL, CONTROLLER_URL).value;
    ScalarAliasDoes(d1, INFORM_URL, CONTROLLER_URL);
    var d3 := OperationMode(d2);
    OperationModeDoes(d2);
    SameChild(content, d1.content, {CONTROLLER, CONTROLLER_URL}, BRIDGE);
    SameChild(d1.content, d2.content, {INFORM_URL, CONTROLLER_URL}, BRIDGE);
    SameChild(d2.content, d3.content, {MODE}, BRIDGE);
    var d4 := BridgeAlias(d3, OLD_BRIDGE, INNER_BRIDGE).value;
    BridgeAliasDoes(d3, OLD_BRIDGE, INNER_BRIDGE);
    var d5 := BridgeAlias(d4, OLD_UPLINK, INNER_UPLINK).value;
    BridgeAliasDoes(d4, OLD_UPLINK, INNER_UPLINK);
    var d6 := NodeAlias(marshal, d5, PORT_MAP, PORT_MAPPINGS).value;
    NodeAliasDoes(marshal, d5, PORT_MAP, PORT_MAPPINGS);
    SameChild(d5.content, d6.content, {PORT_MAP, PORT_MAPPINGS}, BRIDGE);
    c1, c2, c3, c4, c5, c6 := d1.content, d2.content, d3.content, d4.content, d5.content, d6.content;
  }

  lemma StepNames()
    ensures {CONTROLLER, CONTROLLER_URL} + {INFORM_URL, CONTROLLER_URL} <= NAMES
    ensures NAMES + {MODE} <= NAMES && NAMES + {OLD_BRIDGE, BRIDGE} <= NAMES && NAMES + {OLD_UPLINK, BRIDGE} <= NAMES
    ensures NAMES + {PORT_MAP, PORT_MAPPINGS} <= NAMES
    ensures {INNER_BRIDGE} + {INNER_UPLINK} <= INNER_NAMES
  {
  }

  /** After a successful migration the aliases are gone, or blank where blank ones are left
      alone, keys stay unique, and every unrelated pair is kept in order, at the top and
      inside the bridge settings. */
  lemma MigrationShape(marshal: Marshal, content: seq<Node>)
    requires Plain(content) && Plain(BridgeContent(content)) && Migrated(marshal, content).Some?
    ensures var after := Migrated(marshal, content).value.content;
            && Plain(after) && Plain(BridgeContent(after))
            && Child(after, CONTROLLER) == None && Child(after, INFORM_URL) == None && Child(after, PORT_MAP) == None
            && NothingLeft(after, OLD_BRIDGE) && NothingLeft(after, OLD_UPLINK)
            && SameBut(content, after, NAMES)
            && SameBut(BridgeContent(content), BridgeContent(after), INNER_NAMES)
  {
    hide Plain, SameBut, Migrated, Setting, TrimSpace, Effective, Mode, OperationMode, Child;
    hide NAMES, INNER_NAMES, CONTROLLER, INFORM_URL, CONTROLLER_URL, MODE, OLD_BRIDGE, OLD_UPLINK, BRIDGE, PORT_MAP, PORT_MAPPINGS;
    var c1, c2, c3, c4, c5, c6 := MigrationSteps(marshal, content);
    ChildrenAlong(content, c1, c2, c3, c4, c5, c6);
    StepNames();
    SameButTrans(content, c1, c2, {CONTROLLER, CONTROLLER_URL}, {INFORM_URL, CONTROLLER_URL}, NAMES);
    SameButTrans(content, c2, c3, NAMES, {MODE}, NAMES);
    SameButTrans(content, c3, c4, NAMES, {OLD_BRIDGE, BRIDGE}, NAMES);
    SameButTrans(content, c4, c5, NAMES, {OLD_UPLINK, BRIDGE}, NAMES);
    SameButTrans(content, c5, c6, NAMES, {PORT_MAP, PORT_MAPPINGS}, NAMES);
    SameButTrans(BridgeContent(c3), BridgeContent(c4), BridgeContent(c5), {INNER_BRIDGE}, {INNER_UPLINK}, INNER_NAMES);
  }

  /** Which settings the later steps leave alone. */
  lemma ChildrenAlong(content: seq<Node>, c1: seq<Node>, c2: seq<Node>, c3: seq<Node>, c4: seq<Node>, c5: seq<Node>, c6: seq<Node>)
    requires SameBut(content, c1, {CONTROLLER, CONTROLLER_URL}) && SameBut(c1, c2, {INFORM_URL, CONTROLLER_URL})
    requires SameBut(c2, c3, {MODE}) && SameBut(c3, c4, {OLD_BRIDGE, BRIDGE}) && SameBut(c4, c5, {OLD_UPLINK, BRIDGE})
    requires SameBut(c5, c6, {PORT_MAP, PORT_MAPPINGS})
    ensures Child(c6, CONTROLLER) == Child(c1, CONTROLLER) && Child(c6, INFORM_URL) == Child(c2, INFORM_URL)
    ensures Child(c6, CONTROLLER_URL) == Child(c2, CONTROLLER_URL) && Child(c1, INFORM_URL) == Child(content, INFORM_URL)
    ensures Child(c2, MODE) == Child(content, MODE) && Child(c6, MODE) == Child(c3, MODE)
    ensures Child(c3, OLD_BRIDGE) == Child(content, OLD_BRIDGE) && Child(c6, OLD_BRIDGE) == Child(c4, OLD_BRIDGE)
    ensures Child(c4, OLD_UPLINK) == Child(content, OLD_UPLINK) && Child(c6, OLD_UPLINK) == Child(c5, OLD_UPLINK)
    ensures Child(c3, BRIDGE) == Child(content, BRIDGE) && Child(c6, BRIDGE) == Child(c5, BRIDGE)
    ensures Child(c5, PORT_MAP) == Child(content, PORT_MAP) && Child(c5, PORT_MAPPINGS) == Child(content, PORT_MAPPINGS)
  {
    NamesDiffer();
    hide Child;
  }

  /** A migrated configuration means what it meant: the same bridge and uplink, the same
      operation mode, the same port mappings, and a controller URL that is every non-blank
      URL it was written from. */
  lemma MigrationMeaning(marshal: Marshal, content: seq<Node>)
    requires Plain(content) && Plain(BridgeContent(content)) && Migrated(marshal, content).Some?
    ensures var after := Migrated(marshal, content).value.content;
            && TrimSpace(Effective(after, INNER_BRIDGE, OLD_BRIDGE)) == TrimSpace(Effective(content, INNER_BRIDGE, OLD_BRIDGE))
            && TrimSpace(Effective(after, INNER_UPLINK, OLD_UPLINK)) == TrimSpace(Effective(content, INNER_UPLINK, OLD_UPLINK))
            && Mode(after) == Mode(content)
            && (forall source :: source in [CONTROLLER, INFORM_URL, CONTROLLER_URL] && Setting(content, source) != "" ==>
                  Setting(after, CONTROLLER_URL) == Setting(content, source))
            && Child(after, PORT_MAPPINGS)
               == if Child(content, PORT_MAPPINGS).Some? then Child(content, PORT_MAPPINGS) else Child(content, PORT_MAP)
  {
    hide Plain, SameBut, Migrated, TrimSpace, NormalMode, OperationMode, Child;
    hide CONTROLLER, INFORM_URL, CONTROLLER_URL, MODE, OLD_BRIDGE, OLD_UPLINK, BRIDGE, PORT_MAP, PORT_MAPPINGS, INNER_BRIDGE, INNER_UPLINK;
    NamesDiffer();
    var c1, c2, c3, c4, c5, c6 := MigrationSteps(marshal, content);
    ChildrenAlong(content, c1, c2, c3, c4, c5, c6);
    SameChild(BridgeContent(c4), BridgeContent(c5), {INNER_UPLINK}, INNER_BRIDGE);
    SameChild(BridgeContent(c3), BridgeContent(c4), {INNER_BRIDGE}, INNER_UPLINK);
  }

  /** Migrating a migrated document finds nothing to do. */
  lemma MigratingTwice(marshal: Marshal, content: seq<Node>)
    requires Plain(content) && Plain(BridgeContent(content)) && Migrated(marshal, content).Some?
    ensures var after := Migrated(marshal, content).value.content;
            Migrated(marshal, after) == Some(Draft(after, []))
  {
    hide Plain, SameBut, TrimSpace, Effective, Setting, Mode, BridgeAlias, OperationMode, ScalarAlias, NodeAlias, Child;
    hide CONTROLLER, INFORM_URL, CONTROLLER_URL, MODE, OLD_BRIDGE, OLD_UPLINK, BRIDGE, PORT_MAP, PORT_MAPPINGS, INNER_BRIDGE, INNER_UPLINK;
    var c1, c2, c3, c4, c5, c6 := MigrationSteps(marshal, content);
    ChildrenAlong(content, c1, c2, c3, c4, c5, c6);
    var d := Draft(c6, []);
    AbsentIsNoOp(marshal, d, CONTROLLER, CONTROLLER_URL);
    AbsentIsNoOp(marshal, d, INFORM_URL, CONTROLLER_URL);
    AbsentIsNoOp(marshal, d, PORT_MAP, PORT_MAPPINGS);
    ModeStays(c3, c6);
    NothingLeftIsNoOp(d, OLD_BRIDGE, INNER_BRIDGE);
    NothingLeftIsNoOp(d, OLD_UPLINK, INNER_UPLINK);
  }

  lemma AbsentIsNoOp(marshal: Marshal, d: Draft, alias: string, target: string)
    requires Child(d.content, alias) == None
    ensures ScalarAlias(d, alias, target) == Some(d) && NodeAlias(marshal, d, alias, target) == Some(d)
  {
    hide TrimSpace;
  }

  lemma ModeStays(before: seq<Node>, after: seq<Node>)
    requires Child(after, MODE) == Child(before, MODE) && OperationMode(Draft(before, [])) == Draft(before, [])
    ensures OperationMode(Draft(after, [])) == Draft(after, [])
  {
    hide TrimSpace;
  }
}
