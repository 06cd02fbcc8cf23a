/** YAML node trees without aliases, and the overlay merge used for profile inheritance. */
module YamlTree {
  import opened Basics

  datatype Kind = Document | Sequence | Mapping | Scalar

  /** A mapping keeps its keys and values alternating in one flat list. */
  datatype Node = Node(kind: Kind, tag: string, value: string, content: seq<Node>)

  // ---- flat key/value lists ----

  /** Position of the first key with the given text, or -1. */
  function KeyIndex(content: seq<Node>, key: string): (i: int)
    ensures -1 <= i
    ensures i >= 0 ==> i % 2 == 0 && i + 1 < |content| && content[i].value == key
  {
    if |content| < 2 then -1
    else if content[0].value == key then 0
    else
      var rest := KeyIndex(content[2..], key);
      if rest < 0 then -1 else rest + 2
  }

  function Child(content: seq<Node>, key: string): Option<Node> {
    var i := KeyIndex(content, key);
    if i < 0 then None else Some(content[i + 1])
  }

  function Keys(content: seq<Node>): seq<string> {
    if |content| < 2 then [] else [content[0].value] + Keys(content[2..])
  }

  predicate Paired(content: seq<Node>) {
    |content| % 2 == 0
  }

  ghost predicate UniqueKeys(content: seq<Node>) {
    |content| < 2 || (KeyIndex(content[2..], content[0].value) < 0 && UniqueKeys(content[2..]))
  }

  /** Mappings at every depth have whole pairs and no key twice. */
  ghost predicate WellFormed(n: Node)
    decreases n
  {
    && (n.kind == Mapping ==> Paired(n.content) && UniqueKeys(n.content))
    && forall child <- n.content :: WellFormed(child)
  }

  lemma {:induction false} KeyIndexFinds(content: seq<Node>, key: string)
    ensures KeyIndex(content, key) < 0 <==> key !in Keys(content)
  {
    if |content| >= 2 {
      KeyIndexFinds(content[2..], key);
    }
  }

  /** Replacing a value touches no key and no other child. */
  lemma {:induction false} ReplaceValue(content: seq<Node>, key: string, node: Node, other: string)
    requires KeyIndex(content, key) >= 0
    ensures var after := content[KeyIndex(content, key) + 1 := node];
            && Keys(after) == Keys(content)
            && KeyIndex(after, other) == KeyIndex(content, other)
            && Child(after, other) == if other == key then Some(node) else Child(content, other)
  {
    var i := KeyIndex(content, key);
    var after := content[i + 1 := node];
    if i > 0 {
      ReplaceValue(content[2..], key, node, other);
      assert after[2..] == content[2..][i - 1 := node];
    } else {
      assert after[2..] == content[2..];
    }
  }

  lemma {:induction false} AppendedKeys(content: seq<Node>, key: Node, node: Node)
    requires Paired(content)
    ensures Keys(content + [key, node]) == Keys(content) + [key.value]
    decreases |content|
  {
    var after := content + [key, node];
    if |content| >= 2 {
      AppendedKeys(content[2..], key, node);
      assert after[2..] == content[2..] + [key, node];
    } else {
      assert after == [key, node] && after[2..] == [];
    }
  }

  lemma {:induction false} AppendedIndex(content: seq<Node>, key: Node, node: Node, other: string)
    requires Paired(content)
    ensures KeyIndex(content + [key, node], other)
         == if KeyIndex(content, other) >= 0 then KeyIndex(content, other) else if other == key.value then |content| else -1
    decreases |content|
  {
    var after := content + [key, node];
    if |content| >= 2 {
      AppendedIndex(content[2..], key, node, other);
      assert after[2..] == content[2..] + [key, node] && after[0] == content[0];
    } else {
      assert after == [key, node] && after[2..] == [];
    }
  }

  lemma AppendPair(content: seq<Node>, key: Node, node: Node, other: string)
    requires Paired(content) && KeyIndex(content, key.value) < 0
    ensures var after := content + [key, node];
            && Paired(after)
            && Keys(after) == Keys(content) + [key.value]
            && Child(after, other) == if other == key.value then Some(node) else Child(content, other)
  {
    hide KeyIndex, Keys;
    AppendedKeys(content, key, node);
    AppendedIndex(content, key, node, other);
  }

  // ---- merging ----

  function MergeNodes(base: Node, overlay: Node): Node
    decreases overlay, 1
  {
    if base.kind != Mapping || overlay.kind != Mapping then overlay
    else base.(content := MergePairs(base.content, overlay.content))
  }

  function MergePairs(content: seq<Node>, overlay: seq<Node>): seq<Node>
    decreases overlay, 0
  {
    if |overlay| < 2 then content
    else
      var key, node := overlay[0], overlay[1];
      var i := KeyIndex(content, key.value);
      MergePairs(if i < 0 then content + [key, node] else content[i + 1 := MergeNodes(content[i + 1], node)], overlay[2..])
  }

  method MergeYAMLNodes(base: Option<Node>, overlay: Option<Node>) returns (merged: Option<Node>)
    ensures merged == if base.None? then overlay
                      else if overlay.None? then base
                      else Some(MergeNodes(base.value, overlay.value))
    decreases overlay.Some?, overlay.GetOr(Node(Scalar, "", "", []))
  {
    if base.None? {
      return overlay;
    }
    if overlay.None? {
      return base;
    }
    if base.value.kind != Mapping || overlay.value.kind != Mapping {
      return overlay;
    }
    var content := base.value.content;
    var over := overlay.value.content;
    var index := 0;
    while index + 1 < |over|
      invariant 0 <= index <= |over|
      invariant MergePairs(content, over[index..]) == MergePairs(base.value.content, over)
    {
      var key, node := over[index], over[index + 1];
      assert over[index..][0] == key && over[index..][1] == node && over[index..][2..] == over[index + 2..];
      var baseIndex := KeyIndex(content, key.value);
      if baseIndex < 0 {
        content := content + [key, node];
      } else {
        var child := MergeYAMLNodes(Some(content[baseIndex + 1]), Some(node));
        content := content[baseIndex + 1 := child.value];
      }
      index := index + 2;
    }
    return Some(base.value.(content := content));
  }

  // ---- what a merged mapping contains ----

  /** The child a merged mapping has under a key: the overlay's over the base's. */
  ghost function MergeChild(base: Option<Node>, overlay: Option<Node>): Option<Node> {
    if overlay.None? then base
    else if base.None? then overlay
    else Some(MergeNodes(base.value, overlay.value))
  }

  lemma {:induction false} MergedChild(content: seq<Node>, overlay: seq<Node>, key: string)
    requires Paired(content) && UniqueKeys(overlay)
    ensures Paired(MergePairs(content, overlay))
    ensures Child(MergePairs(content, overlay), key) == MergeChild(Child(content, key), Child(overlay, key))
    decreases |overlay|
  {
    if |overlay| >= 2 {
      hide MergeNodes, Keys;
      var k, node := overlay[0], overlay[1];
      var i := KeyIndex(content, k.value);
      if i < 0 {
        AppendPair(content, k, node, key);
        MergedChild(content + [k, node], overlay[2..], key);
      } else {
        var merged := MergeNodes(content[i + 1], node);
        ReplaceValue(content, k.value, merged, key);
        MergedChild(content[i + 1 := merged], overlay[2..], key);
      }
    }
  }

  /** The overlay's keys that a key list does not have yet, in overlay order. */
  ghost function NewKeys(known: seq<string>, overlay: seq<Node>): seq<string> {
    if |overlay| < 2 then []
    else (if overlay[0].value in known then [] else [overlay[0].value]) + NewKeys(known, overlay[2..])
  }

  lemma {:induction false} NewKeysIgnore(known: seq<string>, extra: string, overlay: seq<Node>)
    requires KeyIndex(overlay, extra) < 0
    ensures NewKeys(known + [extra], overlay) == NewKeys(known, overlay)
    decreases |overlay|
  {
    if |overlay| >= 2 {
      NewKeysIgnore(known, extra, overlay[2..]);
    }
  }

  /** Base keys stay first and in base order; the overlay adds its new ones in its own order. */
  lemma {:induction false} MergedKeys(content: seq<Node>, overlay: seq<Node>)
    requires Paired(content) && UniqueKeys(overlay)
    ensures Keys(MergePairs(content, overlay)) == Keys(content) + NewKeys(Keys(content), overlay)
    decreases |overlay|
  {
    if |overlay| >= 2 {
      hide MergeNodes, Child;
      var k, node := overlay[0], overlay[1];
      var i := KeyIndex(content, k.value);
      KeyIndexFinds(content, k.value);
      if i < 0 {
        AppendPair(content, k, node, k.value);
        MergedKeys(content + [k, node], overlay[2..]);
        NewKeysIgnore(Keys(content), k.value, overlay[2..]);
        assert Keys(content) + [k.value] + NewKeys(Keys(content), overlay[2..]) == Keys(content) + NewKeys(Keys(content), overlay);
      } else {
        var merged := MergeNodes(content[i + 1], node);
        ReplaceValue(content, k.value, merged, k.value);
        MergedKeys(content[i + 1 := merged], overlay[2..]);
      }
    }
  }

  lemma {:induction false} UniqueByKeys(left: seq<Node>, right: seq<Node>)
    requires Keys(left) == Keys(right)
    ensures UniqueKeys(left) == UniqueKeys(right)
    decreases |left|
  {
    if |left| >= 2 && |right| >= 2 {
      assert Keys(left) == [left[0].value] + Keys(left[2..]) && Keys(right) == [right[0].value] + Keys(right[2..]);
      assert Keys(left)[1..] == Keys(left[2..]) && Keys(right)[1..] == Keys(right[2..]);
      KeyIndexFinds(left[2..], left[0].value);
      KeyIndexFinds(right[2..], right[0].value);
      UniqueByKeys(left[2..], right[2..]);
    }
  }

  lemma {:induction false} AppendStaysUnique(content: seq<Node>, key: Node, node: Node)
    requires Paired(content) && UniqueKeys(content) && KeyIndex(content, key.value) < 0
    ensures UniqueKeys(content + [key, node])
    decreases |content|
  {
    var after := content + [key, node];
    if |content| >= 2 {
      AppendStaysUnique(content[2..], key, node);
      AppendPair(content[2..], key, node, content[0].value);
      assert after[2..] == content[2..] + [key, node];
    } else {
      assert after[2..] == [];
    }
  }

  /** Merging well-formed trees gives a well-formed tree. */
  lemma {:induction false} MergeIsWellFormed(base: Node, overlay: Node)
    requires WellFormed(base) && WellFormed(overlay)
    ensures WellFormed(MergeNodes(base, overlay))
    decreases overlay, 1
  {
    if base.kind == Mapping && overlay.kind == Mapping {
      PairsAreWellFormed(base.content, overlay.content);
    }
  }

  lemma {:induction false} PairsAreWellFormed(content: seq<Node>, overlay: seq<Node>)
    requires Paired(content) && UniqueKeys(content) && forall n <- content :: WellFormed(n)
    requires forall n <- overlay :: WellFormed(n)
    ensures var merged := MergePairs(content, overlay);
            Paired(merged) && UniqueKeys(merged) && forall n <- merged :: WellFormed(n)
    decreases overlay, 0
  {
    if |overlay| >= 2 {
      var k, node := overlay[0], overlay[1];
      var i := KeyIndex(content, k.value);
      assert k in overlay && node in overlay;
      if i < 0 {
        AppendStaysUnique(content, k, node);
        PairsAreWellFormed(content + [k, node], overlay[2..]);
      } else {
        assert content[i + 1] in content;
        MergeIsWellFormed(content[i + 1], node);
        var merged := MergeNodes(content[i + 1], node);
        ReplaceValue(content, k.value, merged, k.value);
        UniqueByKeys(content, content[i + 1 := merged]);
        PairsAreWellFormed(content[i + 1 := merged], overlay[2..]);
      }
    }
  }

  // ---- path lookup ----

  function Lookup(n: Node, path: seq<string>): Option<Node>
    decreases |path|
  {
    if path == [] then Some(n)
    else if n.kind != Mapping || Child(n.content, path[0]).None? then None
    else Lookup(Child(n.content, path[0]).value, path[1..])
  }

  lemma {:induction false} ChildIsWellFormed(n: Node, key: string)
    requires WellFormed(n) && n.kind == Mapping && Child(n.content, key).Some?
    ensures WellFormed(Child(n.content, key).value)
  {
    assert n.content[KeyIndex(n.content, key) + 1] in n.content;
  }

  /** What the overlay says at a path wins: a scalar or list outright, a mapping merged
      onto the base's mapping there. */
  lemma {:induction false} OverlayWins(base: Node, overlay: Node, path: seq<string>)
    requires WellFormed(base) && WellFormed(overlay) && Lookup(overlay, path).Some?
    ensures Lookup(MergeNodes(base, overlay), path) == MergeChild(Lookup(base, path), Lookup(overlay, path))
    decreases |path|
  {
    if path != [] && base.kind == Mapping {
      MergedChild(base.content, overlay.content, path[0]);
      if Child(base.content, path[0]).Some? {
        ChildIsWellFormed(base, path[0]);
        ChildIsWellFormed(overlay, path[0]);
        OverlayWins(Child(base.content, path[0]).value, Child(overlay.content, path[0]).value, path[1..]);
      }
    }
  }

  /** Where the overlay has a scalar or a list, or the base has no mapping to merge into,
      the merged tree has the overlay's node, whole and unchanged. */
  lemma {:induction false} OverlayReplaces(base: Node, overlay: Node, path: seq<string>)
    requires WellFormed(base) && WellFormed(overlay) && Lookup(overlay, path).Some?
    requires Lookup(overlay, path).value.kind == Mapping && Lookup(base, path).Some? ==>
               Lookup(base, path).value.kind != Mapping
    ensures Lookup(MergeNodes(base, overlay), path) == Lookup(overlay, path)
  {
    OverlayWins(base, overlay, path);
    if Lookup(base, path).Some? {
      assert MergeNodes(Lookup(base, path).value, Lookup(overlay, path).value) == Lookup(overlay, path).value;
    }
  }

  /** The key node a content list has for a key. */
  ghost function KeyNode(content: seq<Node>, key: string): Option<Node> {
    var i := KeyIndex(content, key);
    if i < 0 then None else Some(content[i])
  }

  lemma AppendedKeyNode(content: seq<Node>, k: Node, node: Node, key: string)
    requires Paired(content)
    ensures KeyNode(content + [k, node], key)
         == if KeyNode(content, key).Some? then KeyNode(content, key) else if key == k.value then Some(k) else None
  {
    hide KeyIndex;
    AppendedIndex(content, k, node, key);
  }

  lemma ReplacedKeyNode(content: seq<Node>, k: string, node: Node, key: string)
    requires KeyIndex(content, k) >= 0
    ensures KeyNode(content[KeyIndex(content, k) + 1 := node], key) == KeyNode(content, key)
  {
    hide KeyIndex, Child, Keys;
    ReplaceValue(content, k, node, key);
  }

  lemma FirstKeyNode(content: seq<Node>, key: string)
    requires |content| >= 2 && UniqueKeys(content)
    ensures KeyNode(content, key) == if content[0].value == key then Some(content[0]) else KeyNode(content[2..], key)
    ensures KeyNode(content[2..], content[0].value) == None
  {
  }

  lemma {:induction false} MergedKeyNode(content: seq<Node>, overlay: seq<Node>, key: string)
    requires Paired(content) && UniqueKeys(overlay)
    ensures KeyNode(MergePairs(content, overlay), key)
         == if KeyNode(content, key).Some? then KeyNode(content, key) else KeyNode(overlay, key)
    decreases |overlay|
  {
    if |overlay| >= 2 {
      var k, node := overlay[0], overlay[1];
      var i := KeyIndex(content, k.value);
      assert i >= 0 <==> KeyNode(content, k.value).Some?;
      FirstKeyNode(overlay, key);
      hide MergeNodes, KeyIndex, KeyNode;
      if i < 0 {
        AppendedKeyNode(content, k, node, key);
        MergedKeyNode(content + [k, node], overlay[2..], key);
      } else {
        var merged := MergeNodes(content[i + 1], node);
        ReplacedKeyNode(content, k.value, merged, key);
        MergedKeyNode(content[i + 1 := merged], overlay[2..], key);
      }
    } else {
      assert KeyNode(overlay, key) == None;
    }
  }

  lemma {:induction false} LookupIsWellFormed(n: Node, path: seq<string>)
    requires WellFormed(n) && Lookup(n, path).Some?
    ensures WellFormed(Lookup(n, path).value)
    decreases |path|
  {
    if path != [] {
      ChildIsWellFormed(n, path[0]);
      LookupIsWellFormed(Child(n.content, path[0]).value, path[1..]);
    }
  }

  /** Where both trees have a mapping, the merged tree has one too: with the base's tag,
      the base's key nodes first and in the base's order, and after them the overlay's
      key nodes that the base lacks. */
  lemma MappingsMerge(base: Node, overlay: Node, path: seq<string>, key: string)
    requires WellFormed(base) && WellFormed(overlay)
    requires Lookup(base, path).Some? && Lookup(base, path).value.kind == Mapping
    requires Lookup(overlay, path).Some? && Lookup(overlay, path).value.kind == Mapping
    ensures Lookup(MergeNodes(base, overlay), path).Some?
    ensures var b, o, m := Lookup(base, path).value, Lookup(overlay, path).value, Lookup(MergeNodes(base, overlay), path).value;
            && m.kind == Mapping && m.tag == b.tag && m.value == b.value && Paired(m.content)
            && Keys(m.content) == Keys(b.content) + NewKeys(Keys(b.content), o.content)
            && KeyNode(m.content, key) == if KeyNode(b.content, key).Some? then KeyNode(b.content, key) else KeyNode(o.content, key)
  {
    OverlayWins(base, overlay, path);
    LookupIsWellFormed(base, path);
    LookupIsWellFormed(overlay, path);
    var b, o := Lookup(base, path).value, Lookup(overlay, path).value;
    MergedChild(b.content, o.content, key);
    MergedKeys(b.content, o.content);
    MergedKeyNode(b.content, o.content, key);
  }

  /** The overlay cuts a path off when it has something other than a mapping on the way. */
  ghost predicate CutOff(overlay: Node, path: seq<string>)
    decreases |path|
  {
    path != [] &&
    (overlay.kind != Mapping
     || (Child(overlay.content, path[0]).Some? && CutOff(Child(overlay.content, path[0]).value, path[1..])))
  }

  /** Where the overlay is silent the base shows through, unless the overlay replaced a
      node above by something that is not a mapping. */
  lemma {:induction false} BaseShowsThrough(base: Node, overlay: Node, path: seq<string>)
    requires WellFormed(base) && WellFormed(overlay) && Lookup(overlay, path).None?
    ensures Lookup(MergeNodes(base, overlay), path) == if CutOff(overlay, path) then None else Lookup(base, path)
    decreases |path|
  {
    if base.kind == Mapping && overlay.kind == Mapping {
      MergedChild(base.content, overlay.content, path[0]);
      if Child(overlay.content, path[0]).Some? {
        ChildIsWellFormed(overlay, path[0]);
        var o := Child(overlay.content, path[0]).value;
        if Child(base.content, path[0]).Some? {
          ChildIsWellFormed(base, path[0]);
          BaseShowsThrough(Child(base.content, path[0]).value, o, path[1..]);
        }
      }
    }
  }

  // ---- merging twice ----

  lemma {:induction false} Absorbed(content: seq<Node>, overlay: seq<Node>)
    requires UniqueKeys(overlay)
    requires forall key :: key in Keys(overlay) ==> Child(overlay, key).Some? && Child(content, key).Some?
    requires forall key :: key in Keys(overlay) ==>
               MergeNodes(Child(content, key).value, Child(overlay, key).value) == Child(content, key).value
    ensures MergePairs(content, overlay) == content
    decreases |overlay|
  {
    if |overlay| >= 2 {
      var k, node := overlay[0], overlay[1];
      assert k.value in Keys(overlay) && Child(overlay, k.value) == Some(node);
      var i := KeyIndex(content, k.value);
      assert content[i + 1 := MergeNodes(content[i + 1], node)] == content;
      forall key | key in Keys(overlay[2..])
        ensures key in Keys(overlay) && Child(overlay[2..], key) == Child(overlay, key)
      {
        KeyIndexFinds(overlay[2..], key);
        KeyIndexFinds(overlay[2..], k.value);
      }
      Absorbed(content, overlay[2..]);
    }
  }

  lemma EveryKeyHasAChild(content: seq<Node>)
    ensures forall key :: key in Keys(content) ==> Child(content, key).Some?
  {
    forall key | key in Keys(content)
      ensures Child(content, key).Some?
    {
      KeyIndexFinds(content, key);
    }
  }

  /** A tree merged onto itself is itself. */
  lemma {:induction false} MergeWithItself(n: Node)
    requires WellFormed(n)
    ensures MergeNodes(n, n) == n
    decreases n
  {
    if n.kind == Mapping {
      EveryKeyHasAChild(n.content);
      forall key | key in Keys(n.content)
        ensures MergeNodes(Child(n.content, key).value, Child(n.content, key).value) == Child(n.content, key).value
      {
        ChildIsWellFormed(n, key);
        var i := KeyIndex(n.content, key);
        assert n.content[i + 1] in n.content;
        MergeWithItself(n.content[i + 1]);
      }
      Absorbed(n.content, n.content);
    }
  }

  /** Applying an overlay a second time changes nothing. */
  lemma {:induction false} MergeTwice(base: Node, overlay: Node)
    requires WellFormed(base) && WellFormed(overlay)
    ensures MergeNodes(MergeNodes(base, overlay), overlay) == MergeNodes(base, overlay)
    decreases overlay
  {
    if base.kind != Mapping || overlay.kind != Mapping {
      MergeWithItself(overlay);
    } else {
      var content := MergePairs(base.content, overlay.content);
      EveryKeyHasAChild(overlay.content);
      forall key | key in Keys(overlay.content)
        ensures Child(content, key).Some?
        ensures MergeNodes(Child(content, key).value, Child(overlay.content, key).value) == Child(content, key).value
      {
        MergedChild(base.content, overlay.content, key);
        ChildIsWellFormed(overlay, key);
        var i := KeyIndex(overlay.content, key);
        var o := overlay.content[i + 1];
        assert o in overlay.content;
        if Child(base.content, key).Some? {
          ChildIsWellFormed(base, key);
          MergeTwice(Child(base.content, key).value, o);
        } else {
          MergeWithItself(o);
        }
      }
      Absorbed(content, overlay.content);
    }
  }
}
