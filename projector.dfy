/**
 * The node projection that runs whenever the store's map changes: keep the
 * paste node and the adaptive info node (creating the latter when it is
 * missing), then create one content node per (type, value) pair of the map,
 * in entry order and, within an entry, in value order, with consecutive
 * numeric ids and stacked positions; finally make the first content node the
 * active one, or clear the active id when there is none.
 */
module Projector {
  import opened Wrappers
  import opened Strings
  import opened JsMap
  import opened Nodes

  /** Horizontal anchor of the info node and of every content node. */
  const ColumnX := 500
  /** Vertical anchor shared by the paste node and the info node. */
  const AnchorY := 250
  /** Vertical distance between consecutive content nodes. */
  const Spacing := 420

  /** The (type, value) pairs of one entry, in value order. */
  function EntryPairs(t: string, vs: seq<string>): (ps: seq<(string, string)>)
    ensures |ps| == |vs|
    ensures forall j :: 0 <= j < |vs| ==> ps[j] == (t, vs[j])
  {
    seq(|vs|, j requires 0 <= j < |vs| => (t, vs[j]))
  }

  /** Every (type, value) pair of the map: entries in insertion order, values
      in arrival order. */
  function Flatten(m: Entries): seq<(string, string)>
    decreases |m|
  {
    if m == [] then [] else EntryPairs(m[0].0, m[0].1) + Flatten(m[1..])
  }

  /** There are as many pairs as values in the map. */
  lemma {:induction false} FlattenLength(m: Entries)
    ensures |Flatten(m)| == TotalValues(m)
    decreases |m|
  {
    if m != [] {
      FlattenLength(m[1..]);
    }
  }

  /** The `j`-th value of the `i`-th entry is pair number `TotalValues(m[..i]) + j`:
      all values of earlier entries come first, then this entry's in order. */
  lemma {:induction false} FlattenAt(m: Entries, i: nat, j: nat)
    requires i < |m| && j < |m[i].1|
    ensures TotalValues(m[..i]) + j < |Flatten(m)|
    ensures Flatten(m)[TotalValues(m[..i]) + j] == (m[i].0, m[i].1[j])
    decreases i
  {
    FlattenLength(m);
    TotalValuesPrefix(m, i);
    if i > 0 {
      FlattenAt(m[1..], i - 1, j);
      assert m[1..][..i - 1] == m[..i][1..];
      assert TotalValues(m[..i]) == |m[0].1| + TotalValues(m[1..][..i - 1]);
    }
  }

  /** The values of a prefix of the map are at most those of the whole map. */
  lemma {:induction false} TotalValuesPrefix(m: Entries, i: nat)
    requires i <= |m|
    ensures TotalValues(m[..i]) + |if i < |m| then m[i].1 else []| <= TotalValues(m)
    decreases i
  {
    if i > 0 {
      TotalValuesPrefix(m[1..], i - 1);
      assert m[1..][..i - 1] == m[..i][1..];
      if i < |m| {
        assert m[1..][i - 1] == m[i];
      }
    } else if i < |m| {
      assert m[..i] == [];
    }
  }

  /** Content node number `k` (from 0) of a projection whose first id is `firstId`. */
  function ContentNodeAt(pairs: seq<(string, string)>, firstId: nat, k: nat, timestamp: string): (n: Node)
    requires k < |pairs|
    ensures n.nodeType == ContentNode
  {
    Node(NatToString(firstId + k), ContentNode, Position(ColumnX, AnchorY + (k + 1) * Spacing),
         ContentData(pairs[k].0, pairs[k].1, timestamp))
  }

  /** The info node created when none exists, named after `Date.now()`. */
  function AdaptiveNode(now: nat): Node {
    Node("adaptive-" + NatToString(now), AdaptiveInfoNode, Position(ColumnX, AnchorY), NoData)
  }

  /** The kept paste and info nodes, in that order, when they exist. */
  function KeptNodes(nodes: seq<Node>): seq<Node> {
    (if Find(nodes, PasteNode).Some? then [Find(nodes, PasteNode).value] else [])
    + (if Find(nodes, AdaptiveInfoNode).Some? then [Find(nodes, AdaptiveInfoNode).value] else [])
  }

  /** The id the first content node receives: 2, or 3 when an info node had to
      be created first. */
  function FirstContentId(nodes: seq<Node>): nat {
    if Find(nodes, AdaptiveInfoNode).Some? then 2 else 3
  }

  /** The content nodes a projection creates. */
  function CreatedContent(m: Entries, firstId: nat, timestamp: string): (cs: seq<Node>)
    ensures |cs| == |Flatten(m)|
  {
    var pairs := Flatten(m);
    seq(|pairs|, k requires 0 <= k < |pairs| => ContentNodeAt(pairs, firstId, k, timestamp))
  }

  /** The node list after the projection effect. */
  function Projection(nodes: seq<Node>, m: Entries, timestamp: string, now: nat): seq<Node> {
    KeptNodes(nodes)
    + (if Find(nodes, AdaptiveInfoNode).None? then [AdaptiveNode(now)] else [])
    + CreatedContent(m, FirstContentId(nodes), timestamp)
  }

  /** The content nodes the inner `values.forEach` creates for one entry, the
      first with id `id` at row `index`. */
  function EntryNodes(t: string, vs: seq<string>, id: nat, index: nat, timestamp: string): (ns: seq<Node>)
    ensures |ns| == |vs|
  {
    seq(|vs|, j requires 0 <= j < |vs| =>
      Node(NatToString(id + j), ContentNode, Position(ColumnX, AnchorY + (index + j) * Spacing),
           ContentData(t, vs[j], timestamp)))
  }

  /** The projection effect: rebuild the node list from the map and choose the
      active node.  `timestamp` is `toLocaleTimeString()` and `now` is
      `Date.now()`, both read once when the effect runs. */
  method ProjectNodes(nodes: seq<Node>, dataMap: Entries, timestamp: string, now: nat)
    returns (result: seq<Node>, activeNodeId: Option<string>)
    ensures result == Projection(nodes, dataMap, timestamp, now)
    ensures activeNodeId.None? <==> ContentNodes(result) == []
    ensures activeNodeId.Some? ==> activeNodeId.value == ContentNodes(result)[0].id
  {
    var initialNodes, newNodes, currentNodeId := KeepNodes(nodes, now);
    ghost var prefix := newNodes;
    ghost var firstId := currentNodeId;
    FlattenLength(dataMap);

    var nodeIndex := 1;
    var i := 0;
    while i < |dataMap|
      invariant 0 <= i <= |dataMap|
      invariant currentNodeId == firstId + TotalValues(dataMap[..i])
      invariant nodeIndex == 1 + TotalValues(dataMap[..i])
      invariant Built(newNodes, prefix, dataMap, firstId, TotalValues(dataMap[..i]), timestamp)
    {
      var (t, values) := dataMap[i];
      ghost var before := newNodes;
      newNodes, currentNodeId, nodeIndex := PushEntryNodes(newNodes, t, values, currentNodeId, nodeIndex, timestamp);
      EntryStep(before, prefix, dataMap, i, firstId, timestamp);
      i := i + 1;
    }
    assert dataMap[..i] == dataMap;
    BuiltAll(newNodes, prefix, dataMap, firstId, timestamp);

    result := initialNodes + newNodes;
    ProjectionAssembly(nodes, dataMap, timestamp, now, prefix, firstId, newNodes);

    var firstContentNode := Find(newNodes, ContentNode);
    if firstContentNode.Some? {
      activeNodeId := Some(firstContentNode.value.id);
    } else {
      activeNodeId := None;
    }
  }

  /** The start of the effect: find the paste and info nodes to keep, and create
      an info node (taking id 2 out of the count) when there is none. */
  method KeepNodes(nodes: seq<Node>, now: nat) returns (initialNodes: seq<Node>, newNodes: seq<Node>, currentNodeId: nat)
    ensures initialNodes == KeptNodes(nodes)
    ensures Find(nodes, AdaptiveInfoNode).None? ==> newNodes == [AdaptiveNode(now)] && currentNodeId == 3
    ensures Find(nodes, AdaptiveInfoNode).Some? ==> newNodes == [] && currentNodeId == 2
  {
    newNodes := [];
    currentNodeId := 2;

    var pasteNode := Find(nodes, PasteNode);
    var existingAdaptiveNode := Find(nodes, AdaptiveInfoNode);
    initialNodes := [];
    if pasteNode.Some? {
      initialNodes := initialNodes + [pasteNode.value];
    }
    if existingAdaptiveNode.Some? {
      initialNodes := initialNodes + [existingAdaptiveNode.value];
    }

    if existingAdaptiveNode.None? {
      newNodes := newNodes + [AdaptiveNode(now)];
      currentNodeId := currentNodeId + 1;
    }
  }

  /** The inner `values.forEach`: push one content node per value, advancing the
      id and row counters. */
  method PushEntryNodes(newNodes: seq<Node>, t: string, values: seq<string>, currentNodeId: nat, nodeIndex: nat,
                        timestamp: string)
    returns (nodes': seq<Node>, id': nat, index': nat)
    ensures nodes' == newNodes + EntryNodes(t, values, currentNodeId, nodeIndex, timestamp)
    ensures id' == currentNodeId + |values| && index' == nodeIndex + |values|
  {
    nodes', id', index' := newNodes, currentNodeId, nodeIndex;
    var j := 0;
    while j < |values|
      invariant 0 <= j <= |values|
      invariant id' == currentNodeId + j && index' == nodeIndex + j
      invariant |nodes'| == |newNodes| + j && nodes'[..|newNodes|] == newNodes
      invariant forall k :: 0 <= k < j ==>
        nodes'[|newNodes| + k] == EntryNodes(t, values, currentNodeId, nodeIndex, timestamp)[k]
    {
      var content := values[j];
      var yOffset := index' * Spacing;
      var newNode := Node(NatToString(id'), ContentNode, Position(ColumnX, AnchorY + yOffset),
                          ContentData(t, content, timestamp));
      nodes' := nodes' + [newNode];
      id' := id' + 1;
      index' := index' + 1;
      j := j + 1;
    }
    assert nodes' == newNodes + EntryNodes(t, values, currentNodeId, nodeIndex, timestamp);
  }

  /** `ns` is `prefix` followed by the first `done` content nodes of the projection. */
  predicate Built(ns: seq<Node>, prefix: seq<Node>, m: Entries, firstId: nat, done: nat, timestamp: string) {
    && done <= |Flatten(m)|
    && |ns| == |prefix| + done
    && ns[..|prefix|] == prefix
    && forall k :: 0 <= k < done ==> ns[|prefix| + k] == ContentNodeAt(Flatten(m), firstId, k, timestamp)
  }

  /** Pushing an entry's nodes continues the projection by that entry's pairs. */
  lemma EntryStep(before: seq<Node>, prefix: seq<Node>, m: Entries, i: nat, firstId: nat, timestamp: string)
    requires i < |m|
    requires Built(before, prefix, m, firstId, TotalValues(m[..i]), timestamp)
    ensures var done := TotalValues(m[..i]);
      Built(before + EntryNodes(m[i].0, m[i].1, firstId + done, 1 + done, timestamp),
            prefix, m, firstId, TotalValues(m[..i + 1]), timestamp)
    ensures TotalValues(m[..i + 1]) == TotalValues(m[..i]) + |m[i].1|
  {
    var done := TotalValues(m[..i]);
    assert m[..i + 1] == m[..i] + [m[i]];
    TotalValuesSnoc(m[..i], m[i]);
    TotalValuesPrefix(m, i + 1);
    FlattenLength(m);
    var after := before + EntryNodes(m[i].0, m[i].1, firstId + done, 1 + done, timestamp);
    forall k | done <= k < done + |m[i].1|
      ensures after[|prefix| + k] == ContentNodeAt(Flatten(m), firstId, k, timestamp)
    {
      FlattenAt(m, i, k - done);
    }
  }

  /** Once every entry is pushed, the nodes after `prefix` are the created ones. */
  lemma BuiltAll(ns: seq<Node>, prefix: seq<Node>, m: Entries, firstId: nat, timestamp: string)
    requires Built(ns, prefix, m, firstId, TotalValues(m), timestamp)
    ensures ns == prefix + CreatedContent(m, firstId, timestamp)
  {
    FlattenLength(m);
  }

  /** The kept nodes followed by the pushed ones are the projection. */
  lemma ProjectionAssembly(nodes: seq<Node>, m: Entries, timestamp: string, now: nat,
                           prefix: seq<Node>, firstId: nat, newNodes: seq<Node>)
    requires Find(nodes, AdaptiveInfoNode).None? ==> prefix == [AdaptiveNode(now)] && firstId == 3
    requires Find(nodes, AdaptiveInfoNode).Some? ==> prefix == [] && firstId == 2
    requires newNodes == prefix + CreatedContent(m, firstId, timestamp)
    ensures KeptNodes(nodes) + newNodes == Projection(nodes, m, timestamp, now)
    ensures Find(newNodes, ContentNode).None? <==> ContentNodes(KeptNodes(nodes) + newNodes) == []
    ensures Find(newNodes, ContentNode).Some? ==>
      Find(newNodes, ContentNode).value.id == ContentNodes(KeptNodes(nodes) + newNodes)[0].id
  {
    assert KeptNodes(nodes) + newNodes == Projection(nodes, m, timestamp, now);
    ProjectionContent(nodes, m, timestamp, now);
    NewNodesContent(prefix, CreatedContent(m, firstId, timestamp));
  }

  /** `find` on the created nodes meets the first content node, if any. */
  lemma NewNodesContent(prefix: seq<Node>, created: seq<Node>)
    requires forall k :: 0 <= k < |prefix| ==> prefix[k].nodeType != ContentNode
    requires forall k :: 0 <= k < |created| ==> created[k].nodeType == ContentNode
    ensures Find(prefix + created, ContentNode) == if created == [] then None else Some(created[0])
    decreases |prefix|
  {
    if prefix != [] {
      assert (prefix + created)[1..] == prefix[1..] + created;
      NewNodesContent(prefix[1..], created);
    } else {
      assert prefix + created == created;
    }
  }

  /** The projection's content nodes are exactly the created ones: the kept
      nodes and a fresh info node are never content nodes. */
  lemma ProjectionContent(nodes: seq<Node>, m: Entries, timestamp: string, now: nat)
    ensures ContentNodes(Projection(nodes, m, timestamp, now)) == CreatedContent(m, FirstContentId(nodes), timestamp)
  {
    var kept := KeptNodes(nodes);
    var info: seq<Node> := if Find(nodes, AdaptiveInfoNode).None? then [AdaptiveNode(now)] else [];
    var created := CreatedContent(m, FirstContentId(nodes), timestamp);
    ContentNodesAppend(kept + info, created);
    ContentNodesAppend(kept, info);
    ContentNodesOfOthers(kept);
    ContentNodesOfOthers(info);
    ContentNodesOfContent(created);
  }

  /** The projection is `[paste?, info?, fresh info?, content...]`: the kept nodes
      come first, untouched, and exactly one node per value of the map follows. */
  lemma ProjectionShape(nodes: seq<Node>, m: Entries, timestamp: string, now: nat)
    ensures var r := Projection(nodes, m, timestamp, now);
      && r[..|KeptNodes(nodes)|] == KeptNodes(nodes)
      && |r| == |KeptNodes(nodes)| + (if Find(nodes, AdaptiveInfoNode).None? then 1 else 0) + TotalValues(m)
      && |ContentNodes(r)| == TotalValues(m)
      && Find(r, PasteNode) == Find(nodes, PasteNode)
      && Find(r, AdaptiveInfoNode).Some?
  {
    FlattenLength(m);
    ProjectionContent(nodes, m, timestamp, now);
    var r := Projection(nodes, m, timestamp, now);
    var kept := KeptNodes(nodes);
    assert r[..|kept|] == kept;
    if Find(nodes, PasteNode).Some? {
      assert r[0] == Find(nodes, PasteNode).value;
    } else {
      forall n | n in r
        ensures n.nodeType != PasteNode
      {
        var k :| 0 <= k < |r| && r[k] == n;
        if k >= |r| - |Flatten(m)| {
          assert r[k] == CreatedContent(m, FirstContentId(nodes), timestamp)[k - (|r| - |Flatten(m)|)];
        }
      }
    }
    var infoAt := if Find(nodes, PasteNode).Some? then 1 else 0;
    assert r[infoAt].nodeType == AdaptiveInfoNode;
  }

  /** Content node number `k` (from 0) shows pair number `k` of the map, has the
      decimal id `firstId + k`, where `firstId` is 2, or 3 when an info node was
      created, and sits at x = 500, y = 250 + (k + 1) * 420. */
  lemma ProjectionContentAt(nodes: seq<Node>, m: Entries, timestamp: string, now: nat, k: nat)
    requires k < TotalValues(m)
    ensures var cs := ContentNodes(Projection(nodes, m, timestamp, now));
      && k < |cs|
      && AllDigits(cs[k].id) && DecimalValue(cs[k].id) == FirstContentId(nodes) + k
      && cs[k].position == Position(500, 250 + (k + 1) * 420)
      && cs[k].data == ContentData(Flatten(m)[k].0, Flatten(m)[k].1, timestamp)
  {
    FlattenLength(m);
    ProjectionContent(nodes, m, timestamp, now);
    NatToStringRoundTrip(FirstContentId(nodes) + k);
  }

  /** Content ids are pairwise distinct. */
  lemma ContentIdsDistinct(nodes: seq<Node>, m: Entries, timestamp: string, now: nat, a: nat, b: nat)
    requires a < b < TotalValues(m)
    ensures var cs := ContentNodes(Projection(nodes, m, timestamp, now));
      b < |cs| && cs[a].id != cs[b].id
  {
    var first := FirstContentId(nodes);
    FlattenLength(m);
    ProjectionContent(nodes, m, timestamp, now);
    CreatedIdsDistinct(m, first, timestamp, a, b);
  }

  lemma CreatedIdsDistinct(m: Entries, first: nat, timestamp: string, a: nat, b: nat)
    requires a < b < |Flatten(m)|
    ensures CreatedContent(m, first, timestamp)[a].id != CreatedContent(m, first, timestamp)[b].id
  {
    CreatedIds(m, first, timestamp, a);
    CreatedIds(m, first, timestamp, b);
    NatToStringInjective(first + a, first + b);
  }

  lemma CreatedIds(m: Entries, first: nat, timestamp: string, k: nat)
    requires k < |Flatten(m)|
    ensures CreatedContent(m, first, timestamp)[k].id == NatToString(first + k)
  {
  }

  /** With nothing captured the projection holds only the paste and info nodes. */
  lemma EmptyProjection(nodes: seq<Node>, timestamp: string, now: nat)
    ensures var r := Projection(nodes, [], timestamp, now);
      && ContentNodes(r) == []
      && |r| == |KeptNodes(nodes)| + (if Find(nodes, AdaptiveInfoNode).None? then 1 else 0)
  {
    ProjectionShape(nodes, [], timestamp, now);
  }

  /** From the mounted state, a projection yields `[paste, info, content...]`:
      N + 2 nodes for N captured values, content ids starting at "2". */
  lemma ProjectionFromInitial(m: Entries, timestamp: string, now: nat)
    ensures var r := Projection(InitialNodes, m, timestamp, now);
      && |r| == TotalValues(m) + 2
      && r[..2] == InitialNodes
      && FirstContentId(InitialNodes) == 2
  {
    assert Find(InitialNodes, PasteNode) == Some(InitialNodes[0]);
    assert Find(InitialNodes[1..], AdaptiveInfoNode) == Some(InitialNodes[1]);
    assert Find(InitialNodes, AdaptiveInfoNode) == Some(InitialNodes[1]);
    assert KeptNodes(InitialNodes) == InitialNodes;
    ProjectionShape(InitialNodes, m, timestamp, now);
  }
}
