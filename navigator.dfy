/**
 * Navigation over the content nodes: previous and next with wraparound, and
 * focus on the active node.  The navigable list is the `contentNodes` filter of
 * the node list, so the paste and info nodes are never targets.
 */
module Navigator {
  import opened Wrappers
  import opened Nodes

  /** `contentNodes.findIndex((node) => node.id === activeNodeId)`; `-1` when no
      node has that id, and always when the active id is `null`. */
  function FindIndex(cs: seq<Node>, activeNodeId: Option<string>): (i: int)
    ensures -1 <= i < |cs|
    ensures i >= 0 ==> activeNodeId == Some(cs[i].id)
    ensures i >= 0 ==> forall k :: 0 <= k < i ==> activeNodeId != Some(cs[k].id)
    ensures i == -1 <==> forall k :: 0 <= k < |cs| ==> activeNodeId != Some(cs[k].id)
    decreases |cs|
  {
    if cs == [] then -1
    else if activeNodeId == Some(cs[0].id) then 0
    else
      var r := FindIndex(cs[1..], activeNodeId);
      if r == -1 then -1 else r + 1
  }

  /** The index `handleNavigateUp` moves to. */
  function PrevIndex(len: nat, currentIndex: int): nat
    requires 0 < len && -1 <= currentIndex < len
  {
    if currentIndex == -1 then 0
    else if currentIndex > 0 then currentIndex - 1
    else len - 1
  }

  /** The index `handleNavigateDown` moves to. */
  function NextIndex(len: nat, currentIndex: int): nat
    requires 0 < len && -1 <= currentIndex < len
  {
    if currentIndex == -1 then 0
    else if currentIndex < len - 1 then currentIndex + 1
    else 0
  }

  /** From a found index, next and previous are one step forward or backward
      modulo the length; from no index, both start at the first node. */
  lemma IndexArithmetic(len: nat, currentIndex: int)
    requires 0 < len && -1 <= currentIndex < len
    ensures NextIndex(len, currentIndex) < len && PrevIndex(len, currentIndex) < len
    ensures currentIndex == -1 ==> NextIndex(len, currentIndex) == 0 && PrevIndex(len, currentIndex) == 0
    ensures currentIndex >= 0 ==> NextIndex(len, currentIndex) == (currentIndex + 1) % len
    ensures currentIndex >= 0 ==> PrevIndex(len, currentIndex) == (currentIndex - 1 + len) % len
  {
    if currentIndex >= 0 && currentIndex < len - 1 {
      assert (currentIndex + 1) % len == currentIndex + 1;
    }
    if currentIndex > 0 {
      assert (currentIndex - 1 + len) % len == currentIndex - 1 by {
        assert 0 <= currentIndex - 1 < len;
        assert (currentIndex - 1 + len) == (currentIndex - 1) + 1 * len;
      }
    }
  }

  /** Next and previous undo each other on every found index. */
  lemma NextPrevInverse(len: nat, i: nat)
    requires i < len
    ensures PrevIndex(len, NextIndex(len, i)) == i
    ensures NextIndex(len, PrevIndex(len, i)) == i
  {
  }

  /** The node `handleNavigateUp` activates and focuses; `None` when there are no
      content nodes and the handler returns early. */
  function NavigateUpTarget(nodes: seq<Node>, activeNodeId: Option<string>): Option<Node> {
    var cs := ContentNodes(nodes);
    if |cs| == 0 then None else Some(cs[PrevIndex(|cs|, FindIndex(cs, activeNodeId))])
  }

  /** The node `handleNavigateDown` activates and focuses. */
  function NavigateDownTarget(nodes: seq<Node>, activeNodeId: Option<string>): Option<Node> {
    var cs := ContentNodes(nodes);
    if |cs| == 0 then None else Some(cs[NextIndex(|cs|, FindIndex(cs, activeNodeId))])
  }

  /** `contentNodes.find((node) => node.id === activeNodeId)`: the node
      `handleFocusActive` focuses. */
  function FocusTarget(nodes: seq<Node>, activeNodeId: Option<string>): Option<Node> {
    var cs := ContentNodes(nodes);
    var i := FindIndex(cs, activeNodeId);
    if i == -1 then None else Some(cs[i])
  }

  /** `contentNodes.length > 1`: whether the up and down buttons are enabled. */
  function CanNavigate(nodes: seq<Node>): bool {
    |ContentNodes(nodes)| > 1
  }

  /** Navigation is a no-op exactly when there are no content nodes; otherwise
      its target is a content node, never the paste or info node. */
  lemma NavigateTargetsContent(nodes: seq<Node>, activeNodeId: Option<string>)
    ensures NavigateUpTarget(nodes, activeNodeId).None? <==> ContentNodes(nodes) == []
    ensures NavigateDownTarget(nodes, activeNodeId).None? <==> ContentNodes(nodes) == []
    ensures NavigateUpTarget(nodes, activeNodeId).Some? ==>
      NavigateUpTarget(nodes, activeNodeId).value in ContentNodes(nodes)
      && NavigateUpTarget(nodes, activeNodeId).value.nodeType == ContentNode
    ensures NavigateDownTarget(nodes, activeNodeId).Some? ==>
      NavigateDownTarget(nodes, activeNodeId).value in ContentNodes(nodes)
      && NavigateDownTarget(nodes, activeNodeId).value.nodeType == ContentNode
  {
  }

  /** An active id that names no content node (or `null`) sends both directions
      to the first content node. */
  lemma NavigateFromNowhere(nodes: seq<Node>, activeNodeId: Option<string>)
    requires ContentNodes(nodes) != []
    requires forall n :: n in ContentNodes(nodes) ==> activeNodeId != Some(n.id)
    ensures NavigateUpTarget(nodes, activeNodeId) == Some(ContentNodes(nodes)[0])
    ensures NavigateDownTarget(nodes, activeNodeId) == Some(ContentNodes(nodes)[0])
  {
    var cs := ContentNodes(nodes);
    assert forall k :: 0 <= k < |cs| ==> cs[k] in cs;
  }

  /** Down from the `i`-th content node goes to the next one, wrapping from the
      last to the first; up goes to the previous one, wrapping from the first to
      the last.  (Ids are distinct, as every projection makes them.) */
  lemma NavigateWraps(nodes: seq<Node>, i: nat)
    requires i < |ContentNodes(nodes)|
    requires forall a, b :: 0 <= a < b < |ContentNodes(nodes)| ==> ContentNodes(nodes)[a].id != ContentNodes(nodes)[b].id
    ensures var cs := ContentNodes(nodes);
      NavigateDownTarget(nodes, Some(cs[i].id)) == Some(cs[if i == |cs| - 1 then 0 else i + 1])
    ensures var cs := ContentNodes(nodes);
      NavigateUpTarget(nodes, Some(cs[i].id)) == Some(cs[if i == 0 then |cs| - 1 else i - 1])
  {
    FindIndexOfDistinct(ContentNodes(nodes), i);
  }

  /** In a list of distinct ids, an id is found at its own index. */
  lemma FindIndexOfDistinct(cs: seq<Node>, i: nat)
    requires i < |cs|
    requires forall a, b :: 0 <= a < b < |cs| ==> cs[a].id != cs[b].id
    ensures FindIndex(cs, Some(cs[i].id)) == i
  {
    var r := FindIndex(cs, Some(cs[i].id));
    assert r != -1 && !(r > i);
    assert cs[r].id == cs[i].id;
  }

  /** Focusing happens exactly when the active id names a content node, and
      then on that node. */
  lemma FocusOnlyActiveContent(nodes: seq<Node>, activeNodeId: Option<string>)
    ensures FocusTarget(nodes, activeNodeId).Some? <==>
      exists n :: n in ContentNodes(nodes) && activeNodeId == Some(n.id)
    ensures FocusTarget(nodes, activeNodeId).Some? ==>
      FocusTarget(nodes, activeNodeId).value in ContentNodes(nodes)
      && activeNodeId == Some(FocusTarget(nodes, activeNodeId).value.id)
  {
    var cs := ContentNodes(nodes);
    if exists n :: n in cs && activeNodeId == Some(n.id) {
      var n :| n in cs && activeNodeId == Some(n.id);
      var k :| 0 <= k < |cs| && cs[k] == n;
      assert FindIndex(cs, activeNodeId) != -1;
    }
  }

  /** With a single content node the buttons are disabled, and both directions
      would stay on that node anyway. */
  lemma SingleNodeStays(nodes: seq<Node>, activeNodeId: Option<string>)
    requires |ContentNodes(nodes)| == 1
    ensures !CanNavigate(nodes)
    ensures NavigateUpTarget(nodes, activeNodeId) == Some(ContentNodes(nodes)[0])
    ensures NavigateDownTarget(nodes, activeNodeId) == Some(ContentNodes(nodes)[0])
  {
  }
}
