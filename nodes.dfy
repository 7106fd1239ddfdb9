/**
 * The canvas nodes the application keeps in its `nodes` state: the paste node,
 * the adaptive info node and one content node per captured value.
 */
module Nodes {
  import opened Wrappers

  datatype NodeType = PasteNode | AdaptiveInfoNode | ContentNode

  datatype Position = Position(x: int, y: int)

  /** A content node carries the value's MIME type, the value and the time of
      the projection; the other nodes carry no data. */
  datatype NodeData = NoData | ContentData(mimeType: string, content: string, timestamp: string)

  datatype Node = Node(id: string, nodeType: NodeType, position: Position, data: NodeData)

  /** `nodes.find((node) => node.type === t)`. */
  function Find(nodes: seq<Node>, t: NodeType): (r: Option<Node>)
    ensures r.Some? ==> r.value in nodes && r.value.nodeType == t
    ensures r.None? <==> forall n :: n in nodes ==> n.nodeType != t
    ensures |nodes| > 0 && nodes[0].nodeType == t ==> r == Some(nodes[0])
    decreases |nodes|
  {
    if nodes == [] then None
    else if nodes[0].nodeType == t then Some(nodes[0])
    else Find(nodes[1..], t)
  }

  /** `find` returns the first node of the asked type: when `nodes[i]` has
      type `t` and no earlier node does, the result is `nodes[i]`. */
  lemma {:induction false} FindIsFirst(nodes: seq<Node>, t: NodeType, i: nat)
    requires i < |nodes| && nodes[i].nodeType == t
    requires forall j :: 0 <= j < i ==> nodes[j].nodeType != t
    ensures Find(nodes, t) == Some(nodes[i])
    decreases i
  {
    if i > 0 {
      FindIsFirst(nodes[1..], t, i - 1);
    }
  }

  /** `nodes.filter((node) => node.type === "contentNode")`. */
  function ContentNodes(nodes: seq<Node>): (cs: seq<Node>)
    ensures |cs| <= |nodes|
    ensures forall n :: n in cs ==> n in nodes && n.nodeType == ContentNode
    decreases |nodes|
  {
    if nodes == [] then []
    else if nodes[0].nodeType == ContentNode then [nodes[0]] + ContentNodes(nodes[1..])
    else ContentNodes(nodes[1..])
  }

  /** Filtering distributes over concatenation. */
  lemma {:induction false} ContentNodesAppend(a: seq<Node>, b: seq<Node>)
    ensures ContentNodes(a + b) == ContentNodes(a) + ContentNodes(b)
    decreases |a|
  {
    if a != [] {
      assert (a + b)[1..] == a[1..] + b;
      ContentNodesAppend(a[1..], b);
    } else {
      assert a + b == b;
    }
  }

  /** A list of content nodes filters to itself. */
  lemma {:induction false} ContentNodesOfContent(s: seq<Node>)
    requires forall k :: 0 <= k < |s| ==> s[k].nodeType == ContentNode
    ensures ContentNodes(s) == s
    decreases |s|
  {
    if s != [] {
      ContentNodesOfContent(s[1..]);
      assert [s[0]] + s[1..] == s;
    }
  }

  /** A list without content nodes filters to nothing. */
  lemma {:induction false} ContentNodesOfOthers(s: seq<Node>)
    requires forall k :: 0 <= k < |s| ==> s[k].nodeType != ContentNode
    ensures ContentNodes(s) == []
    decreases |s|
  {
    if s != [] {
      ContentNodesOfOthers(s[1..]);
    }
  }

  /** The nodes the second mount effect installs: the paste node with id "1" at
      (50, 250) and the initial adaptive info node at (500, 250). */
  const InitialNodes: seq<Node> := [
    Node("1", PasteNode, Position(50, 250), NoData),
    Node("adaptive-initial", AdaptiveInfoNode, Position(500, 250), NoData)
  ]
}
