/**
 * The application component: its node list, the capture handlers that commit
 * into the store, the projection effect that rebuilds the nodes when the map
 * changes, and the navigation handlers.  Focusing the canvas is recorded as
 * the node handed to `fitView`, the only observable effect kept.
 */
module App {
  import opened Wrappers
  import opened JsMap
  import opened Clipboard
  import opened Store
  import opened Nodes
  import opened Projector
  import opened Navigator
  import opened ContentNode

  class App {
    const store: ClipboardDataMapStore
    var nodes: seq<Node>

    /** The state once both mount effects have run on the store's initial, empty
        map: the projection effect finds no content and clears the active id, and the node list is the paste node and the initial info
        node (the mount effect's `setNodes` is the later of the two). */
    constructor (store: ClipboardDataMapStore)
      requires store.dataMap == []
      modifies store
      ensures this.store == store && nodes == InitialNodes
      ensures store.activeNodeId == None
      ensures store.dataMap == old(store.dataMap) && store.isDragOver == old(store.isDragOver)
      ensures store.lastPastedType == old(store.lastPastedType)
    {
      this.store := store;
      nodes := InitialNodes;
      new;
      store.SetActiveNodeId(None);
    }

    /** Commit a captured map together with the label of its capture path. */
    method ProcessClipboardData(clipboardData: Entries, source: string)
      modifies store
      ensures store.dataMap == clipboardData && store.lastPastedType == source
      ensures store.isDragOver == old(store.isDragOver) && store.activeNodeId == old(store.activeNodeId)
    {
      store.SetDataMap(clipboardData);
      store.SetLastPastedType(source);
    }

    /** `handleFileDrop`: always commits, labelled "Drag & Drop". */
    method HandleFileDrop(files: seq<File>)
      modifies store
      ensures store.dataMap == DropMap(files) && store.lastPastedType == "Drag & Drop"
      ensures store.isDragOver == old(store.isDragOver) && store.activeNodeId == old(store.activeNodeId)
    {
      var clipboardData := NormaliseDrop(files);
      ProcessClipboardData(clipboardData, "Drag & Drop");
    }

    /** `handleDrop`: clear the hover flag, and hand a non-empty file list on. */
    method HandleDrop(files: seq<File>)
      modifies store
      ensures !store.isDragOver && store.activeNodeId == old(store.activeNodeId)
      ensures |files| > 0 ==> store.dataMap == DropMap(files) && store.lastPastedType == "Drag & Drop"
      ensures |files| == 0 ==> store.dataMap == old(store.dataMap) && store.lastPastedType == old(store.lastPastedType)
    {
      store.SetIsDragOver(false);
      if |files| > 0 {
        HandleFileDrop(files);
      }
    }

    /** The window's `paste` listener.  `targetIsTextField` is the check on the
        event target (an input or a textarea handles its own paste), and
        `clipboardData` is `None` when the event carries none.  The map is
        committed, labelled "Global Paste", only when it has a key, which
        happens exactly when there was at least one item. */
    method OnGlobalPaste(targetIsTextField: bool, clipboardData: Option<DataTransfer>)
      modifies store
      ensures var committed := !targetIsTextField && clipboardData.Some? && |clipboardData.value.items| > 0;
        && (committed ==> store.dataMap == GlobalPasteMap(clipboardData.value.items, clipboardData.value.getData)
                          && store.lastPastedType == "Global Paste")
        && (!committed ==> store.dataMap == old(store.dataMap) && store.lastPastedType == old(store.lastPastedType))
      ensures store.isDragOver == old(store.isDragOver) && store.activeNodeId == old(store.activeNodeId)
    {
      if targetIsTextField {
        return;
      }
      if clipboardData.None? {
        return;
      }
      var items, getData := clipboardData.value.items, clipboardData.value.getData;
      var m := NormaliseGlobalPaste(items, getData);
      GlobalPasteMapShape(items, getData);
      if |m| > 0 {
        ProcessClipboardData(m, "Global Paste");
      }
    }

    /** The effect that runs when the store's map changes: replace the node list
        by its projection and make the first content node active (or none). */
    method OnDataMapChanged(timestamp: string, now: nat)
      modifies this, store
      ensures nodes == Projection(old(nodes), store.dataMap, timestamp, now)
      ensures ContentNodes(nodes) == [] ==> store.activeNodeId == None
      ensures ContentNodes(nodes) != [] ==> store.activeNodeId == Some(ContentNodes(nodes)[0].id)
      ensures store.dataMap == old(store.dataMap) && store.isDragOver == old(store.isDragOver)
      ensures store.lastPastedType == old(store.lastPastedType)
    {
      var newNodes, activeNodeId := ProjectNodes(nodes, store.dataMap, timestamp, now);
      nodes := newNodes;
      store.SetActiveNodeId(activeNodeId);
    }

    /** `handleNavigateUp`: returns the node passed to `fitView`, if any. */
    method HandleNavigateUp() returns (focused: Option<Node>)
      modifies store
      ensures focused == NavigateUpTarget(nodes, old(store.activeNodeId))
      ensures focused.Some? ==> store.activeNodeId == Some(focused.value.id)
      ensures focused.None? ==> store.activeNodeId == old(store.activeNodeId)
      ensures store.dataMap == old(store.dataMap) && store.isDragOver == old(store.isDragOver)
      ensures store.lastPastedType == old(store.lastPastedType)
    {
      var contentNodes := ContentNodes(nodes);
      if |contentNodes| == 0 {
        return None;
      }
      var currentIndex := FindIndex(contentNodes, store.activeNodeId);
      var targetNode := contentNodes[PrevIndex(|contentNodes|, currentIndex)];
      store.SetActiveNodeId(Some(targetNode.id));
      focused := Some(targetNode);
    }

    /** `handleNavigateDown`: returns the node passed to `fitView`, if any. */
    method HandleNavigateDown() returns (focused: Option<Node>)
      modifies store
      ensures focused == NavigateDownTarget(nodes, old(store.activeNodeId))
      ensures focused.Some? ==> store.activeNodeId == Some(focused.value.id)
      ensures focused.None? ==> store.activeNodeId == old(store.activeNodeId)
      ensures store.dataMap == old(store.dataMap) && store.isDragOver == old(store.isDragOver)
      ensures store.lastPastedType == old(store.lastPastedType)
    {
      var contentNodes := ContentNodes(nodes);
      if |contentNodes| == 0 {
        return None;
      }
      var currentIndex := FindIndex(contentNodes, store.activeNodeId);
      var targetNode := contentNodes[NextIndex(|contentNodes|, currentIndex)];
      store.SetActiveNodeId(Some(targetNode.id));
      focused := Some(targetNode);
    }

    /** `handleFocusActive`: changes nothing, and focuses the active node only
        when the active id names a content node. */
    method HandleFocusActive() returns (focused: Option<Node>)
      ensures focused.Some? <==> exists n :: n in ContentNodes(nodes) && store.activeNodeId == Some(n.id)
      ensures focused.Some? ==> focused.value in ContentNodes(nodes) && store.activeNodeId == Some(focused.value.id)
    {
      FocusOnlyActiveContent(nodes, store.activeNodeId);
      focused := FocusTarget(nodes, store.activeNodeId);
    }

    /** `canNavigateUp` and `canNavigateDown`. */
    function CanNavigateUpDown(): (enabled: bool)
      reads this
      ensures enabled <==> |ContentNodes(nodes)| > 1
    {
      CanNavigate(nodes)
    }
  }

  /** All capture paths share one media predicate, and it agrees with the
      content node's classification: a type is materialised as an object URL
      exactly when it is classified image, video, audio or pdf. */
  lemma MediaPredicateMatchesKind(t: string)
    ensures IsMedia(t) <==> IsMediaKind(GetPrimaryType(t))
  {
  }

  /** A value dropped under a media type is an object URL, so its node embeds it
      and downloads it through that URL. */
  lemma DroppedMediaIsEmbedded(files: seq<File>, key: string, v: string, now: nat)
    requires IsMedia(key) && Has(DropMap(files), key)
    requires v in Get(DropMap(files), key).value
    ensures PreviewOf(key, v) == Embedded(GetPrimaryType(key))
    ensures DownloadOf(key, v, now).DirectLink? && !DownloadOf(key, v, now).newTab
  {
    DropMediaAreObjectUrls(files, key, v);
  }

  /** Pasting a text with a `text/plain` and a `text/html` item gives one key
      per type, in item order, and projecting it from the mounted state gives
      two content nodes, ids "2" and "3", in that order. */
  lemma PastePlainAndHtml(getData: string -> string, timestamp: string, now: nat)
    requires getData("text/plain") != "" && getData("text/html") != ""
    ensures var plain, html := getData("text/plain"), getData("text/html");
      var m := GlobalPasteMap([StringItem("text/plain"), StringItem("text/html")], getData);
      && m == [("text/plain", [plain]), ("text/html", [html])]
      && var cs := ContentNodes(Projection(InitialNodes, m, timestamp, now));
      && |cs| == 2
      && cs[0].id == "2" && cs[0].data == ContentData("text/plain", plain, timestamp)
      && cs[1].id == "3" && cs[1].data == ContentData("text/html", html, timestamp)
  {
    var plain, html := getData("text/plain"), getData("text/html");
    TwoTypes("text/plain", "text/html", getData);
    var m: Entries := [("text/plain", [plain]), ("text/html", [html])];
    FlattenOneEach(m);
    ProjectionFromInitial(m, timestamp, now);
    ProjectionContent(InitialNodes, m, timestamp, now);
    CreatedTwo(m, timestamp);
  }

  lemma FlattenOneEach(m: Entries)
    requires |m| == 2 && |m[0].1| == 1 && |m[1].1| == 1
    ensures Flatten(m) == [(m[0].0, m[0].1[0]), (m[1].0, m[1].1[0])]
  {
    assert Flatten(m[1..][1..]) == [];
  }

  /** Two captured values from the mounted state become content nodes "2" and "3". */
  lemma CreatedTwo(m: Entries, timestamp: string)
    requires |Flatten(m)| == 2
    ensures var cs := CreatedContent(m, 2, timestamp);
      && cs[0].id == "2" && cs[0].data == ContentData(Flatten(m)[0].0, Flatten(m)[0].1, timestamp)
      && cs[1].id == "3" && cs[1].data == ContentData(Flatten(m)[1].0, Flatten(m)[1].1, timestamp)
  {
    assert Strings.NatToString(2) == "2" && Strings.NatToString(3) == "3";
  }
}
