/**
 * The selection store shared by the whole application: the current clipboard
 * map, the drag-hover flag, the label of the last capture path and the id of
 * the active content node.  Each setter overwrites one field and nothing else.
 */
module Store {
  import opened Wrappers
  import opened JsMap

  class ClipboardDataMapStore {
    var dataMap: Entries
    var isDragOver: bool
    var lastPastedType: string
    var activeNodeId: Option<string>

    /** The state `create` starts from. */
    constructor ()
      ensures dataMap == [] && !isDragOver && lastPastedType == "" && activeNodeId == None
    {
      dataMap := [];
      isDragOver := false;
      lastPastedType := "";
      activeNodeId := None;
    }

    /** The new map replaces the old one wholesale; no entries are merged. */
    method SetDataMap(m: Entries)
      modifies this
      ensures dataMap == m
      ensures isDragOver == old(isDragOver) && lastPastedType == old(lastPastedType)
      ensures activeNodeId == old(activeNodeId)
    {
      dataMap := m;
    }

    method SetIsDragOver(b: bool)
      modifies this
      ensures isDragOver == b
      ensures dataMap == old(dataMap) && lastPastedType == old(lastPastedType)
      ensures activeNodeId == old(activeNodeId)
    {
      isDragOver := b;
    }

    method SetLastPastedType(t: string)
      modifies this
      ensures lastPastedType == t
      ensures dataMap == old(dataMap) && isDragOver == old(isDragOver)
      ensures activeNodeId == old(activeNodeId)
    {
      lastPastedType := t;
    }

    /** Accepts `null` (`None`) as well as an id. */
    method SetActiveNodeId(id: Option<string>)
      modifies this
      ensures activeNodeId == id
      ensures dataMap == old(dataMap) && isDragOver == old(isDragOver)
      ensures lastPastedType == old(lastPastedType)
    {
      activeNodeId := id;
    }
  }
}
