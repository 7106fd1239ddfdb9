/**
 * The paste node: its Clipboard-API button and its own input's `paste`
 * handler, both committing into the shared store, and the button's loading
 * flag.
 */
module PasteNode {
  import opened Wrappers
  import opened JsMap
  import opened Clipboard
  import opened Store

  class PasteNode {
    const store: ClipboardDataMapStore
    var isApiLoading: bool

    constructor (store: ClipboardDataMapStore)
      ensures this.store == store && !isApiLoading
    {
      this.store := store;
      isApiLoading := false;
    }

    /** `onClickClipboardApiButton`.  `read` is what `navigator.clipboard.read()`
        resolves to (`None`: it rejects).  When every awaited read resolves the
        map is committed unconditionally, even when empty, labelled
        "Clipboard API"; when any of them rejects nothing is committed.  The
        loading flag ends cleared either way. */
    method OnClickClipboardApiButton(read: Option<seq<ClipboardItem>>)
      modifies this, store
      ensures !isApiLoading
      ensures ClipboardApiMap(read).Some? ==>
        store.dataMap == ClipboardApiMap(read).value && store.lastPastedType == "Clipboard API"
      ensures ClipboardApiMap(read).None? ==>
        store.dataMap == old(store.dataMap) && store.lastPastedType == old(store.lastPastedType)
      ensures store.isDragOver == old(store.isDragOver) && store.activeNodeId == old(store.activeNodeId)
    {
      isApiLoading := true;
      var clipboardData := ReadClipboardItems(read);
      if clipboardData.Some? {
        store.SetDataMap(clipboardData.value);
        store.SetLastPastedType("Clipboard API");
      }
      isApiLoading := false;
    }

    /** The input's `onPaste`: commits, labelled "Direct Paste", only when the
        map has a key, which happens exactly when there was at least one item;
        otherwise the store is untouched. */
    method OnPaste(clipboardData: DataTransfer)
      modifies store
      ensures var items := clipboardData.items;
        |items| > 0 ==> store.dataMap == DirectPasteMap(items, clipboardData.getData) && store.lastPastedType == "Direct Paste"
      ensures |clipboardData.items| == 0 ==> store.dataMap == old(store.dataMap) && store.lastPastedType == old(store.lastPastedType)
      ensures store.isDragOver == old(store.isDragOver) && store.activeNodeId == old(store.activeNodeId)
    {
      var m := NormaliseDirectPaste(clipboardData.items, clipboardData.getData);
      DirectPasteMapShape(clipboardData.items, clipboardData.getData);
      if |m| > 0 {
        store.SetDataMap(m);
        store.SetLastPastedType("Direct Paste");
      }
    }
  }
}
