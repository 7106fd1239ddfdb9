# Clipboard viewer — a verified model of its capture, projection and navigation logic

The clipboard viewer is a browser application. It captures what the user pastes
or drops, groups the captured values by MIME type, and shows each value as a
node on a canvas. This project models, in Dafny, the sequential logic beneath
its React markup:

- **Clipboard normalisers** (`clipboard.dfy`, on top of `js_map.dfy`). There
  are four capture paths: drag-and-drop, the window's `paste` listener
  ("Global Paste"), the paste node's own input ("Direct Paste") and its
  Clipboard-API button. Each one walks a list of items and builds a JavaScript
  `Map<string, string[]>`. The model writes that map as a sequence of
  `(type, values)` entries with distinct keys, kept in insertion order. Each
  path is one loop over the items, proved equal to a fold (`Build`) of per-item
  contributions. The lemmas about that fold say:
  - which keys exist, and in which order (first occurrence);
  - which values each key holds, in arrival order;
  - how many values there are in all.
- **Selection store** (`store.dfy`). A class with the four store fields.
  Each setter overwrites exactly one field.
- **Node projector** (`nodes.dfy`, `projector.dfy`). The effect that rebuilds
  the node list whenever the map changes, written with its own loops and
  counters. It is proved equal to the specification function `Projection`.
  The lemmas about `Projection` cover the node count, the order, the ids, the
  positions and the active node.
- **Navigator** (`navigator.dfy`). Previous, next and focus over the content
  nodes, with wraparound, as pure index arithmetic.
- **Content-node helpers** (`content_node.dfy`):
  - the nine-way MIME classifier;
  - the download file extension;
  - the playable-source test;
  - the truncated raw preview;
  - the download choice.
- **Components** (`app.dfy`, `paste_node.dfy`). The application and the paste
  node are classes. Their handlers commit into the store under each path's own
  rule:
  - drag-and-drop always commits;
  - the two paste paths commit only a non-empty map;
  - the Clipboard API commits unconditionally, unless a read rejects.

`URL.createObjectURL` is modelled as `"blob:"` followed by the blob's identity.
`Date.now()` and `toLocaleTimeString()` become parameters (`now`,
`timestamp`). A paste event's `clipboardData` is its list of items together
with its `getData` lookup, a function from a type to the text stored under it.
The awaited `file.text()` of a dropped file is a field of the file and always
resolves. On the Clipboard-API path, `getType` and `blob.text()` are fields of
the read items, and `None` stands for a rejected promise. Focusing the canvas
(`fitView`) is recorded as the node returned by the navigation handlers.

Behaviours of the source worth knowing, all modelled as written:

- Direct Paste commits only when its map has a key, just like Global Paste
  (paste-node.tsx:102).
- A Clipboard-API read that resolves with zero items still commits, and the
  map it commits is empty (paste-node.tsx:51-52, `ApiEmptyReadCommitsEmptyMap`).
- Navigation moves only among content nodes (App.tsx:39). The paste node and
  the info node are never targets.
- A pasted file item whose `getAsFile()` returns `null` creates its key and
  pushes nothing (App.tsx:239-242).
- A rejected `getType` or `blob.text()` aborts the whole Clipboard-API
  capture: the `catch` at paste-node.tsx:53-54 skips the commit.

## Model

| member | source | states |
|---|---|---|
| `JsMap.SetIfAbsentGet` | src/App.tsx:121-123 | `set(key, [])` on a missing key makes it hold the empty list and changes no other lookup |
| `JsMap.PushGet` | src/App.tsx:133 | `get(key)!.push(v)` appends `v` to that key's list and leaves every other key's list unchanged |
| `JsMap.PushKeys` | src/App.tsx:137 | pushing keeps the keys and their insertion order |
| `Clipboard.BuildGet` | src/App.tsx:118-139 | after the loop, a key is present iff some item touched it, and it then holds exactly the values pushed under it, in item order |
| `Clipboard.BuildKeyOrder` | src/App.tsx:121-123 | the map's keys are ordered by the first item that touched each one |
| `Clipboard.BuildDistinct` | src/App.tsx:121-123 | every key occurs once |
| `Clipboard.BuildTotal` | src/App.tsx:133-137 | the map holds one value per item that pushed one |
| `Clipboard.BuildEmpty` | src/App.tsx:267 | the map is empty iff there were no items |
| `Clipboard.CreateObjectUrl` | src/App.tsx:132 | an object URL always has the `blob:` scheme |
| `Clipboard.FileInfo` | src/App.tsx:255 | the placeholder starts `File: ` followed by the file's name, or `clipboard` when it has none, and ends ` bytes)` |
| `Clipboard.NormaliseDrop` | src/App.tsx:116-139 | the drop loop builds exactly the fold of the files' contributions |
| `Clipboard.DropItem` | src/App.tsx:119-138 | one loop pass: the key is the file type or `application/octet-stream`; a media file pushes its object URL and any other file its text |
| `Clipboard.OctetStreamIsNotMedia` | src/App.tsx:119 | the default type for a file with no type is not a media type |
| `Clipboard.DropMapShape` | src/App.tsx:116-139 | a drop yields distinct keys and exactly one value per file |
| `Clipboard.DropKeepsEveryFile` | src/App.tsx:119-123 | every dropped file's type, or `application/octet-stream` when it has none, is a key |
| `Clipboard.DropMediaAreObjectUrls` | src/App.tsx:125-133 | every value under a media key of a drop is a `blob:` URL |
| `Clipboard.NormaliseGlobalPaste` | src/App.tsx:232-265 | the listener's loop builds exactly the fold of the items' contributions |
| `Clipboard.GlobalPasteItem` | src/App.tsx:235-264 | one loop pass: create the key; push the object URL, the `File: <name or clipboard> (<size> bytes)` placeholder or the non-empty `getData(type)` |
| `Clipboard.GlobalPasteMapShape` | src/App.tsx:232-267 | distinct keys, and the map has a key iff there was an item |
| `Clipboard.NormaliseDirectPaste` | src/components/react-flow/nodes/paste-node.tsx:62-100 | the input's loop builds exactly the fold of the items' contributions, as it stands at commit time |
| `Clipboard.DirectPasteItem` | src/components/react-flow/nodes/paste-node.tsx:65-99 | one loop pass: create the key; push a media file's object URL or non-empty text; a non-media file only starts its `FileReader` |
| `Clipboard.DirectPasteMapShape` | src/components/react-flow/nodes/paste-node.tsx:62-102 | distinct keys, and the map has a key iff there was an item |
| `Clipboard.PasteKeysEveryItem` | src/components/react-flow/nodes/paste-node.tsx:65-67 | on both paste paths every item's type becomes a key, even when the item pushes nothing |
| `Clipboard.PasteNeverStoresEmptyString` | src/App.tsx:260-263 | neither paste path ever stores an empty string |
| `Clipboard.TwoTextItems` | src/App.tsx:258-263 | two string items of one type both read `getData(type)`, so a non-empty text is stored twice under the one key |
| `Clipboard.TwoTypes` | src/App.tsx:234-264 | two string items of different types with non-empty text give two keys, in item order, with one value each |
| `Clipboard.SingleNonMediaFile` | src/components/react-flow/nodes/paste-node.tsx:81-91 | a non-media file gets the placeholder on the global path; on the direct path it has only its (empty) key at commit time |
| `Clipboard.ReadClipboardItems` | src/components/react-flow/nodes/paste-node.tsx:25-50 | the `try` block yields the fold over every type of every item, or `None` when the read, a `getType` or a `blob.text()` rejects |
| `Clipboard.ReadItemTypes` | src/components/react-flow/nodes/paste-node.tsx:29-49 | the inner loop continues the fold over one item's types, or fails when one of its reads rejects |
| `Clipboard.ReadRepresentation` | src/components/react-flow/nodes/paste-node.tsx:30-48 | one type: create the key, then push the object URL (media) or the awaited text |
| `Clipboard.ApiOneValuePerType` | src/components/react-flow/nodes/paste-node.tsx:28-50 | when every read resolves, the capture succeeds with exactly one value per type of each item |
| `Clipboard.ApiEmptyReadCommitsEmptyMap` | src/components/react-flow/nodes/paste-node.tsx:51 | a read with no items still yields a map to commit: the empty one |
| `Store.ClipboardDataMapStore.constructor` | src/store/clipboard-data-map-store.ts:15-18 | initial state: empty map, not dragging over, empty label, no active node |
| `Store.ClipboardDataMapStore.SetDataMap` | src/store/clipboard-data-map-store.ts:19 | replaces the whole map; other fields unchanged |
| `Store.ClipboardDataMapStore.SetIsDragOver` | src/store/clipboard-data-map-store.ts:20 | changes only the drag flag |
| `Store.ClipboardDataMapStore.SetLastPastedType` | src/store/clipboard-data-map-store.ts:21 | changes only the label |
| `Store.ClipboardDataMapStore.SetActiveNodeId` | src/store/clipboard-data-map-store.ts:22 | changes only the active id, which may be `null` |
| `Nodes.Find` | src/App.tsx:283-286 | `find` returns a node of the asked type from the list, and none exactly when no node has that type |
| `Nodes.FindIsFirst` | src/App.tsx:283-286 | `find` returns the first node of the asked type: the one at the first index holding that type |
| `Nodes.ContentNodes` | src/App.tsx:39 | the filter keeps only content nodes of the list |
| `Projector.FlattenLength` | src/App.tsx:305-306 | the map has as many (type, value) pairs as values |
| `Projector.FlattenAt` | src/App.tsx:305-306 | value `j` of entry `i` is pair number (values of earlier entries) + `j`: entry order, then value order |
| `Projector.ProjectNodes` | src/App.tsx:276-339 | the effect yields exactly `Projection(...)`, and the active id is the first content node's id, or `null` when there is none |
| `Projector.KeepNodes` | src/App.tsx:279-301 | the paste and info nodes are kept; a missing info node is created (its id is `adaptive-` and the time) and the id counter then skips 2, so content ids start at 3 |
| `Projector.PushEntryNodes` | src/App.tsx:306-323 | one entry's values become consecutive nodes with ids and rows counted up from the current counters |
| `Projector.EntryStep` | src/App.tsx:305-324 | pushing an entry's nodes extends the projection by exactly that entry's pairs |
| `Projector.ProjectionContent` | src/App.tsx:327 | the content nodes of the result are exactly the created ones |
| `Projector.ProjectionShape` | src/App.tsx:287-327 | the result is the kept nodes unchanged, an info node if one was created, then one content node per value; the paste node is kept and an info node always exists |
| `Projector.ProjectionContentAt` | src/App.tsx:304-321 | content node `k` (from 0) shows pair `k`, has the decimal id first + `k` (first is 2, or 3 after creating an info node) and sits at x = 500, y = 250 + (k+1)·420 |
| `Projector.ContentIdsDistinct` | src/App.tsx:310 | content ids are pairwise distinct |
| `Projector.EmptyProjection` | src/App.tsx:327-339 | an empty map leaves only the paste and info nodes |
| `Projector.ProjectionFromInitial` | src/App.tsx:346-361 | from the mounted nodes, N values give N + 2 nodes, the first two unchanged, content ids from "2" |
| `Navigator.FindIndex` | src/App.tsx:45-47 | `findIndex` gives the first node with the active id, or -1 exactly when none has it (always for `null`) |
| `Navigator.IndexArithmetic` | src/App.tsx:50-55 | next is (i+1) mod len and previous is (i-1+len) mod len; an index not found gives 0 for both |
| `Navigator.NextPrevInverse` | src/App.tsx:74-81 | next and previous undo each other |
| `Navigator.NavigateTargetsContent` | src/App.tsx:43-64 | with no content nodes both handlers do nothing; otherwise the target is a content node |
| `Navigator.NavigateFromNowhere` | src/App.tsx:76-78 | an active id naming no content node sends both directions to the first content node |
| `Navigator.NavigateWraps` | src/App.tsx:80 | with distinct ids, down from the last node reaches the first and up from the first reaches the last; otherwise each moves one step |
| `Navigator.FocusOnlyActiveContent` | src/App.tsx:95-101 | focus happens iff the active id names a content node, and then it focuses that node |
| `Navigator.SingleNodeStays` | src/App.tsx:386-387 | with one content node the buttons are disabled and both directions stay on it |
| `App.App.constructor` | src/App.tsx:346-362 | mounted on the store's initial, empty map, the nodes are the paste node and the initial info node, and no node is active |
| `App.App.ProcessClipboardData` | src/App.tsx:105-111 | commits the map and the label; the drag flag and the active id are unchanged |
| `App.App.HandleFileDrop` | src/App.tsx:114-144 | always commits the drop map, labelled "Drag & Drop" |
| `App.App.HandleDrop` | src/App.tsx:205-216 | clears the drag flag; commits only a non-empty file list |
| `App.App.OnGlobalPaste` | src/App.tsx:220-270 | commits, labelled "Global Paste", iff the target is not a text field, there is clipboard data and it has an item; otherwise the store is untouched |
| `App.App.OnDataMapChanged` | src/App.tsx:276-344 | the nodes become the projection of the store's map, and the active id becomes the first content node's id, or `null` when there is none |
| `App.App.HandleNavigateUp` | src/App.tsx:42-66 | activates and focuses the previous content node, wrapping around; changes nothing when there are no content nodes |
| `App.App.HandleNavigateDown` | src/App.tsx:68-92 | activates and focuses the next content node, wrapping around; changes nothing when there are no content nodes |
| `App.App.HandleFocusActive` | src/App.tsx:94-102 | changes no state; focuses exactly the content node with the active id, if there is one |
| `App.App.CanNavigateUpDown` | src/App.tsx:386-387 | the buttons are enabled iff there is more than one content node |
| `App.MediaPredicateMatchesKind` | src/components/react-flow/nodes/paste-node.tsx:35-39 | the media predicate, shared by all paths, holds iff the type is classified image, video, audio or pdf |
| `App.DroppedMediaIsEmbedded` | src/components/react-flow/nodes/content-node.tsx:89-102 | a dropped media value is embedded in its preview and downloaded through its own URL, without a new tab |
| `App.PastePlainAndHtml` | src/App.tsx:234-324 | a paste with a `text/plain` and a `text/html` item gives one key per type, projected as content nodes "2" and "3" in that order |
| `PasteNode.PasteNode.constructor` | src/components/react-flow/nodes/paste-node.tsx:18 | the loading flag starts false |
| `PasteNode.PasteNode.OnClickClipboardApiButton` | src/components/react-flow/nodes/paste-node.tsx:22-58 | commits the map, labelled "Clipboard API", whenever every read resolves (even an empty map); commits nothing when a read rejects; the loading flag ends false |
| `PasteNode.PasteNode.OnPaste` | src/components/react-flow/nodes/paste-node.tsx:60-106 | commits, labelled "Direct Paste", iff there was an item; otherwise the store is untouched |
| `ContentNode.GetPrimaryType` | src/components/react-flow/nodes/content-node.tsx:46-62 | for each kind, the condition under which it is returned, stated independently of the order of the checks |
| `ContentNode.PrefixesDisjoint` | src/components/react-flow/nodes/content-node.tsx:47-59 | the media prefixes exclude each other and every exactly-tested type |
| `ContentNode.SvgIsImage` | src/components/react-flow/nodes/content-node.tsx:48 | `image/svg+xml` is an image, not xml |
| `ContentNode.OtherTextIsUnknown` | src/components/react-flow/nodes/content-node.tsx:59-61 | every `text/*` type other than plain, html and xml is unknown |
| `ContentNode.FileExtension` | src/components/react-flow/nodes/content-node.tsx:343-403 | the extension never contains `/`, whatever the type |
| `ContentNode.ListedExtension` | src/components/react-flow/nodes/content-node.tsx:344-377 | a listed type gets its non-empty table value |
| `ContentNode.VideoExtension` | src/components/react-flow/nodes/content-node.tsx:386-388 | an unlisted `video/<sub>` gives `<sub>` without a leading `x-` |
| `ContentNode.AudioExtension` | src/components/react-flow/nodes/content-node.tsx:391-393 | an unlisted `audio/<sub>` gives `<sub>` without a leading `x-`, with an exact `mpeg` renamed `mp3` |
| `ContentNode.ImageExtension` | src/components/react-flow/nodes/content-node.tsx:396-398 | an unlisted `image/<sub>` gives `<sub>` without a leading `x-`, with its first `jpeg` renamed `jpg` |
| `ContentNode.FallbackExtension` | src/components/react-flow/nodes/content-node.tsx:380-402 | an unlisted type with a `/`-count other than one, or with another category, gives `txt` |
| `ContentNode.IconExtension` | src/components/react-flow/nodes/content-node.tsx:396-398 | `image/x-icon` gives `icon` |
| `ContentNode.RawPreview` | src/components/react-flow/nodes/content-node.tsx:273-275 | a value of at most 1000 characters is shown whole; a longer one shows its first 1000 characters followed by the "more characters" note |
| `ContentNode.RawPreviewAccountsForEveryCharacter` | src/components/react-flow/nodes/content-node.tsx:273-275 | the count in the note, read back, plus the 1000 shown characters is the value's length |
| `ContentNode.PreviewOf` | src/components/react-flow/nodes/content-node.tsx:86-279 | a media value is embedded iff it starts with `data:`, `blob:` or `http`; the raw preview is used iff the kind is unknown and the type is not `text/*`, and it then shows `RawPreview` of the value |
| `ContentNode.DownloadFileName` | src/components/react-flow/nodes/content-node.tsx:287 | the name starts `clipboard-`, ends with `.` and the extension, and contains no `/` |
| `ContentNode.DownloadOf` | src/components/react-flow/nodes/content-node.tsx:285-341 | a direct link is used iff the kind is media and the value is playable, i.e. iff its preview embeds it; it links the value itself, and only a value that is neither `blob:` nor `data:` opens a new tab; otherwise a text blob of the value, typed with the MIME type, is downloaded; both use `DownloadFileName` |
| `Strings.NatToString` | src/App.tsx:310 | `${n}`: a non-empty string of decimal digits, with no leading zero unless it is `0` |
| `Strings.NatToStringRoundTrip` | src/App.tsx:310 | the decimal numeral of an id counter reads back as that number |
| `Strings.SplitJoin` | src/components/react-flow/nodes/content-node.tsx:381 | `split` parts contain no separator and join back to the input |
| `Strings.SplitCount` | src/components/react-flow/nodes/content-node.tsx:382 | `split` yields one more part than there are separators |
| `Strings.ReplaceFirstAt` | src/components/react-flow/nodes/content-node.tsx:397 | the non-global regex replace rewrites exactly the first occurrence |

## Left out

- DOM rendering and styling are not modelled: the JSX of every component, the icons (`getIcon`) and the active-node highlight of a content node.
- The advertisement nodes, the info node, the app header and the formatter configuration are not part of this model. The header's reset is two store-setter calls.
- The drag-hover heuristics (`dragenter`, `dragover`, `dragleave`, the document `mouseleave`/`relatedTarget`/`clientX` checks) are DOM event plumbing and are not modelled. `handleDrop` is modelled.
- The text-field check on the paste target is modelled only as the boolean `targetIsTextField`.
- `fitView`, its settle delay and `setTimeout` are not modelled; focus is recorded as a returned node. React's stale closures and effect-dependency scheduling are not modelled either: each handler reads the current state.
- `App.App.constructor` models the state after both mount effects have run on the store's initial, empty map. It does not model their interleaving.
- The `FileReader` append of a direct paste runs after the commit and mutates the committed map. It is not modelled: only the state at commit time is.
- Asynchrony is not modelled. Awaited reads are inputs, and two captures cannot interleave.
- `Clipboard.DropItem`, `Clipboard.NormaliseDrop` and `App.App.HandleFileDrop` take every dropped file's `file.text()` as resolved. A rejected read would end `handleFileDrop` before its commit, so nothing would be committed. The model does not capture that case: a drop always commits.
- `Clipboard.CreateObjectUrl` makes the URL a fixed function of the blob, `blob:` followed by its identity. Each real call returns a fresh URL, so two calls on one blob give different URLs. Only the `blob:` prefix is relied on. Object-URL lifetime is not modelled either, including the `revokeObjectURL` after a text download.
- `ContentNode.RawPreview` and `ContentNode.RawPreviewAccountsForEveryCharacter` count a value's length in Unicode scalar values, the elements of a Dafny string. The source's `length` and `slice` count UTF-16 code units. Text outside the Basic Multilingual Plane is therefore cut at a different point, and the announced count differs. For example, 501 emoji are 1002 code units, which the source cuts, but only 501 scalar values, which the model shows whole.
- `ContentNode.PreviewOf` records a non-playable media value's length in the same unit, Unicode scalar values rather than UTF-16 code units.
- JSON pretty-printing (`JSON.parse`/`stringify`) is not modelled. The preview only records that the JSON view is chosen.
- The copy button (`navigator.clipboard.writeText`) is not modelled, because it is a foreign call with no logic of its own.
- The anchor-clicking of a download and its `try`/`catch` around blob links are not modelled. What is modelled is the decision: file name, direct link or text blob, and new tab.
- JavaScript prototype keys of the `extensions` record (a type named `constructor`, for instance) are not modelled. The table is a finite map.
- `Date.now()` and `toLocaleTimeString()` are parameters, so their values are not modelled.
