/**
 * The clipboard normalisers: each capture path (drag-and-drop, the global paste
 * listener, the paste node's input and its Clipboard-API button) walks a list of
 * items and builds a `Map` from MIME type to the list of string values, creating
 * the key on first sight and pushing a value when the item yields one.
 *
 * Every path is modelled as a per-item `Contribution` (the key it touches and
 * the value it pushes, if any) followed by one shared fold, `Build`, that does
 * the `has`/`set`/`push` steps.  The loops in the methods below are proved to
 * compute that fold, and the lemmas characterise it independently: which keys
 * exist, in which order, and which values each key holds.
 */
module Clipboard {
  import opened Wrappers
  import opened Strings
  import opened JsMap

  /** The browser-side identity of a `File` or `Blob`. */
  datatype BlobHandle = BlobHandle(id: string)

  /** `URL.createObjectURL(blob)`; only its `blob:` scheme is modelled. */
  function CreateObjectUrl(b: BlobHandle): (url: string)
    ensures "blob:" <= url
  {
    "blob:" + b.id
  }

  /** A `File`; `text` is what `file.text()` resolves to. */
  datatype File = File(name: string, mimeType: string, size: nat, text: string, handle: BlobHandle)

  /** One entry of `clipboardData.items`: `kind === "file"` (with what `getAsFile()`
      returns) or a string item, whose text the handlers look up by type with
      `clipboardData.getData(type)`. */
  datatype DataTransferItem =
    | FileItem(mimeType: string, file: Option<File>)
    | StringItem(mimeType: string)

  /** A paste event's `clipboardData`: its items and its `getData` lookup. */
  datatype DataTransfer = DataTransfer(items: seq<DataTransferItem>, getData: string -> string)

  /** A blob returned by `ClipboardItem.getType`; `text` is `None` when `blob.text()` rejects. */
  datatype Blob = Blob(handle: BlobHandle, text: Option<string>)

  /** One type of a `ClipboardItem` with the result of `getType(type)` (`None`: it rejects). */
  datatype Representation = Representation(mimeType: string, blob: Option<Blob>)

  datatype ClipboardItem = ClipboardItem(representations: seq<Representation>)

  /** Types materialised as an object URL rather than as text. */
  predicate IsMedia(mimeType: string) {
    || "image/" <= mimeType
    || "video/" <= mimeType
    || "audio/" <= mimeType
    || mimeType == "application/pdf"
  }

  const OctetStream := "application/octet-stream"

  lemma OctetStreamIsNotMedia()
    ensures !IsMedia(OctetStream)
  {
    assert OctetStream[0] == 'a' && OctetStream[11] == '/';
    assert "image/"[0] == 'i' && "video/"[0] == 'v' && "audio/"[0] == 'a' && "audio/"[1] == 'u';
  }

  // ---------------------------------------------------------------------------
  // The shared fold
  // ---------------------------------------------------------------------------

  /** What one item does to the map: make sure `key` exists, then push `value` if any. */
  datatype Contribution = Contribution(key: string, value: Option<string>)

  function Insert(m: Entries, c: Contribution): Entries {
    SetIfAbsentKeys(m, c.key);
    var m1 := SetIfAbsent(m, c.key);
    if c.value.Some? then Push(m1, c.key, c.value.value) else m1
  }

  /** The map after processing the contributions in order, starting from `new Map()`. */
  function Build(cs: seq<Contribution>): Entries
    decreases |cs|
  {
    if cs == [] then [] else Insert(Build(cs[..|cs| - 1]), cs[|cs| - 1])
  }

  /** The contributions of a list of items, one per item, in order. */
  function Collect<T>(xs: seq<T>, contribute: T -> Contribution): (cs: seq<Contribution>)
    ensures |cs| == |xs|
    decreases |xs|
  {
    if xs == [] then [] else Collect(xs[..|xs| - 1], contribute) + [contribute(xs[|xs| - 1])]
  }

  lemma {:induction false} CollectAt<T>(xs: seq<T>, contribute: T -> Contribution, i: nat)
    requires i < |xs|
    ensures Collect(xs, contribute)[i] == contribute(xs[i])
    decreases |xs|
  {
    if i < |xs| - 1 {
      CollectAt(xs[..|xs| - 1], contribute, i);
    }
  }

  /** The keys the contributions touch, in order, repetitions included. */
  function TouchedKeys(cs: seq<Contribution>): (ks: seq<string>)
    ensures |ks| == |cs|
    decreases |cs|
  {
    if cs == [] then [] else TouchedKeys(cs[..|cs| - 1]) + [cs[|cs| - 1].key]
  }

  /** The values pushed under `key`, in order. */
  function ValuesFor(cs: seq<Contribution>, key: string): seq<string>
    decreases |cs|
  {
    if cs == [] then []
    else
      var c := cs[|cs| - 1];
      ValuesFor(cs[..|cs| - 1], key) + (if c.key == key && c.value.Some? then [c.value.value] else [])
  }

  /** How many contributions carry a value. */
  function CountValues(cs: seq<Contribution>): nat
    decreases |cs|
  {
    if cs == [] then 0 else CountValues(cs[..|cs| - 1]) + (if cs[|cs| - 1].value.Some? then 1 else 0)
  }

  /** Index of the first occurrence of `k`. */
  function FirstIndex(ks: seq<string>, k: string): (i: nat)
    requires k in ks
    ensures i < |ks| && ks[i] == k
    ensures forall j :: 0 <= j < i ==> ks[j] != k
    decreases |ks|
  {
    if ks[0] == k then 0 else 1 + FirstIndex(ks[1..], k)
  }

  lemma BuildSnoc(cs: seq<Contribution>, c: Contribution)
    ensures Build(cs + [c]) == Insert(Build(cs), c)
    ensures TouchedKeys(cs + [c]) == TouchedKeys(cs) + [c.key]
    ensures ValuesFor(cs + [c], c.key) == ValuesFor(cs, c.key) + (if c.value.Some? then [c.value.value] else [])
    ensures CountValues(cs + [c]) == CountValues(cs) + (if c.value.Some? then 1 else 0)
  {
    assert (cs + [c])[..|cs|] == cs;
  }

  lemma CollectSnoc<T>(xs: seq<T>, x: T, contribute: T -> Contribution)
    ensures Collect(xs + [x], contribute) == Collect(xs, contribute) + [contribute(x)]
  {
    assert (xs + [x])[..|xs|] == xs;
  }

  /** The keys after one step, as a sequence. */
  lemma InsertKeys(m: Entries, c: Contribution)
    ensures Keys(Insert(m, c)) == if Has(m, c.key) then Keys(m) else Keys(m) + [c.key]
  {
    SetIfAbsentKeys(m, c.key);
    if c.value.Some? {
      PushKeys(SetIfAbsent(m, c.key), c.key, c.value.value);
    }
  }

  /** Looking a key up after one step. */
  lemma InsertGet(m: Entries, c: Contribution, key: string)
    ensures Get(Insert(m, c), key) ==
      if key != c.key then Get(m, key)
      else Some((if Has(m, key) then Get(m, key).value else []) + (if c.value.Some? then [c.value.value] else []))
  {
    SetIfAbsentKeys(m, c.key);
    SetIfAbsentGet(m, c.key, key);
    SetIfAbsentGet(m, c.key, c.key);
    var m1 := SetIfAbsent(m, c.key);
    if c.value.Some? {
      assert Insert(m, c) == Push(m1, c.key, c.value.value);
      PushGet(m1, c.key, c.value.value, key);
    } else {
      assert Insert(m, c) == m1;
      if key == c.key && Has(m, key) {
        assert Get(m, key).value + [] == Get(m, key).value;
      } else if key == c.key {
        assert Get(m1, key) == Some([]);
        var empty: seq<string> := [];
        assert empty + [] == empty;
      }
    }
  }

  lemma {:induction false} ValuesForUntouched(cs: seq<Contribution>, key: string)
    requires key !in TouchedKeys(cs)
    ensures ValuesFor(cs, key) == []
    decreases |cs|
  {
    if cs != [] {
      ValuesForUntouched(cs[..|cs| - 1], key);
    }
  }

  /** The map built from a list of contributions holds `key` exactly when some
      contribution touches it, and then holds exactly the values pushed under
      `key`, in arrival order. */
  lemma {:induction false} BuildGet(cs: seq<Contribution>, key: string)
    ensures Get(Build(cs), key) == if key in TouchedKeys(cs) then Some(ValuesFor(cs, key)) else None
    decreases |cs|
  {
    if cs != [] {
      var p, c := cs[..|cs| - 1], cs[|cs| - 1];
      assert cs == p + [c];
      BuildGet(p, key);
      BuildGetStep(p, c, key);
    }
  }

  lemma BuildGetStep(p: seq<Contribution>, c: Contribution, key: string)
    requires Get(Build(p), key) == if key in TouchedKeys(p) then Some(ValuesFor(p, key)) else None
    ensures Get(Build(p + [c]), key) == if key in TouchedKeys(p + [c]) then Some(ValuesFor(p + [c], key)) else None
  {
    BuildSnoc(p, c);
    ValuesForSnoc(p, c, key);
    if key !in TouchedKeys(p) {
      ValuesForUntouched(p, key);
    }
    InsertGetFrom(Build(p), c, key, TouchedKeys(p), ValuesFor(p, key));
  }

  lemma ValuesForSnoc(p: seq<Contribution>, c: Contribution, key: string)
    ensures ValuesFor(p + [c], key) == ValuesFor(p, key) + (if c.key == key && c.value.Some? then [c.value.value] else [])
  {
    assert (p + [c])[..|p|] == p;
  }

  /** One step of the fold, on a map whose lookup of `key` is already known. */
  lemma InsertGetFrom(m: Entries, c: Contribution, key: string, touched: seq<string>, vs: seq<string>)
    requires key !in touched ==> vs == []
    requires Get(m, key) == if key in touched then Some(vs) else None
    ensures Get(Insert(m, c), key) ==
      if key in touched + [c.key] then Some(vs + (if c.key == key && c.value.Some? then [c.value.value] else []))
      else None
  {
    InsertGet(m, c, key);
    assert vs + [] == vs;
    assert key in touched + [c.key] <==> key in touched || key == c.key;
  }

  /** Every key of a built map occurs once. */
  lemma {:induction false} BuildDistinct(cs: seq<Contribution>)
    ensures DistinctKeys(Build(cs))
    decreases |cs|
  {
    if cs != [] {
      var p, c := cs[..|cs| - 1], cs[|cs| - 1];
      BuildDistinct(p);
      var m := Build(p);
      var m' := Insert(m, c);
      InsertKeys(m, c);
      assert Keys(m') == Keys(m) || Keys(m') == Keys(m) + [c.key];
      forall i, j | 0 <= i < j < |m'|
        ensures m'[i].0 != m'[j].0
      {
        KeysAt(m', i);
        KeysAt(m', j);
        KeysAt(m, i);
        if j < |m| {
          KeysAt(m, j);
        }
      }
    }
  }

  /** The keys of a built map are the touched keys ordered by first occurrence. */
  lemma {:induction false} BuildKeyOrder(cs: seq<Contribution>, a: nat, b: nat)
    requires a < b < |Build(cs)|
    ensures Build(cs)[a].0 in TouchedKeys(cs) && Build(cs)[b].0 in TouchedKeys(cs)
    ensures FirstIndex(TouchedKeys(cs), Build(cs)[a].0) < FirstIndex(TouchedKeys(cs), Build(cs)[b].0)
    decreases |cs|
  {
    var p, c := cs[..|cs| - 1], cs[|cs| - 1];
    assert cs == p + [c];
    BuildSnoc(p, c);
    var m := Build(p);
    var m' := Build(cs);
    var ks, ks' := TouchedKeys(p), TouchedKeys(cs);
    InsertKeys(m, c);
    KeysAt(m', a);
    KeysAt(m', b);
    KeysAt(m, a);
    BuildGet(p, m'[a].0);
    BuildGet(p, m'[b].0);
    if b < |m| {
      BuildKeyOrder(p, a, b);
      KeysAt(m, b);
      FirstIndexSnoc(ks, c.key, m[a].0);
      FirstIndexSnoc(ks, c.key, m[b].0);
    } else {
      assert !Has(m, c.key) && m'[b].0 == c.key;
      assert m'[a].0 == m[a].0 && Has(m, m[a].0);
      assert m[a].0 in ks;
      FirstIndexSnoc(ks, c.key, m[a].0);
      assert c.key !in ks;
      assert ks'[|ks|] == c.key;
    }
  }

  lemma FirstIndexSnoc(ks: seq<string>, x: string, k: string)
    requires k in ks
    ensures k in ks + [x] && FirstIndex(ks + [x], k) == FirstIndex(ks, k)
  {
    assert (ks + [x])[FirstIndex(ks, k)] == k;
  }

  /** One more item processed: one more step of the fold. */
  lemma CollectBuildStep<T>(xs: seq<T>, i: nat, contribute: T -> Contribution)
    requires i < |xs|
    ensures Build(Collect(xs[..i + 1], contribute)) == Insert(Build(Collect(xs[..i], contribute)), contribute(xs[i]))
  {
    assert xs[..i + 1] == xs[..i] + [xs[i]];
    CollectSnoc(xs[..i], xs[i], contribute);
    BuildSnoc(Collect(xs[..i], contribute), contribute(xs[i]));
  }

  /** The `has`/`set`/`push` steps a loop body performs for item `xs[i]` are one
      step of the fold. */
  lemma LoopStep<T>(xs: seq<T>, i: nat, contribute: T -> Contribution, before: Entries, after: Entries)
    requires i < |xs|
    requires before == Build(Collect(xs[..i], contribute))
    requires after == Insert(before, contribute(xs[i]))
    ensures after == Build(Collect(xs[..i + 1], contribute))
  {
    CollectBuildStep(xs, i, contribute);
  }

  /** A built map holds one value per contribution that carries one. */
  lemma {:induction false} BuildTotal(cs: seq<Contribution>)
    ensures TotalValues(Build(cs)) == CountValues(cs)
    decreases |cs|
  {
    if cs != [] {
      var p, c := cs[..|cs| - 1], cs[|cs| - 1];
      BuildTotal(p);
      var m := Build(p);
      SetIfAbsentKeys(m, c.key);
      if !Has(m, c.key) {
        TotalValuesSnoc(m, (c.key, []));
      }
      if c.value.Some? {
        PushTotal(SetIfAbsent(m, c.key), c.key, c.value.value);
      }
    }
  }

  /** A built map is empty exactly when there were no contributions. */
  lemma BuildEmpty(cs: seq<Contribution>)
    ensures |Build(cs)| == 0 <==> cs == []
  {
    if cs != [] {
      var p, c := cs[..|cs| - 1], cs[|cs| - 1];
      InsertKeys(Build(p), c);
    }
  }

  /** Every value stored under `key` was pushed by a contribution touching `key`. */
  lemma {:induction false} ValuesForOrigin(cs: seq<Contribution>, key: string, v: string)
    requires v in ValuesFor(cs, key)
    ensures exists i :: 0 <= i < |cs| && cs[i].key == key && cs[i].value == Some(v)
    decreases |cs|
  {
    var p, c := cs[..|cs| - 1], cs[|cs| - 1];
    if v in ValuesFor(p, key) {
      ValuesForOrigin(p, key, v);
      var i :| 0 <= i < |p| && p[i].key == key && p[i].value == Some(v);
      assert cs[i] == p[i];
    } else {
      assert cs[|cs| - 1] == c;
    }
  }

  lemma TouchedKeysOf(cs: seq<Contribution>, i: nat)
    requires i < |cs|
    ensures cs[i].key in TouchedKeys(cs)
    decreases |cs|
  {
    if i < |cs| - 1 {
      TouchedKeysOf(cs[..|cs| - 1], i);
    }
  }

  // ---------------------------------------------------------------------------
  // Drag and drop (App.tsx, handleFileDrop)
  // ---------------------------------------------------------------------------

  function DropKey(f: File): string {
    if f.mimeType == "" then OctetStream else f.mimeType
  }

  function DropContribution(f: File): Contribution {
    Contribution(DropKey(f), Some(if IsMedia(f.mimeType) then CreateObjectUrl(f.handle) else f.text))
  }

  function DropMap(files: seq<File>): Entries {
    Build(Collect(files, DropContribution))
  }

  /** The map `handleFileDrop` builds before committing it. */
  method NormaliseDrop(files: seq<File>) returns (clipboardData: Entries)
    ensures clipboardData == DropMap(files)
  {
    clipboardData := [];
    var i := 0;
    assert files[..0] == [];
    while i < |files|
      invariant 0 <= i <= |files|
      invariant clipboardData == Build(Collect(files[..i], DropContribution))
    {
      var before := clipboardData;
      clipboardData := DropItem(clipboardData, files[i]);
      LoopStep(files, i, DropContribution, before, clipboardData);
      i := i + 1;
    }
    assert files[..|files|] == files;
  }

  /** One pass of the drop loop's body: create the key (the file's type, or
      `application/octet-stream`), then push an object URL or the file's text. */
  method DropItem(m: Entries, file: File) returns (clipboardData: Entries)
    ensures clipboardData == Insert(m, DropContribution(file))
  {
    clipboardData := m;
    var t := if file.mimeType == "" then OctetStream else file.mimeType;
    if !Has(clipboardData, t) {
      clipboardData := clipboardData + [(t, [])];
    }
    SetIfAbsentKeys(m, t);
    if IsMedia(file.mimeType) {
      var objectUrl := CreateObjectUrl(file.handle);
      clipboardData := Push(clipboardData, t, objectUrl);
    } else {
      clipboardData := Push(clipboardData, t, file.text);
    }
  }

  /** A dropped list yields a proper `Map` holding one value per file. */
  lemma DropMapShape(files: seq<File>)
    ensures DistinctKeys(DropMap(files))
    ensures TotalValues(DropMap(files)) == |files|
  {
    BuildDistinct(Collect(files, DropContribution));
    BuildTotal(Collect(files, DropContribution));
    AllCarryValues(files);
  }

  lemma {:induction false} AllCarryValues(files: seq<File>)
    ensures CountValues(Collect(files, DropContribution)) == |files|
    decreases |files|
  {
    if files != [] {
      var p := files[..|files| - 1];
      AllCarryValues(p);
      assert files == p + [files[|files| - 1]];
      CollectSnoc(p, files[|files| - 1], DropContribution);
      BuildSnoc(Collect(p, DropContribution), DropContribution(files[|files| - 1]));
    }
  }

  /** Every dropped file is recorded under its type, or under
      `application/octet-stream` when it has none. */
  lemma DropKeepsEveryFile(files: seq<File>, i: nat)
    requires i < |files|
    ensures Has(DropMap(files), if files[i].mimeType == "" then OctetStream else files[i].mimeType)
  {
    var cs := Collect(files, DropContribution);
    CollectAt(files, DropContribution, i);
    TouchedKeysOf(cs, i);
    BuildGet(cs, cs[i].key);
  }

  /** Values stored under a media type by a drop are object URLs. */
  lemma DropMediaAreObjectUrls(files: seq<File>, key: string, v: string)
    requires IsMedia(key) && Has(DropMap(files), key)
    requires v in Get(DropMap(files), key).value
    ensures "blob:" <= v
  {
    var cs := Collect(files, DropContribution);
    BuildGet(cs, key);
    ValuesForOrigin(cs, key, v);
    var i :| 0 <= i < |cs| && cs[i].key == key && cs[i].value == Some(v);
    CollectAt(files, DropContribution, i);
    OctetStreamIsNotMedia();
    assert files[i].mimeType == key;
  }

  // ---------------------------------------------------------------------------
  // Paste events (App.tsx global listener; paste-node.tsx onPaste)
  // ---------------------------------------------------------------------------

  /** The placeholder a pasted non-media file becomes in the global listener:
      `File: `, the name (`clipboard` for an unnamed file), then the size. */
  function FileInfo(f: File): (info: string)
    ensures var shown := if f.name == "" then "clipboard" else f.name;
      && |shown| > 0
      && |info| > 6 + |shown| + 7
      && info[..6 + |shown|] == "File: " + shown
      && info[|info| - 7..] == " bytes)"
  {
    "File: " + (if f.name == "" then "clipboard" else f.name) + " (" + NatToString(f.size) + " bytes)"
  }

  /** Text items are pushed only when `getData` returned a non-empty string. */
  function TextValue(data: string): Option<string> {
    if data == "" then None else Some(data)
  }

  /** One item of the global listener; `getData` is `clipboardData.getData`. */
  function GlobalPasteContribution(getData: string -> string, item: DataTransferItem): Contribution {
    match item
    case FileItem(t, file) =>
      Contribution(t,
        if file.None? then None
        else if IsMedia(t) then Some(CreateObjectUrl(file.value.handle))
        else Some(FileInfo(file.value)))
    case StringItem(t) => Contribution(t, TextValue(getData(t)))
  }

  function GlobalPasteContributor(getData: string -> string): DataTransferItem -> Contribution {
    item => GlobalPasteContribution(getData, item)
  }

  /** One item of the paste node's input.  At commit time a non-media file has
      pushed nothing yet: its `FileReader` has not fired. */
  function DirectPasteContribution(getData: string -> string, item: DataTransferItem): Contribution {
    match item
    case FileItem(t, file) =>
      Contribution(t, if file.Some? && IsMedia(t) then Some(CreateObjectUrl(file.value.handle)) else None)
    case StringItem(t) => Contribution(t, TextValue(getData(t)))
  }

  function DirectPasteContributor(getData: string -> string): DataTransferItem -> Contribution {
    item => DirectPasteContribution(getData, item)
  }

  function GlobalPasteMap(items: seq<DataTransferItem>, getData: string -> string): Entries {
    Build(Collect(items, GlobalPasteContributor(getData)))
  }

  function DirectPasteMap(items: seq<DataTransferItem>, getData: string -> string): Entries {
    Build(Collect(items, DirectPasteContributor(getData)))
  }

  /** The map the global `paste` listener builds. */
  method NormaliseGlobalPaste(items: seq<DataTransferItem>, getData: string -> string)
    returns (clipboardData: Entries)
    ensures clipboardData == GlobalPasteMap(items, getData)
  {
    clipboardData := [];
    var i := 0;
    while i < |items|
      invariant 0 <= i <= |items|
      invariant clipboardData == Build(Collect(items[..i], GlobalPasteContributor(getData)))
    {
      var before := clipboardData;
      clipboardData := GlobalPasteItem(clipboardData, items[i], getData);
      LoopStep(items, i, GlobalPasteContributor(getData), before, clipboardData);
      i := i + 1;
    }
    assert items[..|items|] == items;
  }

  /** One pass of the global listener's loop body: create the key, then push the
      object URL, the file description or the non-empty `getData(type)`. */
  method GlobalPasteItem(m: Entries, item: DataTransferItem, getData: string -> string)
    returns (clipboardData: Entries)
    ensures clipboardData == Insert(m, GlobalPasteContribution(getData, item))
  {
    clipboardData := m;
    if !Has(clipboardData, item.mimeType) {
      clipboardData := clipboardData + [(item.mimeType, [])];
    }
    SetIfAbsentKeys(m, item.mimeType);
    match item {
      case FileItem(t, file) =>
        if file.Some? {
          if IsMedia(t) {
            var objectUrl := CreateObjectUrl(file.value.handle);
            clipboardData := Push(clipboardData, t, objectUrl);
          } else {
            clipboardData := Push(clipboardData, t, FileInfo(file.value));
          }
        }
      case StringItem(t) =>
        var data := getData(t);
        if data != "" {
          clipboardData := Push(clipboardData, t, data);
        }
    }
  }

  lemma GlobalPasteMapShape(items: seq<DataTransferItem>, getData: string -> string)
    ensures DistinctKeys(GlobalPasteMap(items, getData))
    ensures |GlobalPasteMap(items, getData)| > 0 <==> |items| > 0
  {
    BuildDistinct(Collect(items, GlobalPasteContributor(getData)));
    BuildEmpty(Collect(items, GlobalPasteContributor(getData)));
  }

  /** The map the paste node's input builds on `paste`, as it stands at commit time. */
  method NormaliseDirectPaste(items: seq<DataTransferItem>, getData: string -> string)
    returns (clipboardData: Entries)
    ensures clipboardData == DirectPasteMap(items, getData)
  {
    clipboardData := [];
    var i := 0;
    while i < |items|
      invariant 0 <= i <= |items|
      invariant clipboardData == Build(Collect(items[..i], DirectPasteContributor(getData)))
    {
      var before := clipboardData;
      clipboardData := DirectPasteItem(clipboardData, items[i], getData);
      LoopStep(items, i, DirectPasteContributor(getData), before, clipboardData);
      i := i + 1;
    }
    assert items[..|items|] == items;
  }

  /** One pass of the input's loop body: create the key, then push the object URL
      or the non-empty `getData(type)`; a non-media file only starts a `FileReader`. */
  method DirectPasteItem(m: Entries, item: DataTransferItem, getData: string -> string)
    returns (clipboardData: Entries)
    ensures clipboardData == Insert(m, DirectPasteContribution(getData, item))
  {
    clipboardData := m;
    if !Has(clipboardData, item.mimeType) {
      clipboardData := clipboardData + [(item.mimeType, [])];
    }
    SetIfAbsentKeys(m, item.mimeType);
    match item {
      case FileItem(t, file) =>
        if file.Some? && IsMedia(t) {
          var objectUrl := CreateObjectUrl(file.value.handle);
          clipboardData := Push(clipboardData, t, objectUrl);
        }
      case StringItem(t) =>
        var data := getData(t);
        if data != "" {
          clipboardData := Push(clipboardData, t, data);
        }
    }
  }

  lemma DirectPasteMapShape(items: seq<DataTransferItem>, getData: string -> string)
    ensures DistinctKeys(DirectPasteMap(items, getData))
    ensures |DirectPasteMap(items, getData)| > 0 <==> |items| > 0
  {
    BuildDistinct(Collect(items, DirectPasteContributor(getData)));
    BuildEmpty(Collect(items, DirectPasteContributor(getData)));
  }

  /** Every pasted item's type becomes a key, even when the item pushes nothing. */
  lemma PasteKeysEveryItem(items: seq<DataTransferItem>, getData: string -> string, i: nat)
    requires i < |items|
    ensures Has(GlobalPasteMap(items, getData), items[i].mimeType)
    ensures Has(DirectPasteMap(items, getData), items[i].mimeType)
  {
    var gs := Collect(items, GlobalPasteContributor(getData));
    var ds := Collect(items, DirectPasteContributor(getData));
    CollectAt(items, GlobalPasteContributor(getData), i);
    CollectAt(items, DirectPasteContributor(getData), i);
    TouchedKeysOf(gs, i);
    BuildGet(gs, items[i].mimeType);
    TouchedKeysOf(ds, i);
    BuildGet(ds, items[i].mimeType);
  }

  /** No contribution pushes the empty string. */
  predicate NoEmptyValue(cs: seq<Contribution>) {
    forall i :: 0 <= i < |cs| && cs[i].value.Some? ==> cs[i].value.value != ""
  }

  lemma {:induction false} ValuesForNoEmpty(cs: seq<Contribution>, key: string)
    requires NoEmptyValue(cs)
    ensures "" !in ValuesFor(cs, key)
    decreases |cs|
  {
    if cs != [] {
      var p := cs[..|cs| - 1];
      assert NoEmptyValue(p) by {
        forall i | 0 <= i < |p| && p[i].value.Some?
          ensures p[i].value.value != ""
        {
          assert p[i] == cs[i];
        }
      }
      ValuesForNoEmpty(p, key);
    }
  }

  lemma PasteContributionsNonEmpty(items: seq<DataTransferItem>, getData: string -> string)
    ensures NoEmptyValue(Collect(items, GlobalPasteContributor(getData)))
    ensures NoEmptyValue(Collect(items, DirectPasteContributor(getData)))
  {
    var gs := Collect(items, GlobalPasteContributor(getData));
    var ds := Collect(items, DirectPasteContributor(getData));
    forall i | 0 <= i < |items|
      ensures gs[i].value.Some? ==> gs[i].value.value != ""
      ensures ds[i].value.Some? ==> ds[i].value.value != ""
    {
      CollectAt(items, GlobalPasteContributor(getData), i);
      CollectAt(items, DirectPasteContributor(getData), i);
      match items[i]
      case FileItem(t, file) =>
        if file.Some? {
          assert |CreateObjectUrl(file.value.handle)| >= 5;
          assert |FileInfo(file.value)| >= 6;
        }
      case StringItem(t) =>
    }
  }

  /** Neither paste path ever stores an empty string: empty text is skipped and
      object URLs and file descriptions are never empty. */
  lemma PasteNeverStoresEmptyString(items: seq<DataTransferItem>, getData: string -> string, key: string)
    ensures Has(GlobalPasteMap(items, getData), key) ==> "" !in Get(GlobalPasteMap(items, getData), key).value
    ensures Has(DirectPasteMap(items, getData), key) ==> "" !in Get(DirectPasteMap(items, getData), key).value
  {
    var gs := Collect(items, GlobalPasteContributor(getData));
    var ds := Collect(items, DirectPasteContributor(getData));
    PasteContributionsNonEmpty(items, getData);
    BuildGet(gs, key);
    BuildGet(ds, key);
    ValuesForNoEmpty(gs, key);
    ValuesForNoEmpty(ds, key);
  }

  /** The contributions of a two-item paste. */
  lemma CollectTwo<T>(x: T, y: T, contribute: T -> Contribution)
    ensures Collect([x, y], contribute) == [contribute(x), contribute(y)]
  {
    assert [x, y][..1] == [] + [x];
    CollectSnoc([], x, contribute);
    assert [x, y] == [x, y][..1] + [y];
    CollectSnoc([x, y][..1], y, contribute);
  }

  /** The map built from one contribution that pushes `v`. */
  lemma BuildOne(t: string, v: string)
    ensures Build([Contribution(t, Some(v))]) == [(t, [v])]
  {
    var c := Contribution(t, Some(v));
    BuildSnoc([], c);
    assert [] + [c] == [c];
    var e: Entries := [(t, [])];
    assert Keys(e) == [t];
    assert SetIfAbsent([], t) == e;
    var empty: seq<string> := [];
    assert empty + [v] == [v];
  }

  /** Two string items of one type both read `getData(t)`, so a non-empty text
      is stored twice under the one key. */
  lemma TwoTextItems(t: string, getData: string -> string)
    requires getData(t) != ""
    ensures GlobalPasteMap([StringItem(t), StringItem(t)], getData) == [(t, [getData(t), getData(t)])]
  {
    var c := Contribution(t, Some(getData(t)));
    CollectTwo(StringItem(t), StringItem(t), GlobalPasteContributor(getData));
    assert Collect([StringItem(t), StringItem(t)], GlobalPasteContributor(getData)) == [c, c];
    BuildSameKey(t, getData(t), getData(t));
  }

  lemma BuildSameKey(t: string, a: string, b: string)
    ensures Build([Contribution(t, Some(a)), Contribution(t, Some(b))]) == [(t, [a, b])]
  {
    var c1, c2 := Contribution(t, Some(a)), Contribution(t, Some(b));
    BuildOne(t, a);
    assert [c1, c2] == [c1] + [c2];
    BuildSnoc([c1], c2);
    var m0: Entries := [(t, [a])];
    assert Keys(m0) == [t];
    assert SetIfAbsent(m0, t) == m0;
    assert Push(m0, t, b) == [(t, [a] + [b])];
    assert [a] + [b] == [a, b];
  }

  /** Two string items of different types, each with non-empty text: two keys
      in item order, one value each. */
  lemma TwoTypes(t1: string, t2: string, getData: string -> string)
    requires t1 != t2 && getData(t1) != "" && getData(t2) != ""
    ensures GlobalPasteMap([StringItem(t1), StringItem(t2)], getData) == [(t1, [getData(t1)]), (t2, [getData(t2)])]
  {
    var a, b := getData(t1), getData(t2);
    var c1, c2 := Contribution(t1, Some(a)), Contribution(t2, Some(b));
    CollectTwo(StringItem(t1), StringItem(t2), GlobalPasteContributor(getData));
    assert Collect([StringItem(t1), StringItem(t2)], GlobalPasteContributor(getData)) == [c1, c2];
    BuildTwoKeys(t1, a, t2, b);
  }

  lemma BuildTwoKeys(t1: string, a: string, t2: string, b: string)
    requires t1 != t2
    ensures Build([Contribution(t1, Some(a)), Contribution(t2, Some(b))]) == [(t1, [a]), (t2, [b])]
  {
    var c1, c2 := Contribution(t1, Some(a)), Contribution(t2, Some(b));
    BuildOne(t1, a);
    assert [c1, c2] == [c1] + [c2];
    BuildSnoc([c1], c2);
    var m0: Entries := [(t1, [a])];
    assert Keys(m0) == [t1];
    var empty: seq<string> := [];
    assert SetIfAbsent(m0, t2) == m0 + [(t2, empty)];
    PushLast(m0, t2, empty, b);
    assert empty + [b] == [b];
  }

  /** A single pasted non-media file: the global listener records its
      placeholder, while the paste node's input has only created the key when
      it commits (its `FileReader` has not fired yet). */
  lemma SingleNonMediaFile(t: string, f: File, getData: string -> string)
    requires !IsMedia(t)
    ensures GlobalPasteMap([FileItem(t, Some(f))], getData) == [(t, [FileInfo(f)])]
    ensures DirectPasteMap([FileItem(t, Some(f))], getData) == [(t, [])]
  {
    var item := FileItem(t, Some(f));
    assert [item] == [] + [item];
    CollectSnoc([], item, GlobalPasteContributor(getData));
    CollectSnoc([], item, DirectPasteContributor(getData));
    BuildOne(t, FileInfo(f));
    BuildSnoc([], DirectPasteContribution(getData, item));
    var e: Entries := [(t, [])];
    assert Keys(e) == [t];
    assert SetIfAbsent([], t) == e;
  }

  // ---------------------------------------------------------------------------
  // Clipboard API (paste-node.tsx, onClickClipboardApiButton)
  // ---------------------------------------------------------------------------

  /** Whether `getType` and, for a non-media type, `blob.text()` both resolve. */
  predicate Readable(r: Representation) {
    r.blob.Some? && (IsMedia(r.mimeType) || r.blob.value.text.Some?)
  }

  /** Every representation of one item reads. */
  predicate RepsReadable(reps: seq<Representation>)
    decreases |reps|
  {
    reps == [] || (RepsReadable(reps[..|reps| - 1]) && Readable(reps[|reps| - 1]))
  }

  /** Every representation of every item reads: no awaited promise rejects. */
  predicate AllReadable(items: seq<ClipboardItem>)
    decreases |items|
  {
    items == [] || (AllReadable(items[..|items| - 1]) && RepsReadable(items[|items| - 1].representations))
  }

  lemma {:induction false} RepsReadableMeans(reps: seq<Representation>)
    ensures RepsReadable(reps) <==> forall k :: 0 <= k < |reps| ==> Readable(reps[k])
    decreases |reps|
  {
    if reps != [] {
      var q := reps[..|reps| - 1];
      RepsReadableMeans(q);
      assert forall k :: 0 <= k < |q| ==> q[k] == reps[k];
    }
  }

  lemma {:induction false} AllReadableMeans(items: seq<ClipboardItem>)
    ensures AllReadable(items) <==> forall i :: 0 <= i < |items| ==> RepsReadable(items[i].representations)
    decreases |items|
  {
    if items != [] {
      var p := items[..|items| - 1];
      AllReadableMeans(p);
      assert forall i :: 0 <= i < |p| ==> p[i] == items[i];
    }
  }

  function RepresentationContribution(r: Representation): Contribution {
    Contribution(r.mimeType,
      if r.blob.None? then None
      else if IsMedia(r.mimeType) then Some(CreateObjectUrl(r.blob.value.handle))
      else r.blob.value.text)
  }

  /** The contributions of every type of every item, item by item. */
  function ApiContributions(items: seq<ClipboardItem>): seq<Contribution>
    decreases |items|
  {
    if items == [] then []
    else ApiContributions(items[..|items| - 1]) + Collect(items[|items| - 1].representations, RepresentationContribution)
  }

  /** What the Clipboard-API path commits: `None` when `navigator.clipboard.read()`,
      a `getType` or a `blob.text()` rejects (the `catch` branch). */
  function ClipboardApiMap(read: Option<seq<ClipboardItem>>): Option<Entries> {
    if read.None? || !AllReadable(read.value) then None
    else Some(Build(ApiContributions(read.value)))
  }

  /** The body of the `try` block up to the commit. */
  method ReadClipboardItems(read: Option<seq<ClipboardItem>>) returns (result: Option<Entries>)
    ensures result == ClipboardApiMap(read)
  {
    if read.None? {
      return None;
    }
    var items := read.value;
    var clipboardData: Entries := [];
    var i := 0;
    assert items[..0] == [];
    while i < |items|
      invariant 0 <= i <= |items|
      invariant clipboardData == Build(ApiContributions(items[..i]))
      invariant AllReadable(items[..i])
    {
      var step := ReadItemTypes(clipboardData, ApiContributions(items[..i]), items[i].representations);
      if step.None? {
        AllReadableMeans(items);
        return None;
      }
      clipboardData := step.value;
      ReadItemDone(items, i);
      i := i + 1;
    }
    assert items[..|items|] == items;
    return Some(clipboardData);
  }

  /** The inner loop over `item.types`, continuing the map built so far from the
      contributions `done`; `None` when one of its awaited promises rejects. */
  method ReadItemTypes(m: Entries, ghost done: seq<Contribution>, reps: seq<Representation>)
    returns (result: Option<Entries>)
    requires m == Build(done)
    ensures result == if RepsReadable(reps) then Some(Build(done + Collect(reps, RepresentationContribution))) else None
  {
    var clipboardData := m;
    var j := 0;
    assert reps[..0] == [];
    assert done + [] == done;
    while j < |reps|
      invariant 0 <= j <= |reps|
      invariant clipboardData == Build(done + Collect(reps[..j], RepresentationContribution))
      invariant RepsReadable(reps[..j])
    {
      var before := clipboardData;
      var step := ReadRepresentation(clipboardData, reps[j]);
      if step.None? {
        RepsReadableMeans(reps);
        return None;
      }
      clipboardData := step.value;
      ReadStep(done, reps, j, before, clipboardData);
      j := j + 1;
    }
    assert reps[..j] == reps;
    return Some(clipboardData);
  }

  /** One pass of the inner loop: `getType`, create the key, push the object URL
      or the awaited text; `None` when an awaited promise rejects. */
  method ReadRepresentation(m: Entries, rep: Representation) returns (result: Option<Entries>)
    ensures result == if Readable(rep) then Some(Insert(m, RepresentationContribution(rep))) else None
  {
    if rep.blob.None? {
      return None;
    }
    var blob := rep.blob.value;
    var clipboardData := m;
    if !Has(clipboardData, rep.mimeType) {
      clipboardData := clipboardData + [(rep.mimeType, [])];
    }
    SetIfAbsentKeys(m, rep.mimeType);
    if IsMedia(rep.mimeType) {
      var objectUrl := CreateObjectUrl(blob.handle);
      clipboardData := Push(clipboardData, rep.mimeType, objectUrl);
    } else {
      if blob.text.None? {
        return None;
      }
      clipboardData := Push(clipboardData, rep.mimeType, blob.text.value);
    }
    return Some(clipboardData);
  }

  lemma ReadStep(done: seq<Contribution>, reps: seq<Representation>, j: nat, before: Entries, after: Entries)
    requires j < |reps|
    requires RepsReadable(reps[..j]) && Readable(reps[j])
    requires before == Build(done + Collect(reps[..j], RepresentationContribution))
    requires after == Insert(before, RepresentationContribution(reps[j]))
    ensures after == Build(done + Collect(reps[..j + 1], RepresentationContribution))
    ensures RepsReadable(reps[..j + 1])
  {
    assert reps[..j + 1] == reps[..j] + [reps[j]];
    assert reps[..j + 1][..j] == reps[..j];
    CollectSnoc(reps[..j], reps[j], RepresentationContribution);
    assert done + Collect(reps[..j + 1], RepresentationContribution)
        == (done + Collect(reps[..j], RepresentationContribution)) + [RepresentationContribution(reps[j])];
    BuildSnoc(done + Collect(reps[..j], RepresentationContribution), RepresentationContribution(reps[j]));
  }

  lemma ReadItemDone(items: seq<ClipboardItem>, i: nat)
    requires i < |items|
    requires AllReadable(items[..i]) && RepsReadable(items[i].representations)
    ensures AllReadable(items[..i + 1])
    ensures ApiContributions(items[..i + 1])
         == ApiContributions(items[..i]) + Collect(items[i].representations, RepresentationContribution)
  {
    assert items[..i + 1][..i] == items[..i];
  }

  /** How many types the items offer in all. */
  function TypeCount(items: seq<ClipboardItem>): nat
    decreases |items|
  {
    if items == [] then 0 else TypeCount(items[..|items| - 1]) + |items[|items| - 1].representations|
  }

  /** When every read resolves, every type of every item adds exactly one value. */
  lemma ApiOneValuePerType(items: seq<ClipboardItem>)
    requires AllReadable(items)
    ensures ClipboardApiMap(Some(items)).Some?
    ensures TotalValues(ClipboardApiMap(Some(items)).value) == TypeCount(items)
  {
    BuildTotal(ApiContributions(items));
    ApiCountValues(items);
    ApiContributionsLength(items);
  }

  lemma {:induction false} ApiContributionsLength(items: seq<ClipboardItem>)
    ensures |ApiContributions(items)| == TypeCount(items)
    decreases |items|
  {
    if items != [] {
      ApiContributionsLength(items[..|items| - 1]);
    }
  }

  lemma {:induction false} ApiCountValues(items: seq<ClipboardItem>)
    requires AllReadable(items)
    ensures CountValues(ApiContributions(items)) == |ApiContributions(items)|
    decreases |items|
  {
    if items != [] {
      var p := items[..|items| - 1];
      ApiCountValues(p);
      CountValuesReadable(ApiContributions(p), items[|items| - 1].representations);
    }
  }

  lemma {:induction false} CountValuesReadable(done: seq<Contribution>, reps: seq<Representation>)
    requires CountValues(done) == |done|
    requires RepsReadable(reps)
    ensures CountValues(done + Collect(reps, RepresentationContribution)) == |done| + |reps|
    decreases |reps|
  {
    if reps != [] {
      var q := reps[..|reps| - 1];
      var last := reps[|reps| - 1];
      assert RepsReadable(q) && Readable(last);
      CountValuesReadable(done, q);
      assert RepresentationContribution(last).value.Some?;
      assert reps == q + [last];
      CollectSnoc(q, last, RepresentationContribution);
      assert done + Collect(reps, RepresentationContribution)
          == (done + Collect(q, RepresentationContribution)) + [RepresentationContribution(last)];
      BuildSnoc(done + Collect(q, RepresentationContribution), RepresentationContribution(last));
    } else {
      assert done + Collect(reps, RepresentationContribution) == done;
    }
  }

  /** A read that resolves with no items commits an empty map. */
  lemma ApiEmptyReadCommitsEmptyMap()
    ensures ClipboardApiMap(Some([])) == Some([])
  {
  }
}
