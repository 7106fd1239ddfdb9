/**
 * The pure helpers of a content node: the classification of a MIME type into
 * one of nine kinds, the file extension used when downloading, the test that
 * decides whether a media value can be handed to an `<img>`/`<video>`/`<audio>`/
 * `<embed>` element, the truncated raw preview, and the choice between a direct
 * link and a text blob when downloading.
 */
module ContentNode {
  import opened Wrappers
  import opened Strings

  /** The kinds `getPrimaryType` distinguishes. */
  datatype PrimaryType = Html | Image | Video | Audio | Json | Pdf | Xml | Text | Unknown

  /** The string `getPrimaryType` returns for each kind. */
  function KindName(k: PrimaryType): string {
    match k
    case Html => "html"
    case Image => "image"
    case Video => "video"
    case Audio => "audio"
    case Json => "json"
    case Pdf => "pdf"
    case Xml => "xml"
    case Text => "text"
    case Unknown => "unknown"
  }

  predicate IsXmlType(mimeType: string) {
    mimeType == "application/xml" || mimeType == "text/xml" || mimeType == "application/xhtml+xml"
  }

  /** `getPrimaryType`: the checks are tried in order and the first match wins. */
  function GetPrimaryType(mimeType: string): (k: PrimaryType)
    ensures k == Html <==> mimeType == "text/html"
    ensures k == Image <==> "image/" <= mimeType
    ensures k == Video <==> "video/" <= mimeType
    ensures k == Audio <==> "audio/" <= mimeType
    ensures k == Json <==> mimeType == "application/json"
    ensures k == Pdf <==> mimeType == "application/pdf"
    ensures k == Xml <==> IsXmlType(mimeType)
    ensures k == Text <==> mimeType == "text/plain"
  {
    PrefixesDisjoint(mimeType);
    if mimeType == "text/html" then Html
    else if "image/" <= mimeType then Image
    else if "video/" <= mimeType then Video
    else if "audio/" <= mimeType then Audio
    else if mimeType == "application/json" then Json
    else if mimeType == "application/pdf" then Pdf
    else if IsXmlType(mimeType) then Xml
    else if mimeType == "text/plain" then Text
    else Unknown
  }

  /** A string starts with at most one of the three media prefixes, and none of
      the exact types tested by `getPrimaryType` starts with any of them. */
  lemma PrefixesDisjoint(s: string)
    ensures !("image/" <= s && "video/" <= s)
    ensures !("image/" <= s && "audio/" <= s)
    ensures !("video/" <= s && "audio/" <= s)
    ensures ("image/" <= s || "video/" <= s || "audio/" <= s) ==>
      s != "text/html" && s != "application/json" && s != "application/pdf" && !IsXmlType(s) && s != "text/plain"
  {
    if "image/" <= s || "video/" <= s || "audio/" <= s {
      assert s[0] == 'i' || s[0] == 'v' || (s[0] == 'a' && s[1] == 'u');
      assert "text/html"[0] == 't' && "text/plain"[0] == 't' && "text/xml"[0] == 't';
      assert "application/json"[1] == 'p' && "application/pdf"[1] == 'p';
      assert "application/xml"[1] == 'p' && "application/xhtml+xml"[1] == 'p';
    }
  }

  /** An SVG image is an image, although its type ends in `+xml`. */
  lemma SvgIsImage()
    ensures GetPrimaryType("image/svg+xml") == Image
  {
    assert "image/" <= "image/svg+xml";
  }

  /** Under `text/`, only `text/plain`, `text/html` and `text/xml` have a kind of
      their own; every other text type is `unknown`. */
  lemma OtherTextIsUnknown(sub: string)
    requires sub != "plain" && sub != "html" && sub != "xml"
    ensures GetPrimaryType("text/" + sub) == Unknown
  {
    var s := "text/" + sub;
    assert s[0] == 't';
    assert s[5..] == sub;
    assert "text/plain"[5..] == "plain" && "text/html"[5..] == "html" && "text/xml"[5..] == "xml";
    assert !IsXmlType(s) by { assert "application/xml"[0] == 'a' && "application/xhtml+xml"[0] == 'a'; }
    assert "application/json"[0] == 'a' && "application/pdf"[0] == 'a';
  }

  /** The kinds that are rendered and downloaded as media. */
  predicate IsMediaKind(k: PrimaryType) {
    k == Image || k == Video || k == Audio || k == Pdf
  }

  // ---------------------------------------------------------------------------
  // File extensions (getFileExtension)
  // ---------------------------------------------------------------------------

  /** The `extensions` record. */
  const Extensions: map<string, string> := map[
    "text/plain" := "txt",
    "text/html" := "html",
    "application/json" := "json",
    "application/xml" := "xml",
    "text/xml" := "xml",
    "application/xhtml+xml" := "xml",
    "application/pdf" := "pdf",
    "image/png" := "png",
    "image/jpeg" := "jpg",
    "image/jpg" := "jpg",
    "image/gif" := "gif",
    "image/webp" := "webp",
    "image/svg+xml" := "svg",
    "image/bmp" := "bmp",
    "image/tiff" := "tiff",
    "video/mp4" := "mp4",
    "video/webm" := "webm",
    "video/ogg" := "ogv",
    "video/avi" := "avi",
    "video/mov" := "mov",
    "video/quicktime" := "mov",
    "video/x-msvideo" := "avi",
    "video/3gpp" := "3gp",
    "video/x-flv" := "flv",
    "audio/mp3" := "mp3",
    "audio/mpeg" := "mp3",
    "audio/wav" := "wav",
    "audio/ogg" := "ogg",
    "audio/aac" := "aac",
    "audio/flac" := "flac",
    "audio/x-wav" := "wav",
    "audio/x-ms-wma" := "wma"
  ]

  /** The extension derived from an unlisted `category/subtype`. */
  function SubtypeExtension(category: string, subtype: string): Option<string> {
    if category == "video" then Some(StripPrefix(subtype, "x-"))
    else if category == "audio" then Some(ReplaceWhole(StripPrefix(subtype, "x-"), "mpeg", "mp3"))
    else if category == "image" then Some(ReplaceFirst(StripPrefix(subtype, "x-"), "jpeg", "jpg"))
    else None
  }

  /** `getFileExtension`: the table entry, else a rewrite of the subtype for
      video, audio and image types of exactly two `/`-separated parts, else
      `txt`.  Whatever the type, the extension holds no `/`, so the download
      name it ends is a plain file name. */
  function FileExtension(mimeType: string): (ext: string)
    ensures '/' !in ext
  {
    if mimeType in Extensions then
      assert '/' !in Extensions[mimeType];
      Extensions[mimeType]
    else
      var parts := Split(mimeType, '/');
      if |parts| == 2 && SubtypeExtension(parts[0], parts[1]).Some? then
        SplitJoin(mimeType, '/');
        SubtypeExtensionKeepsOut(parts[0], parts[1]);
        SubtypeExtension(parts[0], parts[1]).value
      else "txt"
  }

  lemma SubtypeExtensionKeepsOut(category: string, subtype: string)
    requires '/' !in subtype && SubtypeExtension(category, subtype).Some?
    ensures '/' !in SubtypeExtension(category, subtype).value
  {
    var stripped := StripPrefix(subtype, "x-");
    assert '/' !in stripped by {
      if "x-" <= subtype {
        assert subtype == "x-" + stripped;
      }
    }
    if category == "image" {
      ReplaceFirstKeepsOut(stripped, "jpeg", "jpg", '/');
    }
  }

  /** Every listed type gets its table value (no table value is empty, so the
      `!extensions[mimeType]` test never sends a listed type down the rewrite path). */
  lemma ListedExtension(mimeType: string)
    requires mimeType in Extensions
    ensures FileExtension(mimeType) == Extensions[mimeType] && |FileExtension(mimeType)| > 0
  {
  }

  /** An unlisted `video/<sub>` downloads as `<sub>` without a leading `x-`. */
  lemma VideoExtension(sub: string)
    requires '/' !in sub && "video/" + sub !in Extensions
    ensures FileExtension("video/" + sub) == StripPrefix(sub, "x-")
  {
    assert "video/" + sub == "video" + ['/'] + sub;
    SplitTwo("video", sub, '/');
  }

  /** An unlisted `audio/<sub>` downloads as `<sub>` without a leading `x-`, with
      an exact `mpeg` renamed `mp3`. */
  lemma AudioExtension(sub: string)
    requires '/' !in sub && "audio/" + sub !in Extensions
    ensures FileExtension("audio/" + sub) == ReplaceWhole(StripPrefix(sub, "x-"), "mpeg", "mp3")
  {
    assert "audio/" + sub == "audio" + ['/'] + sub;
    SplitTwo("audio", sub, '/');
  }

  /** An unlisted `image/<sub>` downloads as `<sub>` without a leading `x-` and
      with its first `jpeg` renamed `jpg`. */
  lemma ImageExtension(sub: string)
    requires '/' !in sub && "image/" + sub !in Extensions
    ensures FileExtension("image/" + sub) == ReplaceFirst(StripPrefix(sub, "x-"), "jpeg", "jpg")
  {
    assert "image/" + sub == "image" + ['/'] + sub;
    SplitTwo("image", sub, '/');
  }

  /** An unlisted type whose `/`-count is not one, or whose category is not
      video, audio or image, downloads as `txt`. */
  lemma FallbackExtension(mimeType: string)
    requires mimeType !in Extensions
    requires Count(mimeType, '/') != 1 || !(Split(mimeType, '/')[0] in {"video", "audio", "image"})
    ensures FileExtension(mimeType) == "txt"
  {
    SplitCount(mimeType, '/');
  }

  /** `image/x-icon`, which the table does not list, downloads as `icon`. */
  lemma IconExtension()
    ensures FileExtension("image/x-icon") == "icon"
  {
    assert "image/" + "x-icon" == "image/x-icon";
    assert "image/x-icon" !in Extensions;
    ImageExtension("x-icon");
    assert StripPrefix("x-icon", "x-") == "icon";
    forall j | 0 <= j <= |"icon"|
      ensures !OccursAt("icon", "jpeg", j)
    {
      if j == 0 {
        assert "icon"[0..4][0] != "jpeg"[0];
      }
    }
    ReplaceFirstAbsent("icon", "jpeg", "jpg");
  }

  // ---------------------------------------------------------------------------
  // Previews (getPreview)
  // ---------------------------------------------------------------------------

  /** A media value that an element can load: a `data:`, `blob:` or `http` URL. */
  predicate IsPlayableSource(content: string) {
    "data:" <= content || "blob:" <= content || "http" <= content
  }

  /** The characters shown before the raw preview is cut. */
  const RawPreviewLimit := 1000

  /** The note appended to a cut raw preview. */
  function MoreCharacters(n: nat): string {
    "\n\n... +" + NatToString(n) + " more characters"
  }

  /** The text of the raw preview: at most the first 1000 characters, followed by
      a count of the rest when anything was cut. */
  function RawPreview(content: string): (text: string)
    ensures |content| <= RawPreviewLimit ==> text == content
    ensures |content| > RawPreviewLimit ==>
      text == content[..RawPreviewLimit] + MoreCharacters(|content| - RawPreviewLimit)
  {
    if |content| > RawPreviewLimit then
      content[..RawPreviewLimit] + MoreCharacters(|content| - RawPreviewLimit)
    else content[..|content|]
  }

  /** The count in the note, read back, is exactly the number of characters cut,
      so shown plus announced characters make up the whole value. */
  lemma RawPreviewAccountsForEveryCharacter(content: string)
    requires |content| > RawPreviewLimit
    ensures var text := RawPreview(content);
      var digits := NatToString(|content| - RawPreviewLimit);
      && text[..RawPreviewLimit] == content[..RawPreviewLimit]
      && text[RawPreviewLimit..] == "\n\n... +" + digits + " more characters"
      && RawPreviewLimit + DecimalValue(digits) == |content|
  {
    NatToStringRoundTrip(|content| - RawPreviewLimit);
  }

  /** What the preview area renders for a node. */
  datatype Preview =
    | Embedded(kind: PrimaryType)                  // <img>, <video>, <audio> or <embed> of the value
    | MediaFallback(kind: PrimaryType, length: nat) // placeholder card with the value's length
    | RenderedHtml                                  // the value as inner HTML
    | FormattedJson                                 // the value, pretty-printed when it parses
    | XmlSource                                     // the value as code
    | PlainText                                     // the value in a text block
    | Raw(text: string)                             // the truncated raw preview

  /** `getPreview`: a media value is embedded exactly when it is a playable
      source; the raw preview is reached only by unknown types outside `text/`. */
  function PreviewOf(mimeType: string, content: string): (pv: Preview)
    ensures IsMediaKind(GetPrimaryType(mimeType)) ==> (pv.Embedded? <==> IsPlayableSource(content))
    ensures pv.Raw? <==> GetPrimaryType(mimeType) == Unknown && !("text/" <= mimeType)
    ensures pv.Raw? ==> pv.text == RawPreview(content)
  {
    var kind := GetPrimaryType(mimeType);
    assert kind == Text ==> "text/" <= mimeType by {
      assert "text/" <= "text/plain";
    }
    if IsMediaKind(kind) then
      if IsPlayableSource(content) then Embedded(kind) else MediaFallback(kind, |content|)
    else if kind == Html then RenderedHtml
    else if kind == Json then FormattedJson
    else if kind == Xml then XmlSource
    else if "text/" <= mimeType then PlainText
    else Raw(RawPreview(content))
  }

  // ---------------------------------------------------------------------------
  // Downloads (handleDownload)
  // ---------------------------------------------------------------------------

  /** What the download button does. */
  datatype Download =
    | DirectLink(href: string, fileName: string, newTab: bool) // an anchor on the value itself
    | TextBlob(text: string, mimeType: string, fileName: string) // an anchor on a fresh blob of the value

  /** `clipboard-<kind>-<Date.now()>.<extension>`: it starts `clipboard-`, ends
      with the extension and, having no `/`, names a single file. */
  function DownloadFileName(mimeType: string, now: nat): (name: string)
    ensures "clipboard-" <= name && '/' !in name
    ensures var ext := FileExtension(mimeType);
      |name| > |ext| && name[|name| - |ext| - 1..] == "." + ext
  {
    var kind, digits, ext := KindName(GetPrimaryType(mimeType)), NatToString(now), FileExtension(mimeType);
    KindNameHasNoSlash(GetPrimaryType(mimeType));
    DigitsHaveNoSlash(digits);
    FileNameShape(kind, digits, ext);
    "clipboard-" + kind + "-" + digits + "." + ext
  }

  lemma KindNameHasNoSlash(k: PrimaryType)
    ensures '/' !in KindName(k)
  {
  }

  lemma DigitsHaveNoSlash(digits: string)
    requires AllDigits(digits)
    ensures '/' !in digits
  {
  }

  /** Joining slash-free parts into a download name. */
  lemma FileNameShape(kind: string, digits: string, ext: string)
    requires '/' !in kind && '/' !in digits && '/' !in ext
    ensures var name := "clipboard-" + kind + "-" + digits + "." + ext;
      && "clipboard-" <= name && '/' !in name
      && |name| > |ext| && name[|name| - |ext| - 1..] == "." + ext
  {
    var prefix := "clipboard-" + kind + "-" + digits;
    var name := prefix + "." + ext;
    assert name == prefix + ("." + ext);
    assert name[|prefix|..] == "." + ext;
  }

  /** `handleDownload`: a media value is downloaded through its own URL exactly
      when its preview embeds it, and only an `http` link opens a new tab;
      everything else becomes a blob of the value typed with the node's MIME
      type. */
  function DownloadOf(mimeType: string, content: string, now: nat): (d: Download)
    ensures d.fileName == DownloadFileName(mimeType, now)
    ensures d.DirectLink? <==> IsMediaKind(GetPrimaryType(mimeType)) && IsPlayableSource(content)
    ensures d.DirectLink? <==> PreviewOf(mimeType, content).Embedded?
    ensures d.DirectLink? ==> d.href == content && (d.newTab <==> !("blob:" <= content || "data:" <= content))
    ensures d.TextBlob? ==> d.text == content && d.mimeType == mimeType
  {
    var fileName := DownloadFileName(mimeType, now);
    if IsMediaKind(GetPrimaryType(mimeType)) && ("blob:" <= content || "data:" <= content) then
      DirectLink(content, fileName, false)
    else if IsMediaKind(GetPrimaryType(mimeType)) && "http" <= content then
      DirectLink(content, fileName, true)
    else
      TextBlob(content, mimeType, fileName)
  }
}
