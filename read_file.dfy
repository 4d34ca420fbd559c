/**
 * The content-read dispatch of the `gdrive_read_file` tool (index.js:109-171):
 * a Google-native file (its MIME type starts with `application/vnd.google-apps`)
 * is exported to a format chosen by its sub-type, fetched as text; any other file is
 * downloaded raw and rendered as UTF-8 text when its MIME type is textual and
 * as base64 otherwise. The Drive calls are inputs: the file's metadata, the
 * text an export to a given target returns, and the downloaded bytes. The two
 * byte encoders are parameters too.
 */
module ReadFile {
  import opened Wrappers
  import opened JsString

  newtype byte = b: int | 0 <= b < 256

  const NativePrefix := "application/vnd.google-apps"
  const GoogleDocument := "application/vnd.google-apps.document"
  const GoogleSpreadsheet := "application/vnd.google-apps.spreadsheet"
  const GooglePresentation := "application/vnd.google-apps.presentation"
  const GoogleDrawing := "application/vnd.google-apps.drawing"

  const Markdown := "text/markdown"
  const Csv := "text/csv"
  const PlainText := "text/plain"
  const Png := "image/png"

  const OctetStream := "application/octet-stream"
  const Json := "application/json"

  /** The fields the handler asks `files.get` for; either may be absent. */
  datatype FileMetadata = FileMetadata(mimeType: Option<string>, name: Option<string>)

  /** The native sub-types the export `switch` names, and its default arm. */
  datatype NativeKind = Document | Spreadsheet | Presentation | Drawing | OtherNative

  /** The `switch` on the MIME type (index.js:119-134): each case label picks
      its kind, every other value falls to the default arm. */
  function NativeKindOf(mime: string): NativeKind {
    if mime == GoogleDocument then Document
    else if mime == GoogleSpreadsheet then Spreadsheet
    else if mime == GooglePresentation then Presentation
    else if mime == GoogleDrawing then Drawing
    else OtherNative
  }

  /** The case label of a named kind; the default arm has none. */
  function KindMime(k: NativeKind): Option<string> {
    match k
    case Document => Some(GoogleDocument)
    case Spreadsheet => Some(GoogleSpreadsheet)
    case Presentation => Some(GooglePresentation)
    case Drawing => Some(GoogleDrawing)
    case OtherNative => None
  }

  /** The export format assigned to `exportMimeType` in each arm. */
  function ExportTarget(k: NativeKind): string {
    match k
    case Document => Markdown
    case Spreadsheet => Csv
    case Presentation => PlainText
    case Drawing => Png
    case OtherNative => PlainText
  }

  /** The classifier and the case labels agree: a named kind is recognised
      from its label, and exactly the MIME types that are no label fall to
      the default arm. */
  lemma NativeKindOfLabels(mime: string)
    ensures forall k :: KindMime(k) == Some(mime) ==> NativeKindOf(mime) == k
    ensures NativeKindOf(mime) == OtherNative <==> forall k :: KindMime(k) != Some(mime)
    ensures NativeKindOf(mime) != OtherNative ==> KindMime(NativeKindOf(mime)) == Some(mime)
  {
    assert KindMime(NativeKindOf(mime)).Some? ==> KindMime(NativeKindOf(mime)) == Some(mime);
  }

  /** Which export format each kind gets: markdown only for documents, CSV
      only for spreadsheets, PNG only for drawings, and plain text for
      presentations and for every sub-type the switch does not name. */
  lemma ExportTargetTable(k: NativeKind)
    ensures ExportTarget(k) == Markdown <==> k == Document
    ensures ExportTarget(k) == Csv <==> k == Spreadsheet
    ensures ExportTarget(k) == Png <==> k == Drawing
    ensures ExportTarget(k) == PlainText <==> k == Presentation || k == OtherNative
  {
    assert Markdown != Csv && Markdown != Png && Markdown != PlainText;
    assert Csv != Png && Csv != PlainText && Png != PlainText;
  }

  /** `file.data.mimeType?.startsWith("application/vnd.google-apps")`. */
  predicate IsNative(mime: Option<string>) {
    mime.Some? && StartsWith(mime.value, NativePrefix)
  }

  /** `file.data.mimeType || "application/octet-stream"`: absent and empty
      both fall back. */
  function DownloadMime(mime: Option<string>): string {
    if mime.Some? && mime.value != "" then mime.value else OctetStream
  }

  /** The `isText` test (index.js:157-158). */
  predicate IsText(mime: string) {
    StartsWith(mime, "text/") || mime == Json
  }

  datatype Encoding = Utf8 | Base64

  /** What the handler does with a file: export it to a format, or download
      it and render the bytes in one encoding. */
  datatype ReadPlan = Export(format: string) | Download(mimeType: string, encoding: Encoding)

  function PlanFor(mime: Option<string>): ReadPlan {
    if IsNative(mime) then Export(ExportTarget(NativeKindOf(mime.value)))
    else
      var m := DownloadMime(mime);
      Download(m, if IsText(m) then Utf8 else Base64)
  }

  /** The export path is taken exactly for native MIME types, and then with
      the format the switch assigns; every other file is downloaded. */
  lemma ExportExactlyForNative(mime: Option<string>)
    ensures PlanFor(mime).Export? <==> mime.Some? && StartsWith(mime.value, NativePrefix)
    ensures PlanFor(mime).Export? ==> PlanFor(mime).format == ExportTarget(NativeKindOf(mime.value))
    ensures PlanFor(mime).Download? <==> !IsNative(mime)
  {
  }

  /** A download is rendered as UTF-8 exactly when its MIME type, after the
      fallback, starts with `text/` or is `application/json`. */
  lemma DownloadEncodingIff(mime: Option<string>)
    requires !IsNative(mime)
    ensures PlanFor(mime).mimeType == DownloadMime(mime)
    ensures PlanFor(mime).encoding == Utf8 <==> StartsWith(DownloadMime(mime), "text/") || DownloadMime(mime) == Json
    ensures PlanFor(mime).encoding == Base64 <==> !IsText(DownloadMime(mime))
  {
  }

  /** A file without a MIME type (or with an empty one) is downloaded as
      `application/octet-stream` and always rendered as base64. */
  lemma MissingMimeIsBase64(mime: Option<string>)
    requires mime == None || mime == Some("")
    ensures PlanFor(mime) == Download(OctetStream, Base64)
  {
    assert OctetStream[..5][0] == 'a' != "text/"[0];
  }

  /** The name shown in the header: `file.data.name || fileId`. */
  function DisplayName(name: Option<string>, fileId: string): string {
    if name.Some? && name.value != "" then name.value else fileId
  }

  function Header(fileId: string, meta: FileMetadata): string {
    "Contents of " + DisplayName(meta.name, fileId) + ":\n\n"
  }

  /** The text the tool returns. `exported(f)` is what exporting the file to
      format `f` returns, `media` the raw download, `utf8` and `base64` the
      two renderings of bytes. Only the input the plan selects is used. */
  function ContentsText(
    fileId: string, meta: FileMetadata,
    exported: string -> string, media: seq<byte>,
    utf8: seq<byte> -> string, base64: seq<byte> -> string): string
  {
    Header(fileId, meta) +
      match PlanFor(meta.mimeType)
      case Export(f) => exported(f)
      case Download(_, Utf8) => utf8(media)
      case Download(_, Base64) => base64(media)
  }

  /** Every reply starts with the header naming the file (its name when it
      has a non-empty one, its id otherwise), followed by exactly one of the
      three renderings, chosen by the plan. */
  lemma ContentsTextShape(
    fileId: string, meta: FileMetadata,
    exported: string -> string, media: seq<byte>,
    utf8: seq<byte> -> string, base64: seq<byte> -> string)
    ensures var text := ContentsText(fileId, meta, exported, media, utf8, base64);
      var head := "Contents of " + (if meta.name.Some? && meta.name.value != "" then meta.name.value else fileId) + ":\n\n";
      && StartsWith(text, head)
      && (IsNative(meta.mimeType) ==> text[|head|..] == exported(ExportTarget(NativeKindOf(meta.mimeType.value))))
      && (!IsNative(meta.mimeType) && IsText(DownloadMime(meta.mimeType)) ==> text[|head|..] == utf8(media))
      && (!IsNative(meta.mimeType) && !IsText(DownloadMime(meta.mimeType)) ==> text[|head|..] == base64(media))
  {
  }

  /** A native spreadsheet reads as its CSV export, not the plain-text default. */
  lemma SpreadsheetReadsAsCsv(
    fileId: string, name: Option<string>,
    exported: string -> string, media: seq<byte>,
    utf8: seq<byte> -> string, base64: seq<byte> -> string)
    ensures ContentsText(fileId, FileMetadata(Some(GoogleSpreadsheet), name), exported, media, utf8, base64)
         == Header(fileId, FileMetadata(Some(GoogleSpreadsheet), name)) + exported(Csv)
  {
    assert StartsWith(GoogleSpreadsheet, NativePrefix);
  }
}
