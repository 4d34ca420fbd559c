/**
 * The `gdrive_search` tool (index.js:43-99): the Drive `q` expression built
 * from the user's text, the page size sent with it, and the text made from
 * the `files.list` reply. The reply is an input: its optional file list and
 * its optional continuation token.
 */
module Search {
  import opened Wrappers
  import opened JsString
  import opened Escaping
  import ReadFile

  const NotTrashed := "trashed = false"

  /** The MIME type the sheet condition names (index.js:64-66). */
  const SheetConditionMime := "application/vnd.google-sheets.spreadsheet"

  const NamePrefix := "name contains '"

  /** `name contains '<escaped>'` (index.js:60). */
  function NameCondition(userQuery: string): string {
    NamePrefix + Escape(userQuery) + "'"
  }

  function MimeCondition(mime: string): string {
    "mimeType = '" + mime + "'"
  }

  /** `userQuery.toLowerCase().includes("sheet")` (index.js:63). */
  predicate MentionsSheet(userQuery: string) {
    Contains(ToLower(userQuery), "sheet")
  }

  /** The disjuncts pushed onto `conditions`, with the sheet condition naming
      `sheetMime`. */
  function Conditions(userQuery: string, sheetMime: string): seq<string> {
    [NameCondition(userQuery)] + if MentionsSheet(userQuery) then [MimeCondition(sheetMime)] else []
  }

  /** The `q` expression, for a sheet condition naming `sheetMime`. */
  function QueryWith(query: string, sheetMime: string): string {
    var userQuery := Trim(query);
    if userQuery == [] then NotTrashed
    else "(" + Join(Conditions(userQuery, sheetMime), " or ") + ") and " + NotTrashed
  }

  /** The `q` expression the handler sends (index.js:44-70). */
  function SearchQuery(query: string): string {
    QueryWith(query, SheetConditionMime)
  }

  /** The handler's construction, step by step: `searchQuery` assigned in one
      of two branches, `conditions` grown by `push`. */
  method BuildSearchQuery(query: string) returns (searchQuery: string)
    ensures searchQuery == SearchQuery(query)
    ensures Trim(query) == [] ==> searchQuery == "trashed = false"
    ensures Trim(query) != [] ==> StartsWith(searchQuery, "(" + NameCondition(Trim(query)))
  {
    var userQuery := Trim(query);
    searchQuery := "";
    if userQuery == [] {
      searchQuery := "trashed = false";
    } else {
      var escapedQuery := EscapeQuotes(DoubleBackslashes(userQuery));
      var conditions: seq<string> := [];
      conditions := conditions + ["name contains '" + escapedQuery + "'"];
      assert conditions == [NameCondition(userQuery)];
      if Contains(ToLower(userQuery), "sheet") {
        conditions := conditions + [MimeCondition(SheetConditionMime)];
      }
      assert conditions == Conditions(userQuery, SheetConditionMime);
      searchQuery := "(" + Join(conditions, " or ") + ") and " + NotTrashed;
    }
    SearchQueryStart(query);
  }

  lemma SearchQueryStart(query: string)
    ensures Trim(query) == [] ==> SearchQuery(query) == "trashed = false"
    ensures Trim(query) != [] ==> StartsWith(SearchQuery(query), "(" + NameCondition(Trim(query)))
  {
    var u := Trim(query);
    if u != [] {
      QueryShape(query, SheetConditionMime);
      var p, rest := "(" + NameCondition(u), AfterName(u, SheetConditionMime);
      assert (p + rest)[..|p|] == p;
    }
  }

  /** The query is the bare `trashed = false` exactly when the user's text is
      empty or made only of characters `trim` removes. */
  lemma EmptyQueryListsAllUntrashed(query: string, sheetMime: string)
    ensures QueryWith(query, sheetMime) == NotTrashed <==> AllTrimmable(query)
  {
    if Trim(query) != [] {
      var q := QueryWith(query, sheetMime);
      assert q[0] == '(' != NotTrashed[0];
    }
  }

  /** What follows the name literal's closing quote. */
  function AfterName(userQuery: string, sheetMime: string): string {
    (if MentionsSheet(userQuery) then " or " + MimeCondition(sheetMime) else "") + ") and " + NotTrashed
  }

  /** For a non-empty text the query is the name condition, then the sheet
      condition exactly when the lowered text contains `sheet`, in
      parentheses, and `and trashed = false`. */
  lemma QueryShape(query: string, sheetMime: string)
    requires Trim(query) != []
    ensures var u := Trim(query);
      && 1 <= |Conditions(u, sheetMime)| <= 2
      && Conditions(u, sheetMime)[0] == NameCondition(u)
      && (|Conditions(u, sheetMime)| == 2 <==> MentionsSheet(u))
      && QueryWith(query, sheetMime) == "(" + NameCondition(u) + AfterName(u, sheetMime)
  {
    ConditionsShape(Trim(query), sheetMime);
  }

  lemma ConditionsShape(u: string, sheetMime: string)
    ensures 1 <= |Conditions(u, sheetMime)| <= 2
    ensures Conditions(u, sheetMime)[0] == NameCondition(u)
    ensures |Conditions(u, sheetMime)| == 2 <==> MentionsSheet(u)
    ensures "(" + Join(Conditions(u, sheetMime), " or ") + ") and " + NotTrashed
         == "(" + NameCondition(u) + AfterName(u, sheetMime)
  {
    var cs := Conditions(u, sheetMime);
    var n, m := NameCondition(u), MimeCondition(sheetMime);
    if MentionsSheet(u) {
      assert "(" + (n + " or " + m) + ") and " + NotTrashed == "(" + n + ((" or " + m) + ") and " + NotTrashed);
      assert cs == [n, m] && cs[1..] == [m];
    } else {
      assert "(" + n + ") and " + NotTrashed == "(" + n + ("" + ") and " + NotTrashed);
      assert cs == [n];
    }
  }

  /** Reading the query as Drive does: after `(name contains '` comes a
      literal that reads as exactly the trimmed user text, and it closes at
      the quote the builder placed, leaving the rest of the expression intact.
      No user text can end the literal early or inject further conditions. */
  lemma NameLiteralReadsBack(query: string, sheetMime: string)
    requires Trim(query) != []
    ensures var q := QueryWith(query, sheetMime);
      var prefix := "(" + NamePrefix;
      && StartsWith(q, prefix)
      && ScanLiteral(q[|prefix|..]) == Some(Scanned(Trim(query), AfterName(Trim(query), sheetMime)))
  {
    var u := Trim(query);
    QueryShape(query, sheetMime);
    NameConditionReadsBack("(", u, AfterName(u, sheetMime));
  }

  /** Wherever the name condition stands, the literal after its opening
      quote reads as exactly the user's text and closes at its own quote. */
  lemma NameConditionReadsBack(before: string, u: string, after: string)
    ensures var t := before + NameCondition(u) + after;
      var prefix := before + NamePrefix;
      && StartsWith(t, prefix)
      && ScanLiteral(t[|prefix|..]) == Some(Scanned(u, after))
  {
    var prefix := before + NamePrefix;
    var rest := Escape(u) + "'" + after;
    assert before + (NamePrefix + Escape(u) + "'") + after == prefix + rest;
    assert (prefix + rest)[..|prefix|] == prefix;
    LiteralClosesAtQuote(u, after);
  }

  const DefaultPageSize: real := 10.0

  /** JavaScript truthiness of an optional number (`undefined`, `0` and `-0`
      are falsy; `NaN` never reaches the handler). */
  predicate Truthy(n: Option<real>) {
    n.Some? && n.value != 0.0
  }

  /** `pageSize || 10` (index.js:74). */
  function PageSize(pageSize: Option<real>): real {
    if Truthy(pageSize) then pageSize.value else DefaultPageSize
  }

  /** The page size sent is never 0: it is the caller's value when that is
      truthy and 10 otherwise, so an explicit 0 also becomes 10. */
  lemma PageSizeDefault(pageSize: Option<real>)
    ensures PageSize(pageSize) != 0.0
    ensures pageSize.Some? && pageSize.value != 0.0 ==> PageSize(pageSize) == pageSize.value
    ensures pageSize == None || pageSize == Some(0.0) ==> PageSize(pageSize) == 10.0
  {
  }

  /** One entry of `res.data.files`; a field Drive left out prints as
      `undefined`. */
  datatype FileEntry = FileEntry(id: Option<string>, name: Option<string>, mimeType: Option<string>)

  /** `res.data` of `files.list`, with only the fields the handler reads. */
  datatype FileListResponse = FileListResponse(files: Option<seq<FileEntry>>, nextPageToken: Option<string>)

  /** A possibly-undefined string inside a template literal. */
  function Interpolate(v: Option<string>): string {
    match v
    case Some(s) => s
    case None => "undefined"
  }

  /** `${file.id} ${file.name} (${file.mimeType})` (index.js:81). */
  function FileLine(f: FileEntry): string {
    Interpolate(f.id) + " " + Interpolate(f.name) + " (" + Interpolate(f.mimeType) + ")"
  }

  function FileLines(fs: seq<FileEntry>): (lines: seq<string>)
    ensures |lines| == |fs|
    ensures forall i :: 0 <= i < |fs| ==> lines[i] == FileLine(fs[i])
  {
    if fs == [] then [] else [FileLine(fs[0])] + FileLines(fs[1..])
  }

  /** `res.data.files?.length ?? 0`. */
  function FileCount(files: Option<seq<FileEntry>>): nat {
    match files
    case Some(fs) => |fs|
    case None => 0
  }

  /** `fileList` as the template literal prints it: the joined lines, or
      `undefined` when the reply has no file list. */
  function Listing(files: Option<seq<FileEntry>>): string {
    match files
    case Some(fs) => Join(FileLines(fs), "\n")
    case None => "undefined"
  }

  /** `if (res.data.nextPageToken)`: present and non-empty. */
  predicate HasMore(token: Option<string>) {
    token.Some? && token.value != ""
  }

  const MoreResults := "More results available. Use pageToken: "

  function CountLine(files: Option<seq<FileEntry>>): string {
    "Found " + NatToDecimal(FileCount(files)) + " files:"
  }

  /** The pagination suffix appended when the token is truthy. */
  function MoreNote(token: Option<string>): string {
    if HasMore(token) then "\n\n" + MoreResults + token.value else ""
  }

  /** The `response` text (index.js:80-89). */
  function ResponseText(res: FileListResponse): string {
    CountLine(res.files) + "\n" + Listing(res.files) + MoreNote(res.nextPageToken)
  }

  predicate SingleLine(s: string) {
    '\n' !in s
  }

  /** No printed field of the entry holds a line break. */
  predicate EntrySingleLine(f: FileEntry) {
    SingleLine(Interpolate(f.id)) && SingleLine(Interpolate(f.name)) && SingleLine(Interpolate(f.mimeType))
  }

  /** The lines the listing contributes: one per file, a single empty line
      for an empty list, and `undefined` for an absent one. */
  function ListingLines(files: Option<seq<FileEntry>>): seq<string> {
    match files
    case None => ["undefined"]
    case Some(fs) => if fs == [] then [""] else FileLines(fs)
  }

  /** Read line by line, the reply is the count line, one line per file in
      the order Drive listed them, and, exactly when the token is truthy, an
      empty line and the continuation note carrying the token. */
  lemma {:induction false} ResponseLines(res: FileListResponse)
    requires res.files.Some? ==> forall i :: 0 <= i < |res.files.value| ==> EntrySingleLine(res.files.value[i])
    requires res.nextPageToken.Some? ==> SingleLine(res.nextPageToken.value)
    ensures Split(ResponseText(res), '\n') ==
      [CountLine(res.files)] + ListingLines(res.files) +
      (if HasMore(res.nextPageToken) then ["", MoreResults + res.nextPageToken.value] else [])
  {
    var head, listing := CountLine(res.files), Listing(res.files);
    CountLineSingle(res.files);
    ListingSplits(res.files);
    if HasMore(res.nextPageToken) {
      LinesWithNote(head, listing, res.nextPageToken.value);
    } else {
      LinesWithoutNote(head, listing);
    }
  }

  lemma LinesWithNote(head: string, listing: string, token: string)
    requires SingleLine(head) && SingleLine(token)
    ensures Split(head + "\n" + listing + ("\n\n" + MoreResults + token), '\n')
         == [head] + Split(listing, '\n') + ["", MoreResults + token]
  {
    var note := MoreResults + token;
    assert SingleLine(note);
    var start := head + "\n" + listing;
    assert start + ("\n\n" + MoreResults + token) == start + ("\n\n" + note);
    SplitLines3(head, listing, note, '\n');
  }

  lemma LinesWithoutNote(head: string, listing: string)
    requires SingleLine(head)
    ensures Split(head + "\n" + listing + "", '\n') == [head] + Split(listing, '\n') + []
  {
    assert head + "\n" + listing + "" == head + "\n" + listing;
    SplitLines2(head, listing);
    assert [head] + Split(listing, '\n') + [] == [head] + Split(listing, '\n');
  }

  lemma CountLineSingle(files: Option<seq<FileEntry>>)
    ensures SingleLine(CountLine(files))
  {
    var digits := NatToDecimal(FileCount(files));
    assert forall k :: 0 <= k < |digits| ==> digits[k] != '\n';
    assert SingleLine("Found " + digits + " files:");
  }

  lemma ListingSplits(files: Option<seq<FileEntry>>)
    requires files.Some? ==> forall i :: 0 <= i < |files.value| ==> EntrySingleLine(files.value[i])
    ensures Split(Listing(files), '\n') == ListingLines(files)
  {
    match files
    case None =>
      SplitNoSeparator("undefined", '\n');
    case Some(fs) =>
      if fs != [] {
        var lines := FileLines(fs);
        forall k | 0 <= k < |lines| ensures '\n' !in lines[k] {
          FileLineSingle(fs[k]);
        }
        SplitJoin(lines, '\n');
      }
  }

  lemma FileLineSingle(f: FileEntry)
    requires EntrySingleLine(f)
    ensures SingleLine(FileLine(f))
  {
    var i, n, m := Interpolate(f.id), Interpolate(f.name), Interpolate(f.mimeType);
    assert SingleLine(i + " " + n);
    assert SingleLine(i + " " + n + " (" + m + ")");
  }

  lemma SplitLines2(head: string, listing: string)
    requires SingleLine(head)
    ensures Split(head + "\n" + listing, '\n') == [head] + Split(listing, '\n')
  {
    SplitNoSeparator(head, '\n');
    SplitAppend(head, listing, '\n');
  }

  lemma SplitLines3(head: string, listing: string, note: string, c: char)
    requires c !in head && c !in note
    ensures Split(head + [c] + listing + ([c, c] + note), c) == [head] + Split(listing, c) + ["", note]
  {
    var tail := listing + [c] + ([c] + note);
    assert [c, c] + note == [c] + ([c] + note);
    assert head + [c] + listing + ([c, c] + note) == head + [c] + tail;
    SplitNote(note, c);
    SplitAppend(listing, [c] + note, c);
    SplitNoSeparator(head, c);
    SplitAppend(head, tail, c);
  }

  lemma SplitNote(note: string, c: char)
    requires c !in note
    ensures Split([c] + note, c) == ["", note]
  {
    SplitNoSeparator(note, c);
    SplitAppend([], note, c);
    assert [] + [c] + note == [c] + note;
  }

  /** The count line states the number of files, 0 for an absent list, in a
      form that reads back as that number. */
  lemma CountLineReadsBack(files: Option<seq<FileEntry>>)
    ensures var digits := NatToDecimal(FileCount(files));
      && CountLine(files) == "Found " + digits + " files:"
      && AllDigits(digits)
      && DecimalValue(digits) == (if files.Some? then |files.value| else 0)
  {
    DecimalRoundTrip(FileCount(files));
  }

  // ---- Finding: an absent file list is printed as `undefined` ----

  /** As written, a reply without a file list reads `Found 0 files:` followed
      by the word `undefined`, unlike a reply with an empty list. */
  lemma AbsentListPrintsUndefined(token: Option<string>)
    ensures ResponseText(FileListResponse(None, token)) ==
      CountLine(None) + "\n" + "undefined" + MoreNote(token)
    ensures CountLine(None) == CountLine(Some([]))
    ensures ResponseText(FileListResponse(None, token)) != ResponseText(FileListResponse(Some([]), token))
  {
    var withNone := ResponseText(FileListResponse(None, token));
    var withEmpty := ResponseText(FileListResponse(Some([]), token));
    assert Listing(Some([])) == "";
    assert |withNone| == |withEmpty| + 9;
  }

  /** The evident intent: an absent list is reported as an empty one. */
  function ResponseTextIntended(res: FileListResponse): string {
    ResponseText(res.(files := Some(res.files.GetOr([]))))
  }

  /** The corrected text agrees with the handler whenever Drive sends a list,
      and reports an absent list exactly as an empty one, whose listing is
      empty rather than `undefined`. */
  lemma IntendedTreatsAbsentAsEmpty(res: FileListResponse)
    ensures res.files.Some? ==> ResponseTextIntended(res) == ResponseText(res)
    ensures res.files.None? ==> ResponseTextIntended(res) == ResponseText(res.(files := Some([])))
    ensures Listing(Some([])) == ""
  {
  }

  // ---- Finding: the sheet condition names a MIME type no Drive file has ----

  /** As written, the sheet condition names a type outside Drive's native
      family, not the spreadsheet type the read handler exports as CSV; the
      read handler itself would download such a file and render it as base64. */
  lemma SheetConditionIsNotSpreadsheet()
    ensures SheetConditionMime != ReadFile.GoogleSpreadsheet
    ensures !ReadFile.IsNative(Some(SheetConditionMime))
    ensures ReadFile.PlanFor(Some(SheetConditionMime)) == ReadFile.Download(SheetConditionMime, ReadFile.Base64)
  {
    assert SheetConditionMime[23] == 's' != ReadFile.GoogleSpreadsheet[23];
    assert SheetConditionMime[..27][23] == 's' != ReadFile.NativePrefix[23];
    assert SheetConditionMime[0] == 'a';
    assert "text/"[0] == 't';
    assert SheetConditionMime[..5] != "text/";
    assert SheetConditionMime != ReadFile.Json;
  }

  /** The evident intent: the condition names Google's spreadsheet type. */
  function SearchQueryIntended(query: string): string {
    QueryWith(query, ReadFile.GoogleSpreadsheet)
  }

  /** The corrected query keeps the name literal exact, and when the text
      mentions `sheet` its second condition names the type that the read
      handler recognises as a native spreadsheet and exports as CSV. */
  lemma IntendedSheetConditionMatchesSpreadsheets(query: string)
    requires Trim(query) != [] && MentionsSheet(Trim(query))
    ensures SearchQueryIntended(query) ==
      "(" + NameCondition(Trim(query)) + " or " + MimeCondition(ReadFile.GoogleSpreadsheet) + ") and " + NotTrashed
    ensures ReadFile.PlanFor(Some(ReadFile.GoogleSpreadsheet)) == ReadFile.Export(ReadFile.Csv)
  {
    var u := Trim(query);
    var n, m := NameCondition(u), MimeCondition(ReadFile.GoogleSpreadsheet);
    assert "(" + n + " or " + m + ") and " + NotTrashed == "(" + n + ((" or " + m) + ") and " + NotTrashed);
    QueryShape(query, ReadFile.GoogleSpreadsheet);
    assert StartsWith(ReadFile.GoogleSpreadsheet, ReadFile.NativePrefix);
  }
}
