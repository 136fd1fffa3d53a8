/** The JSON documents snippets are copied and pasted in (snippet_transfer.hpp), from the parsed tree on. */
module SnippetTransfer {
  import opened Wrappers
  import opened CommandTypes

  /** A parsed document; an integer has at most 64 bits, signed or unsigned. */
  datatype Json =
    | JNull
    | JBool(flag: bool)
    | JInteger(number: int)
    | JFloat(text: string)
    | JString(text: string)
    | JArray(elements: seq<Json>)
    | JObject(fields: map<string, Json>)

  const CURRENT_VERSION := 1

  datatype ParseError = UnsupportedDocument | UnsupportedVersion | EntryWithoutName | EntryWithoutCommand

  /** detail: the rejected version. */
  datatype ParseFailure = ParseFailure(error: ParseError, entryIndex: nat, detail: Option<Json>)

  type ParseResult = Result<seq<TransferSnippet>, ParseFailure>

  function Reject(error: ParseError, index: nat): ParseFailure {
    ParseFailure(error, index, None)
  }

  // ---------- trimming ----------

  predicate IsSpace(c: char) {
    c == ' ' || c == '\t' || c == '\r' || c == '\n'
  }

  /** The first place that is not whitespace, the length when there is none. */
  function FirstNotSpace(text: string): (first: nat)
    ensures first <= |text| && (forall i | 0 <= i < first :: IsSpace(text[i]))
    ensures first < |text| ==> !IsSpace(text[first])
  {
    if text == [] || !IsSpace(text[0]) then 0 else 1 + FirstNotSpace(text[1..])
  }

  /** Behind the last place that is not whitespace, 0 when there is none. */
  function BehindLastNotSpace(text: string): (behind: nat)
    ensures behind <= |text| && (forall i | behind <= i < |text| :: IsSpace(text[i]))
    ensures behind > 0 ==> !IsSpace(text[behind - 1])
  {
    if text == [] || !IsSpace(text[|text| - 1]) then |text| else BehindLastNotSpace(text[..|text| - 1])
  }

  function Trimmed(text: string): string {
    if FirstNotSpace(text) == |text| then [] else text[FirstNotSpace(text)..BehindLastNotSpace(text)]
  }

  predicate IsTrimmed(text: string) {
    text != [] ==> !IsSpace(text[0]) && !IsSpace(text[|text| - 1])
  }

  ghost predicate AllSpace(text: string) {
    forall i | 0 <= i < |text| :: IsSpace(text[i])
  }

  /** Trimming leaves no whitespace at the ends, and what has none there alone. */
  lemma TrimmingTrims(text: string)
    ensures IsTrimmed(Trimmed(text)) && (Trimmed(text) == text <==> IsTrimmed(text))
  {
    var first, behind := FirstNotSpace(text), BehindLastNotSpace(text);
    hide FirstNotSpace, BehindLastNotSpace;
    if first < |text| {
      assert first < behind;
      assert Trimmed(text)[0] == text[first] && Trimmed(text)[behind - first - 1] == text[behind - 1];
    }
  }

  /** Trimming takes whitespace off both ends and nothing else. */
  lemma TrimmingTakesSpace(text: string) returns (left: string, right: string)
    ensures AllSpace(left) && AllSpace(right) && text == left + Trimmed(text) + right
  {
    var first, behind := FirstNotSpace(text), BehindLastNotSpace(text);
    hide FirstNotSpace, BehindLastNotSpace;
    if first == |text| {
      left, right := text, [];
    } else {
      assert first < behind;
      left, right := text[..first], text[behind..];
    }
  }

  // ---------- reading ----------

  /** The text of a field, empty when it is missing or no text. */
  function StringOr(entry: Json, key: string): string {
    if entry.JObject? && key in entry.fields && entry.fields[key].JString? then entry.fields[key].text else []
  }

  function DangerName(danger: DangerLevel): string {
    match danger
    case Safe => "safe"
    case Caution => "caution"
    case Danger => "danger"
  }

  function DangerFrom(name: string): Option<DangerLevel> {
    if name == DangerName(Safe) then Some(Safe)
    else if name == DangerName(Caution) then Some(Caution)
    else if name == DangerName(Danger) then Some(Danger)
    else None
  }

  /** The texts of a list, without what is no text. */
  function Texts(elements: seq<Json>): seq<string> {
    if elements == [] then []
    else
      var last := elements[|elements| - 1];
      Texts(elements[..|elements| - 1]) + if last.JString? then [last.text] else []
  }

  function TagsOf(fields: map<string, Json>): seq<string> {
    if "tags" in fields && fields["tags"].JArray? then Texts(fields["tags"].elements) else []
  }

  function FavoriteOf(fields: map<string, Json>): bool {
    "favorite" in fields && fields["favorite"].JBool? && fields["favorite"].flag
  }

  function Entry(entry: Json, index: nat): Result<TransferSnippet, ParseFailure> {
    if !entry.JObject? then Failure(Reject(UnsupportedDocument, index))
    else
      var name, command := Trimmed(StringOr(entry, "name")), StringOr(entry, "command");
      if name == [] then Failure(Reject(EntryWithoutName, index))
      else if command == [] then Failure(Reject(EntryWithoutCommand, index))
      else
        Success(TransferSnippet(name, command, Trimmed(StringOr(entry, "folder")), TagsOf(entry.fields),
                                FavoriteOf(entry.fields), DangerFrom(StringOr(entry, "danger"))))
  }

  /** The first n entries, or the failure of the first one that cannot be read. */
  function Entries(elements: seq<Json>, n: nat): (r: ParseResult)
    requires n <= |elements|
    ensures r.Success? ==> |r.value| == n
  {
    if n == 0 then Success([])
    else
      match Entries(elements, n - 1)
      case Failure(failure) => ParseResult.Failure(failure)
      case Success(before) =>
        match Entry(elements[n - 1], n - 1)
        case Failure(failure) => ParseResult.Failure(failure)
        case Success(snippet) => ParseResult.Success(before + [snippet])
  }

  /** An integer read as a signed one of 64 bits; a large unsigned one wraps around. */
  function Int64(number: int): int {
    if number >= 0x8000_0000_0000_0000 then number - 0x1_0000_0000_0000_0000 else number
  }

  function FromJson(document: Json): ParseResult {
    if document.JArray? then Entries(document.elements, |document.elements|)
    else if !document.JObject? then Failure(Reject(UnsupportedDocument, 0))
    else if "snippets" !in document.fields then
      if "name" in document.fields || "command" in document.fields then
        match Entry(document, 0)
        case Failure(failure) => ParseResult.Failure(failure)
        case Success(snippet) => ParseResult.Success([snippet])
      else Failure(Reject(UnsupportedDocument, 0))
    else if "version" in document.fields && !Supported(document.fields["version"]) then
      Failure(ParseFailure(UnsupportedVersion, 0, Some(document.fields["version"])))
    else
      var snippets := document.fields["snippets"];
      if !snippets.JArray? then Failure(Reject(UnsupportedDocument, 0))
      else Entries(snippets.elements, |snippets.elements|)
  }

  predicate Supported(version: Json) {
    version.JInteger? && Int64(version.number) <= CURRENT_VERSION
  }

  /** Reads an entry; the tags are gathered one by one. */
  method EntryFromJson(entry: Json, index: nat) returns (r: Result<TransferSnippet, ParseFailure>)
    ensures r == Entry(entry, index)
  {
    if !entry.JObject? {
      return Failure(Reject(UnsupportedDocument, index));
    }
    var snippet := TransferSnippet(
      Trimmed(StringOr(entry, "name")), StringOr(entry, "command"), Trimmed(StringOr(entry, "folder")), [], false,
      None);
    if snippet.name == [] {
      return Failure(Reject(EntryWithoutName, index));
    }
    if snippet.command == [] {
      return Failure(Reject(EntryWithoutCommand, index));
    }
    if "tags" in entry.fields && entry.fields["tags"].JArray? {
      var tags := entry.fields["tags"].elements;
      for i := 0 to |tags|
        invariant snippet == TransferSnippet(
            Trimmed(StringOr(entry, "name")), StringOr(entry, "command"), Trimmed(StringOr(entry, "folder")),
            Texts(tags[..i]), false, None)
      {
        assert tags[..i + 1][..i] == tags[..i];
        if tags[i].JString? {
          snippet := snippet.(tags := snippet.tags + [tags[i].text]);
        }
      }
      assert tags[..|tags|] == tags;
    }
    if "favorite" in entry.fields && entry.fields["favorite"].JBool? {
      snippet := snippet.(favorite := entry.fields["favorite"].flag);
    }
    r := Success(snippet.(danger := DangerFrom(StringOr(entry, "danger"))));
  }

  lemma OneEntryMore(elements: seq<Json>, n: nat)
    requires n < |elements| && Entries(elements, n).Success?
    ensures match Entry(elements[n], n)
            case Failure(failure) => Entries(elements, |elements|) == ParseResult.Failure(failure)
            case Success(snippet) =>
              Entries(elements, n + 1) == ParseResult.Success(Entries(elements, n).value + [snippet])
  {
    hide Entry;
    if Entry(elements[n], n).Failure? {
      FailuresStay(elements, n + 1, |elements|);
    }
  }

  lemma NoEntries(elements: seq<Json>)
    ensures Entries(elements, 0) == Success([])
  {
  }

  method EntriesFromJson(elements: seq<Json>) returns (r: ParseResult)
    ensures r == Entries(elements, |elements|)
  {
    hide Entry, Entries;
    var snippets: seq<TransferSnippet> := [];
    NoEntries(elements);
    for index := 0 to |elements|
      invariant Entries(elements, index) == Success(snippets)
    {
      OneEntryMore(elements, index);
      var snippet := EntryFromJson(elements[index], index);
      if snippet.Failure? {
        return Failure(snippet.error);
      }
      snippets := snippets + [snippet.value];
    }
    r := Success(snippets);
  }

  lemma FailureStays(elements: seq<Json>, n: nat)
    requires n < |elements| && Entries(elements, n).Failure?
    ensures Entries(elements, n + 1) == Entries(elements, n)
  {
    hide Entry;
  }

  lemma {:induction false} FailuresStay(elements: seq<Json>, n: nat, m: nat)
    requires n <= m <= |elements| && Entries(elements, n).Failure?
    ensures Entries(elements, m) == Entries(elements, n)
    decreases m
  {
    hide Entries;
    if n < m {
      FailuresStay(elements, n, m - 1);
      FailureStays(elements, m - 1);
    }
  }

  // ---------- printing ----------

  function TextArray(texts: seq<string>): Json {
    JArray(seq(|texts|, i requires 0 <= i < |texts| => JString(texts[i])))
  }

  /** The entry of a snippet; an unrated one has no danger. */
  function EntryOf(snippet: TransferSnippet): Json {
    var fields := map[
                    "name" := JString(snippet.name), "command" := JString(snippet.command),
                    "folder" := JString(snippet.folder), "tags" := TextArray(snippet.tags),
                    "favorite" := JBool(snippet.favorite)];
    JObject(if snippet.danger.Some? then fields["danger" := JString(DangerName(snippet.danger.value))] else fields)
  }

  function DocumentOf(snippets: seq<TransferSnippet>): Json {
    JObject(map[
              "version" := JInteger(CURRENT_VERSION),
              "snippets" := JArray(seq(|snippets|, i requires 0 <= i < |snippets| => EntryOf(snippets[i])))])
  }

  method ToJson(snippets: seq<TransferSnippet>) returns (document: Json)
    ensures document == DocumentOf(snippets)
  {
    var entries: seq<Json> := [];
    for i := 0 to |snippets|
      invariant |entries| == i && forall k | 0 <= k < i :: entries[k] == EntryOf(snippets[k])
    {
      var snippet := snippets[i];
      var fields := map["name" := JString(snippet.name)];
      fields := fields["command" := JString(snippet.command)];
      fields := fields["folder" := JString(snippet.folder)];
      fields := fields["tags" := TextArray(snippet.tags)];
      if snippet.danger.Some? {
        fields := fields["danger" := JString(DangerName(snippet.danger.value))];
      }
      fields := fields["favorite" := JBool(snippet.favorite)];
      assert fields == EntryOf(snippet).fields;
      entries := entries + [JObject(fields)];
    }
    document := JObject(map["version" := JInteger(CURRENT_VERSION), "snippets" := JArray(entries)]);
    assert entries == DocumentOf(snippets).fields["snippets"].elements;
  }

  // ---------- there and back ----------

  /** What survives being printed and read: texts the reader does not change or refuse. */
  predicate Printable(snippet: TransferSnippet) {
    snippet.name != [] && IsTrimmed(snippet.name) && IsTrimmed(snippet.folder) && snippet.command != []
  }

  lemma {:induction false} TextsReadBack(texts: seq<string>)
    ensures Texts(TextArray(texts).elements) == texts
  {
    if texts != [] {
      var n := |texts| - 1;
      TextsReadBack(texts[..n]);
      assert TextArray(texts).elements[..n] == TextArray(texts[..n]).elements;
    }
  }

  lemma DangerReadsBack(danger: Option<DangerLevel>)
    ensures DangerFrom(if danger.Some? then DangerName(danger.value) else []) == danger
    ensures danger.Some? ==> DangerName(danger.value) != []
  {
    assert DangerName(Safe)[0] == 's' && DangerName(Caution)[0] == 'c' && DangerName(Danger)[0] == 'd';
  }

  lemma EntryReadsBackIffPrintable(snippet: TransferSnippet, index: nat)
    ensures Entry(EntryOf(snippet), index) == Success(snippet) <==> Printable(snippet)
  {
    TextsReadBack(snippet.tags);
    DangerReadsBack(snippet.danger);
    TrimmingTrims(snippet.name);
    TrimmingTrims(snippet.folder);
    hide Trimmed, DangerFrom, DangerName, Texts;
  }

  /** All or nothing: the entries read are each entry read, the failure is that of the first unreadable one. */
  lemma {:induction false} EntriesMean(elements: seq<Json>, n: nat)
    requires n <= |elements|
    ensures Entries(elements, n).Success? <==> forall i | 0 <= i < n :: Entry(elements[i], i).Success?
    ensures Entries(elements, n).Success? ==>
              && |Entries(elements, n).value| == n
              && forall i | 0 <= i < n :: Entry(elements[i], i) == Success(Entries(elements, n).value[i])
    ensures Entries(elements, n).Failure? ==>
              exists i | 0 <= i < n ::
                && Entry(elements[i], i) == Failure(Entries(elements, n).error)
                && forall k | 0 <= k < i :: Entry(elements[k], k).Success?
  {
    hide Entry;
    if n > 0 {
      EntriesMean(elements, n - 1);
    }
  }

  lemma {:induction false} EntriesAre(elements: seq<Json>, snippets: seq<TransferSnippet>, n: nat)
    requires n <= |elements| == |snippets| && forall i | 0 <= i < n :: Entry(elements[i], i) == Success(snippets[i])
    ensures Entries(elements, n) == Success(snippets[..n])
  {
    hide Entry;
    if n > 0 {
      EntriesAre(elements, snippets, n - 1);
      assert snippets[..n] == snippets[..n - 1] + [snippets[n - 1]];
    }
  }

  lemma EntriesReadBackIffPrintable(elements: seq<Json>, snippets: seq<TransferSnippet>)
    requires |elements| == |snippets|
    requires forall i | 0 <= i < |elements| :: Entry(elements[i], i) == Success(snippets[i]) <==> Printable(snippets[i])
    ensures Entries(elements, |elements|) == Success(snippets)
            <==> forall i | 0 <= i < |snippets| :: Printable(snippets[i])
  {
    hide Entry, Printable, Entries;
    EntriesMean(elements, |elements|);
    if forall i | 0 <= i < |snippets| :: Printable(snippets[i]) {
      EntriesAre(elements, snippets, |elements|);
      assert snippets[..|snippets|] == snippets;
    }
  }

  lemma DocumentIsRead(snippets: seq<TransferSnippet>)
    ensures var elements := DocumentOf(snippets).fields["snippets"].elements;
            && FromJson(DocumentOf(snippets)) == Entries(elements, |elements|)
            && |elements| == |snippets| && forall i | 0 <= i < |snippets| :: elements[i] == EntryOf(snippets[i])
  {
    hide Entries, EntryOf;
  }

  /** Printed snippets read back as they were exactly when names and folders are trimmed and nothing needed is empty. */
  lemma DocumentReadsBackIffPrintable(snippets: seq<TransferSnippet>)
    ensures FromJson(DocumentOf(snippets)) == Success(snippets)
            <==> forall i | 0 <= i < |snippets| :: Printable(snippets[i])
  {
    DocumentIsRead(snippets);
    var elements := DocumentOf(snippets).fields["snippets"].elements;
    hide Entry, EntryOf, Printable, FromJson, DocumentOf, Entries;
    forall i | 0 <= i < |snippets| ensures Entry(elements[i], i) == Success(snippets[i]) <==> Printable(snippets[i]) {
      EntryReadsBackIffPrintable(snippets[i], i);
    }
    EntriesReadBackIffPrintable(elements, snippets);
  }

  lemma EntriesReadArePrintable(entry: Json, index: nat)
    ensures Entry(entry, index).Success? ==> Printable(Entry(entry, index).value)
  {
    TrimmingTrims(StringOr(entry, "name"));
    TrimmingTrims(StringOr(entry, "folder"));
  }

  /** Every snippet of an accepted document has a name and a command, and a trimmed name and folder. */
  lemma AcceptedSnippetsArePrintable(document: Json)
    ensures FromJson(document).Success? ==>
              forall i | 0 <= i < |FromJson(document).value| :: Printable(FromJson(document).value[i])
  {
    if FromJson(document).Success? {
      forall entry: Json, index: nat ensures Entry(entry, index).Success? ==> Printable(Entry(entry, index).value) {
        EntriesReadArePrintable(entry, index);
      }
      hide Entry, Printable;
      if document.JArray? {
        EntriesMean(document.elements, |document.elements|);
      } else if "snippets" in document.fields {
        EntriesMean(document.fields["snippets"].elements, |document.fields["snippets"].elements|);
      }
    }
  }

  /** Whatever document is accepted, printing what was read and reading it again changes nothing. */
  lemma AcceptedDocumentsReadBack(document: Json)
    ensures FromJson(document).Success? ==>
              FromJson(DocumentOf(FromJson(document).value)) == FromJson(document)
  {
    if FromJson(document).Success? {
      AcceptedSnippetsArePrintable(document);
      DocumentReadsBackIffPrintable(FromJson(document).value);
    }
  }

  /** A bare array is read like the versioned document of the same entries, a single entry like an array of it. */
  lemma FormsAgree(elements: seq<Json>, entry: Json)
    requires entry.JObject? && "snippets" !in entry.fields && ("name" in entry.fields || "command" in entry.fields)
    ensures FromJson(JArray(elements))
            == FromJson(JObject(map["version" := JInteger(CURRENT_VERSION), "snippets" := JArray(elements)]))
            == FromJson(JObject(map["snippets" := JArray(elements)]))
    ensures FromJson(entry) == FromJson(JArray([entry]))
  {
    hide Entry;
    assert Entries([entry], 0) == Success([]);
    assert Entry(entry, 0).Success? ==> [] + [Entry(entry, 0).value] == [Entry(entry, 0).value];
  }

  /**
   A document with a version is read exactly when that is an integer of at most 1, or one so large that it wraps
   around, and its snippets are an array of readable entries. Without snippets the version does not count: the document
   is read as a single entry.
   */
  lemma VersionIsAcceptedIff(fields: map<string, Json>)
    requires "version" in fields
    requires fields["version"].JInteger? ==>
               -0x8000_0000_0000_0000 <= fields["version"].number < 0x1_0000_0000_0000_0000
    ensures var version := fields["version"];
            FromJson(JObject(fields)).Success? <==>
            if "snippets" in fields then
              && version.JInteger? && (version.number <= CURRENT_VERSION || version.number >= 0x8000_0000_0000_0000)
              && fields["snippets"].JArray?
              && forall i | 0 <= i < |fields["snippets"].elements| :: Entry(fields["snippets"].elements[i], i).Success?
            else ("name" in fields || "command" in fields) && Entry(JObject(fields), 0).Success?
  {
    if "snippets" in fields && fields["snippets"].JArray? {
      EntriesMean(fields["snippets"].elements, |fields["snippets"].elements|);
    }
  }

  // ---------- import entries ----------

  function ImportEntryOf(entry: ImportEntry): Json {
    var snippet := entry.snippet;
    JObject(map[
              "name" := JString(snippet.name), "command" := JString(snippet.command),
              "folder" := JString(snippet.folder), "tags" := TextArray(snippet.tags),
              "favorite" := JBool(snippet.favorite),
              "danger" := JString(if snippet.danger.Some? then DangerName(snippet.danger.value) else []),
              "folderId" := JString(entry.folderId), "replaces" := JString(entry.replacing)])
  }

  function ImportDocumentOf(entries: seq<ImportEntry>): Json {
    JArray(seq(|entries|, i requires 0 <= i < |entries| => ImportEntryOf(entries[i])))
  }

  type ImportResult = Result<seq<ImportEntry>, ParseFailure>

  /** The snippets with the folders and the rows their entries name. */
  function WithTargets(elements: seq<Json>, snippets: seq<TransferSnippet>): (entries: seq<ImportEntry>)
    requires |snippets| <= |elements|
    ensures |entries| == |snippets|
  {
    seq(|snippets|, i requires 0 <= i < |snippets| =>
        ImportEntry(snippets[i], StringOr(elements[i], "folderId"), StringOr(elements[i], "replaces")))
  }

  lemma OneTargetMore(elements: seq<Json>, snippets: seq<TransferSnippet>, next: TransferSnippet)
    requires |snippets| < |elements|
    ensures var element := elements[|snippets|];
            WithTargets(elements, snippets + [next])
            == WithTargets(elements, snippets)
               + [ImportEntry(next, StringOr(element, "folderId"), StringOr(element, "replaces"))]
  {
    hide StringOr;
  }

  lemma NoTargets(elements: seq<Json>)
    ensures WithTargets(elements, []) == []
  {
  }

  function ImportEntries(elements: seq<Json>, n: nat): ImportResult
    requires n <= |elements|
  {
    match Entries(elements, n)
    case Failure(failure) => ImportResult.Failure(failure)
    case Success(snippets) => ImportResult.Success(WithTargets(elements, snippets))
  }

  function ImportFromJson(document: Json): ImportResult {
    if !document.JArray? then Failure(Reject(UnsupportedDocument, 0))
    else ImportEntries(document.elements, |document.elements|)
  }

  method ImportEntriesToJson(entries: seq<ImportEntry>) returns (document: Json)
    ensures document == ImportDocumentOf(entries)
  {
    var elements: seq<Json> := [];
    for i := 0 to |entries|
      invariant |elements| == i && forall k | 0 <= k < i :: elements[k] == ImportEntryOf(entries[k])
    {
      elements := elements + [ImportEntryOf(entries[i])];
    }
    document := JArray(elements);
    assert elements == ImportDocumentOf(entries).elements;
  }

  method ImportEntriesFromJson(document: Json) returns (r: ImportResult)
    ensures r == ImportFromJson(document)
  {
    if !document.JArray? {
      return Failure(Reject(UnsupportedDocument, 0));
    }
    hide Entry, Entries, StringOr, WithTargets;
    var elements := document.elements;
    var entries: seq<ImportEntry> := [];
    NoEntries(elements);
    NoTargets(elements);
    for index := 0 to |elements|
      invariant Entries(elements, index).Success? && entries == WithTargets(elements, Entries(elements, index).value)
    {
      OneEntryMore(elements, index);
      var snippet := EntryFromJson(elements[index], index);
      if snippet.Failure? {
        return Failure(snippet.error);
      }
      OneTargetMore(elements, Entries(elements, index).value, snippet.value);
      entries := entries
        + [ImportEntry(snippet.value, StringOr(elements[index], "folderId"), StringOr(elements[index], "replaces"))];
    }
    r := Success(entries);
  }

  lemma ImportEntryReadsBackIffPrintable(entry: ImportEntry, index: nat)
    ensures Entry(ImportEntryOf(entry), index) == Success(entry.snippet) <==> Printable(entry.snippet)
    ensures StringOr(ImportEntryOf(entry), "folderId") == entry.folderId
    ensures StringOr(ImportEntryOf(entry), "replaces") == entry.replacing
  {
    var snippet := entry.snippet;
    TextsReadBack(snippet.tags);
    DangerReadsBack(snippet.danger);
    TrimmingTrims(snippet.name);
    TrimmingTrims(snippet.folder);
    hide Trimmed, DangerFrom, DangerName, Texts;
  }

  /** Import entries come through the call unchanged exactly when their snippets do. */
  lemma ImportReadsBackIffPrintable(entries: seq<ImportEntry>)
    ensures ImportFromJson(ImportDocumentOf(entries)) == Success(entries)
            <==> forall i | 0 <= i < |entries| :: Printable(entries[i].snippet)
  {
    var elements := ImportDocumentOf(entries).elements;
    var snippets := seq(|entries|, i requires 0 <= i < |entries| => entries[i].snippet);
    forall i | 0 <= i < |entries|
      ensures Entry(elements[i], i) == Success(snippets[i]) <==> Printable(entries[i].snippet)
      ensures StringOr(elements[i], "folderId") == entries[i].folderId
      ensures StringOr(elements[i], "replaces") == entries[i].replacing
    {
      ImportEntryReadsBackIffPrintable(entries[i], i);
    }
    hide Entry, ImportEntryOf, Printable, StringOr, Entries;
    EntriesReadBackIffPrintable(elements, snippets);
    assert WithTargets(elements, snippets) == entries;
    assert ImportFromJson(ImportDocumentOf(entries)) == Success(entries) ==>
        Entries(elements, |elements|) == Success(snippets) by {
      if ImportFromJson(ImportDocumentOf(entries)) == Success(entries) {
        var read := Entries(elements, |elements|).value;
        assert forall i | 0 <= i < |read| :: read[i] == WithTargets(elements, read)[i].snippet;
        assert read == snippets;
      }
    }
  }

  /** Whatever import call is accepted, sending what was read again changes nothing. */
  lemma AcceptedImportsReadBack(document: Json)
    ensures ImportFromJson(document).Success? ==>
              ImportFromJson(ImportDocumentOf(ImportFromJson(document).value)) == ImportFromJson(document)
  {
    if ImportFromJson(document).Success? {
      var entries := ImportFromJson(document).value;
      var elements := document.elements;
      forall i | 0 <= i < |elements| ensures Entry(elements[i], i).Success? ==> Printable(Entry(elements[i], i).value) {
        EntriesReadArePrintable(elements[i], i);
      }
      hide Entry, Printable, StringOr, ImportDocumentOf;
      EntriesMean(elements, |elements|);
      assert forall i | 0 <= i < |entries| :: entries[i].snippet == Entry(elements[i], i).value;
      ImportReadsBackIffPrintable(entries);
    }
  }
}
