/** What reading a pasted document yields, field by field, and which failure it tells. */
module SnippetReading {
  import opened Wrappers
  import opened CommandTypes
  import opened SnippetTransfer

  type Fields = map<string, Json>

  predicate HasText(fields: Fields, key: string) {
    key in fields && fields[key].JString?
  }

  predicate IsBlank(text: string) {
    forall i | 0 <= i < |text| :: text[i] in " \t\r\n"
  }

  /** The text without the whitespace at its ends, and nothing else taken off. */
  ghost predicate IsTrimOf(trimmed: string, text: string) {
    && (trimmed != [] ==> trimmed[0] !in " \t\r\n" && trimmed[|trimmed| - 1] !in " \t\r\n")
    && exists left, right :: IsBlank(left) && IsBlank(right) && left + trimmed + right == text
  }

  lemma TrimmedIsTrim(text: string)
    ensures IsTrimOf(Trimmed(text), text)
    ensures Trimmed(text) == [] <==> IsBlank(text)
  {
    TrimmingTrims(text);
    var left, right := TrimmingTakesSpace(text);
    hide Trimmed;
    assert IsBlank(left) && IsBlank(right);
    assert left + Trimmed(text) + right == text;
    if Trimmed(text) != [] {
      assert text[|left|] == Trimmed(text)[0];
    }
  }

  /** No other text is a trim of it. */
  lemma TrimIsUnique(a: string, b: string, text: string)
    requires IsTrimOf(a, text) && IsTrimOf(b, text) && a != [] && b != []
    ensures a == b
  {
    hide IsBlank;
    var left, right :| IsBlank(left) && IsBlank(right) && left + a + right == text;
    var before, behind :| IsBlank(before) && IsBlank(behind) && before + b + behind == text;
    var lastA, lastB := |left| + |a| - 1, |before| + |b| - 1;
    assert text[|left|] == a[0] && text[|before|] == b[0];
    assert text[lastA] == a[|a| - 1] && text[lastB] == b[|b| - 1];
    NoBlankBefore(left, a + right, |before|);
    NoBlankBefore(before, b + behind, |left|);
    assert left + (a + right) == text && before + (b + behind) == text;
    NoBlankBehind(left + a, right, lastB);
    NoBlankBehind(before + b, behind, lastA);
    InTheMiddle(left, a, right);
    InTheMiddle(before, b, behind);
  }

  lemma InTheMiddle(left: string, middle: string, right: string)
    ensures (left + middle + right)[|left|..|left| + |middle|] == middle
  {
  }

  lemma NoBlankBefore(left: string, rest: string, at: nat)
    requires IsBlank(left) && at < |left + rest|
    ensures (left + rest)[at] !in " \t\r\n" ==> |left| <= at
  {
  }

  lemma NoBlankBehind(front: string, right: string, at: nat)
    requires IsBlank(right) && at < |front + right|
    ensures (front + right)[at] !in " \t\r\n" ==> at < |front|
  {
  }

  /** What the snippet read from an object holds. */
  ghost predicate IsReadFrom(fields: Fields, snippet: TransferSnippet) {
    && HasText(fields, "name") && IsTrimOf(snippet.name, fields["name"].text)
    && HasText(fields, "command") && snippet.command == fields["command"].text
    && (if HasText(fields, "folder") then IsTrimOf(snippet.folder, fields["folder"].text) else snippet.folder == [])
    && (snippet.favorite <==> "favorite" in fields && fields["favorite"] == JBool(true))
    && (snippet.danger == Some(Safe) <==> "danger" in fields && fields["danger"] == JString("safe"))
    && (snippet.danger == Some(Caution) <==> "danger" in fields && fields["danger"] == JString("caution"))
    && (snippet.danger == Some(Danger) <==> "danger" in fields && fields["danger"] == JString("danger"))
    && snippet.tags == (if "tags" in fields && fields["tags"].JArray? then Texts(fields["tags"].elements) else [])
  }

  /**
   An object is read exactly when its name is a text that is not blank and its command one that is not empty; it fails
   for want of a name before it does for want of a command, and the failure tells the place of the entry.
   */
  lemma EntriesAreReadFromTheirFields(fields: Fields, index: nat)
    ensures var named := HasText(fields, "name") && !IsBlank(fields["name"].text);
            var commanded := HasText(fields, "command") && fields["command"].text != [];
            var r := Entry(JObject(fields), index);
            && (r.Success? <==> named && commanded)
            && (r.Success? ==> IsReadFrom(fields, r.value))
            && (r.Failure? ==>
                  && r.error.entryIndex == index && r.error.detail == None
                  && r.error.error == (if named then EntryWithoutCommand else EntryWithoutName))
  {
    NamesAreTexts(fields, "name");
    NamesAreTexts(fields, "folder");
    DangersAreNamed(fields);
    hide Trimmed, IsTrimOf, IsBlank, Texts, DangerFrom, DangerName;
  }

  lemma NamesAreTexts(fields: Fields, key: string)
    ensures var trimmed := Trimmed(StringOr(JObject(fields), key));
            && (HasText(fields, key) ==>
                  IsTrimOf(trimmed, fields[key].text) && (trimmed == [] <==> IsBlank(fields[key].text)))
            && (!HasText(fields, key) ==> trimmed == [])
  {
    TrimmedIsTrim(StringOr(JObject(fields), key));
    hide Trimmed, IsTrimOf;
  }

  lemma DangersAreNamed(fields: Fields)
    ensures var danger := DangerFrom(StringOr(JObject(fields), "danger"));
            && (danger == Some(Safe) <==> "danger" in fields && fields["danger"] == JString("safe"))
            && (danger == Some(Caution) <==> "danger" in fields && fields["danger"] == JString("caution"))
            && (danger == Some(Danger) <==> "danger" in fields && fields["danger"] == JString("danger"))
  {
    DangersDiffer();
  }

  lemma DangersDiffer()
    ensures DangerName(Safe) != DangerName(Caution) && DangerName(Safe) != DangerName(Danger)
    ensures DangerName(Caution) != DangerName(Danger)
  {
    assert DangerName(Safe)[0] == 's' && DangerName(Caution)[0] == 'c' && DangerName(Danger)[0] == 'd';
  }

  lemma NothingElseIsRead(entry: Json, index: nat)
    requires !entry.JObject?
    ensures Entry(entry, index) == Failure(ParseFailure(UnsupportedDocument, index, None))
  {
  }

  /** The tags are the texts of the list, in their order, without what is no text. */
  lemma {:induction false} TagsAreTheTexts(front: seq<Json>, next: Json, back: seq<Json>)
    ensures Texts(front + [next] + back) == Texts(front) + (if next.JString? then [next.text] else []) + Texts(back)
  {
    if back == [] {
      assert front + [next] + back == front + [next];
      assert (front + [next])[..|front|] == front;
    } else {
      var n := |back| - 1;
      var all := front + [next] + back;
      assert all[..|all| - 1] == front + [next] + back[..n] && all[|all| - 1] == back[n];
      TagsAreTheTexts(front, next, back[..n]);
    }
  }

  /** Why a document is rejected that has no readable list: the failure tells the version when that is the reason. */
  lemma RejectionsMean(document: Json)
    ensures var fields := if document.JObject? then document.fields else map[];
            && (!document.JArray? && !document.JObject? ==>
                  FromJson(document) == Failure(ParseFailure(UnsupportedDocument, 0, None)))
            && (document.JObject? && "snippets" !in fields && "name" !in fields && "command" !in fields ==>
                  FromJson(document) == Failure(ParseFailure(UnsupportedDocument, 0, None)))
            && (document.JObject? && "snippets" in fields && "version" in fields
                && (!fields["version"].JInteger? || 1 < fields["version"].number < 0x8000_0000_0000_0000) ==>
                  FromJson(document) == Failure(ParseFailure(UnsupportedVersion, 0, Some(fields["version"]))))
            && (document.JObject? && "snippets" in fields && "version" !in fields && !fields["snippets"].JArray? ==>
                  FromJson(document) == Failure(ParseFailure(UnsupportedDocument, 0, None)))
            && (document.JObject? && "snippets" in fields && "version" !in fields && fields["snippets"].JArray? ==>
                  FromJson(document) == FromJson(fields["snippets"]))
  {
    hide Entries, Entry;
  }

  /** The text of a field, empty when there is none. */
  predicate IsTextOf(text: string, document: Json, key: string) {
    if document.JObject? && HasText(document.fields, key) then text == document.fields[key].text else text == []
  }

  /** An import call is read entry by entry like a pasted list, each with the folder and the row its element names. */
  lemma ImportEntriesAreRead(elements: seq<Json>)
    ensures var read, r := FromJson(JArray(elements)), ImportFromJson(JArray(elements));
            && (r.Success? <==> read.Success?)
            && (r.Failure? ==> r.error == read.error)
            && (r.Success? ==>
                  && |r.value| == |read.value| == |elements|
                  && forall k | 0 <= k < |elements| ::
                       && r.value[k].snippet == read.value[k]
                       && IsTextOf(r.value[k].folderId, elements[k], "folderId")
                       && IsTextOf(r.value[k].replacing, elements[k], "replaces"))
  {
    hide Entries, Entry;
  }
}
