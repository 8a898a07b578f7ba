/** The editable document of the frontend: auto-saved content kept as a
    bounded history of versions in browser storage, the editor's dirty flag,
    restoring a version, the status line, and the download requests it sends
    to the document endpoints. Browser storage is two fields of the editor;
    clocks and the outcome of each request are parameters. */
module EditableDocument {
  import opened Wrappers
  import opened Strings
  import opened JsonValue
  import DocumentController

  const MaxVersions := 10
  /** A migrated legacy text is dated this long before the load. */
  const LegacyAge := MaxVersions * 60000

  const UnsavedChanges := "Unsaved changes"
  const SavingText := "Saving..."
  const AllSaved := "All changes saved"
  const ErrorSaving := "Error saving content"
  const Ready := "Ready"

  const Attachment := "attachment"
  const FilenameWord := "filename"
  const ExportName := "document_export"
  const PdfExtension := ".pdf"
  /** "document_export.pdf". */
  const DefaultDownloadName := ExportName + PdfExtension
  const ExportTitle := "Exported Document"
  const ExportSectionTitle := "Main Content"

  datatype Version = Version(timestamp: int, content: string)

  datatype SaveStatus = Idle | Saving | Saved | Error | Restored

  datatype DownloadStatus = DownloadIdle | DownloadingPdf | DownloadingDocx | PdfError | DocxError | DocxQueued

  /** What the versions key of browser storage holds: nothing (or the empty
      text), a list of versions, or text that is not JSON. */
  datatype StoredVersions = NoVersions | VersionList(list: seq<Version>) | NotJson

  /** `versions.some(v => v.content === content)`. */
  predicate HasContent(versions: seq<Version>, content: string) {
    exists i :: 0 <= i < |versions| && versions[i].content == content
  }

  function Min(a: int, b: int): int { if a <= b then a else b }

  /** `[v, ...versions].slice(0, MAX_VERSIONS)`, shared by a save and the
      migration of legacy content. */
  function Prepend(v: Version, versions: seq<Version>): seq<Version> {
    ([v] + versions)[..Min(|versions| + 1, MaxVersions)]
  }

  /** The new version comes first, the earlier ones follow in their order,
      and only the oldest beyond the bound are dropped. */
  lemma PrependShape(v: Version, versions: seq<Version>)
    ensures var r := Prepend(v, versions);
            && 1 <= |r| <= MaxVersions
            && r[0] == v
            && r[1..] == versions[..Min(|versions|, MaxVersions - 1)]
            && (|versions| < MaxVersions ==> r == [v] + versions)
  {
    var r := Prepend(v, versions);
    assert r[1..] == ([v] + versions)[1..Min(|versions| + 1, MaxVersions)];
  }

  /** The list after migrating a legacy text: prepended only when it is a
      non-empty text that no version already holds. */
  function Migrated(loaded: seq<Version>, legacy: Option<string>, now: int): seq<Version> {
    if Given(legacy) && !HasContent(loaded, legacy.value) then Prepend(Version(now - LegacyAge, legacy.value), loaded)
    else loaded
  }

  /** Migration never grows a bounded list past the bound, keeps the list
      when the text is already there, and otherwise puts the text first. */
  lemma MigratedShape(loaded: seq<Version>, legacy: Option<string>, now: int)
    ensures |loaded| <= MaxVersions ==> |Migrated(loaded, legacy, now)| <= MaxVersions
    ensures !Given(legacy) || HasContent(loaded, legacy.value) ==> Migrated(loaded, legacy, now) == loaded
    ensures Given(legacy) && !HasContent(loaded, legacy.value) ==>
              Migrated(loaded, legacy, now)[0] == Version(now - LegacyAge, legacy.value)
    ensures Given(legacy) ==> HasContent(Migrated(loaded, legacy, now), legacy.value)
  {
    if Given(legacy) && !HasContent(loaded, legacy.value) {
      PrependShape(Version(now - LegacyAge, legacy.value), loaded);
    }
  }

  /** The timestamp `versions.find(v => v.content === content)` yields. */
  function FirstTimestamp(versions: seq<Version>, content: string): (t: Option<int>)
    ensures t.None? <==> !HasContent(versions, content)
    ensures t.Some? ==> exists i :: 0 <= i < |versions| && versions[i] == Version(t.value, content)
                                     && forall j :: 0 <= j < i ==> versions[j].content != content
  {
    if versions == [] then None
    else if versions[0].content == content then Some(versions[0].timestamp)
    else
      var t := FirstTimestamp(versions[1..], content);
      assert HasContent(versions[1..], content) ==> HasContent(versions, content);
      assert HasContent(versions, content) ==> versions[0].content == content || HasContent(versions[1..], content);
      if t.Some? then
        ghost var i :| 0 <= i < |versions[1..]| && versions[1..][i] == Version(t.value, content)
                      && forall j :: 0 <= j < i ==> versions[1..][j].content != content;
        assert versions[i + 1] == Version(t.value, content);
        t
      else t
  }

  /** The status line: a restored version's date, or a fixed text. */
  datatype StatusMessage = RestoredFrom(timestamp: int) | Text(text: string)

  /** `getStatusMessage`. A restored version is dated by the first version
      with the current content, or by the clock when there is none or its
      timestamp is 0. */
  function GetStatusMessage(status: SaveStatus, dirty: bool, versions: seq<Version>, current: string, now: int)
    : (m: StatusMessage)
    ensures m.RestoredFrom? <==> status == Restored
    ensures m == Text(UnsavedChanges) <==> status == Idle && dirty
    ensures m == Text(AllSaved) <==>
              status == Saved || (status == Idle && !dirty && |versions| > 0 && versions[0].content == current)
    ensures m == Text(Ready) <==>
              status == Idle && !dirty && !(|versions| > 0 && versions[0].content == current)
    ensures m == Text(SavingText) <==> status == Saving
    ensures m == Text(ErrorSaving) <==> status == Error
  {
    match status
    case Restored =>
      var t := FirstTimestamp(versions, current);
      RestoredFrom(if t.Some? && t.value != 0 then t.value else now)
    case Idle =>
      if dirty then Text(UnsavedChanges)
      else if |versions| > 0 && versions[0].content == current then Text(AllSaved)
      else Text(Ready)
    case Saving => Text(SavingText)
    case Saved => Text(AllSaved)
    case Error => Text(ErrorSaving)
  }

  /** The editor's two download formats. */
  datatype Format = PdfFormat | DocxFormat

  /** The request a download sends, if any. */
  datatype DownloadRequest = NoRequest | PdfRequest(body: Json) | DocxRequest(body: Json)

  /** How the request went: a success (with the `Content-Disposition` header
      for a PDF, if any), or a failure of any kind. */
  datatype FetchOutcome = FetchOk(disposition: Option<string>) | FetchFailed

  /** The body of the PDF request. */
  function PdfBody(content: string): Json {
    JObj([(DocumentController.HtmlKey, JStr(content)), (DocumentController.FilenameKey, JStr(ExportName))])
  }

  /** The body of the DOCX request: the whole content as one section. */
  function DocxBody(content: string): Json {
    JObj([(DocumentController.TitleKey, JStr(ExportTitle)),
          (DocumentController.SectionsKey,
           JArr([JObj([(DocumentController.TitleKey, JStr(ExportSectionTitle)),
                       (DocumentController.ContentKey, JStr(content))])]))])
  }

  // ---------------------------------------------------------------------
  // The download name: `/filename[^;=\n]*=((['"]).*?\2|[^;\n]*)/`
  // ---------------------------------------------------------------------

  /** The characters `.` does not match. */
  predicate LineTerminator(c: char) {
    c == '\n' || c == '\r' || c == '\U{2028}' || c == '\U{2029}'
  }

  /** The end of the run `[^;=\n]*` that starts at `j`. */
  function NameRunEnd(s: string, j: nat): (e: nat)
    requires j <= |s|
    ensures j <= e <= |s|
    ensures forall k :: j <= k < e ==> s[k] != ';' && s[k] != '=' && s[k] != '\n'
    ensures e < |s| ==> s[e] == ';' || s[e] == '=' || s[e] == '\n'
    decreases |s| - j
  {
    if j == |s| || s[j] == ';' || s[j] == '=' || s[j] == '\n' then j else NameRunEnd(s, j + 1)
  }

  /** The end of the run `[^;\n]*` that starts at `j`. */
  function ValueRunEnd(s: string, j: nat): (e: nat)
    requires j <= |s|
    ensures j <= e <= |s|
    ensures forall k :: j <= k < e ==> s[k] != ';' && s[k] != '\n'
    ensures e < |s| ==> s[e] == ';' || s[e] == '\n'
    decreases |s| - j
  {
    if j == |s| || s[j] == ';' || s[j] == '\n' then j else ValueRunEnd(s, j + 1)
  }

  /** Where the lazy `.*?\2` stops: the first `q` at or after `j` with no
      line terminator before it, if there is one. */
  function ClosingQuote(s: string, j: nat, q: char): (c: Option<nat>)
    requires j <= |s|
    ensures c.Some? ==> j <= c.value < |s| && s[c.value] == q
                        && forall k :: j <= k < c.value ==> s[k] != q && !LineTerminator(s[k])
    ensures c.None? ==> forall k :: j <= k < |s| && s[k] == q ==> exists m :: j <= m < k && LineTerminator(s[m])
    decreases |s| - j
  {
    if j == |s| then None
    else if s[j] == q then Some(j)
    else if LineTerminator(s[j]) then None
    else ClosingQuote(s, j + 1, q)
  }

  /** The first group when the value starts at `k`: a quoted text with its
      quotes, or else the run up to `;` or a line feed. */
  function ValueGroup(s: string, k: nat): string
    requires k <= |s|
  {
    if k < |s| && (s[k] == '\'' || s[k] == '"') && ClosingQuote(s, k + 1, s[k]).Some? then
      s[k..ClosingQuote(s, k + 1, s[k]).value + 1]
    else s[k..ValueRunEnd(s, k)]
  }

  /** The match that starts at `i`, if one does. */
  function MatchAt(s: string, i: nat): Option<string>
    requires i + |FilenameWord| <= |s|
  {
    if s[i..i + |FilenameWord|] != FilenameWord then None
    else
      var e := NameRunEnd(s, i + |FilenameWord|);
      if e < |s| && s[e] == '=' then Some(ValueGroup(s, e + 1)) else None
  }

  /** `filenameRegex.exec(s)`'s first group, searching from `i`. */
  function FilenameGroup(s: string, i: nat): Option<string>
    decreases |s| - i
  {
    if i + |FilenameWord| > |s| then None
    else if MatchAt(s, i).Some? then MatchAt(s, i)
    else FilenameGroup(s, i + 1)
  }

  /** `.replace(/['"]/g, '')`. */
  function StripQuotes(s: string): (r: string)
    ensures |r| <= |s|
    ensures forall k :: 0 <= k < |r| ==> r[k] != '\'' && r[k] != '"'
    ensures (forall k :: 0 <= k < |s| ==> s[k] != '\'' && s[k] != '"') ==> r == s
  {
    if s == [] then ""
    else if s[0] == '\'' || s[0] == '"' then StripQuotes(s[1..])
    else [s[0]] + StripQuotes(s[1..])
  }

  /** The name a PDF download is saved under. */
  function DownloadFilename(disposition: Option<string>): string {
    if disposition.Some? && disposition.value != "" && Contains(disposition.value, Attachment) then
      var g := FilenameGroup(disposition.value, 0);
      if g.Some? && g.value != "" then StripQuotes(g.value) else DefaultDownloadName
    else DefaultDownloadName
  }

  /** No header, or one without `attachment`, gives the default name. */
  lemma DownloadFilenameDefault(disposition: Option<string>)
    requires disposition.None? || !Contains(disposition.value, Attachment)
    ensures DownloadFilename(disposition) == DefaultDownloadName
  {
  }

  /** The header the raw-PDF endpoint sends for a sanitised name `safe`
      yields `safe + ".pdf"` again. */
  lemma DispositionRoundTrip(safe: string)
    requires forall k :: 0 <= k < |safe| ==> DocumentController.SafeChar(safe[k])
    ensures DownloadFilename(Some(DocumentController.Disposition(safe))) == safe + PdfExtension
  {
    var d := DocumentController.Disposition(safe);
    assert d[..|Attachment|] == Attachment;
    HeaderGroup(safe);
    var ext := PdfExtension;
    StripQuotesAppend(['"'], safe, ext);
  }

  /** The header's first group is the quoted name. */
  lemma HeaderGroup(safe: string)
    requires forall k :: 0 <= k < |safe| ==> DocumentController.SafeChar(safe[k])
    ensures FilenameGroup(DocumentController.Disposition(safe), 0) == Some(['"'] + (safe + PdfExtension + "\""))
  {
    var d := DocumentController.Disposition(safe);
    var start := DocumentController.DispositionStart;
    assert forall i :: 0 <= i < 12 ==> d[i] == start[i];
    FilenameGroupSkips(d, 0, 12);
    HeaderMatch(safe);
  }

  /** The match at the header's `filename` captures the quoted name. */
  lemma HeaderMatch(safe: string)
    requires forall k :: 0 <= k < |safe| ==> DocumentController.SafeChar(safe[k])
    ensures 12 + |FilenameWord| <= |DocumentController.Disposition(safe)|
    ensures MatchAt(DocumentController.Disposition(safe), 12) == Some(['"'] + (safe + PdfExtension + "\""))
  {
    var d := DocumentController.Disposition(safe);
    var start := DocumentController.DispositionStart;
    assert forall i :: 12 <= i < 22 ==> d[i] == start[i];
    assert d[12..20] == FilenameWord;
    assert NameRunEnd(d, 20) == 20;
    var c := 22 + |safe| + 4;
    QuoteRun(safe);
    ClosingQuoteAt(d, 22, '"', c);
    assert d[21..c + 1] == ['"'] + (safe + PdfExtension + "\"");
  }

  /** Between the header's opening quote and its closing one there is
      neither a quote nor a line terminator. */
  lemma QuoteRun(safe: string)
    requires forall k :: 0 <= k < |safe| ==> DocumentController.SafeChar(safe[k])
    ensures var d := DocumentController.Disposition(safe);
            && |d| == 22 + |safe| + 5
            && d[21] == '"' && d[22 + |safe| + 4] == '"'
            && forall k :: 22 <= k < 22 + |safe| + 4 ==> d[k] != '"' && !LineTerminator(d[k])
  {
    var d := DocumentController.Disposition(safe);
    forall k | 22 <= k < 22 + |safe| + 4
      ensures d[k] != '"' && !LineTerminator(d[k])
    {
      if k < 22 + |safe| {
        assert d[k] == safe[k - 22];
      }
    }
  }

  /** Positions before `j` where no `filename` can start are skipped. */
  lemma {:induction false} FilenameGroupSkips(s: string, i: nat, j: nat)
    requires i <= j <= |s| - |FilenameWord|
    requires forall k :: i <= k < j ==> s[k] != 'f'
    ensures FilenameGroup(s, i) == FilenameGroup(s, j)
    decreases j - i
  {
    if i < j {
      assert s[i..i + |FilenameWord|][0] == s[i];
      FilenameGroupSkips(s, i + 1, j);
    }
  }

  /** The lazy quote search stops at the first matching quote. */
  lemma {:induction false} ClosingQuoteAt(s: string, j: nat, q: char, c: nat)
    requires j <= c < |s| && s[c] == q
    requires forall k :: j <= k < c ==> s[k] != q && !LineTerminator(s[k])
    ensures ClosingQuote(s, j, q) == Some(c)
    decreases c - j
  {
    if j < c {
      ClosingQuoteAt(s, j + 1, q, c);
    }
  }

  /** Stripping quotes from `q + safe + tail` where `q` and `tail` hold only
      the quotes around a quote-free name. */
  lemma StripQuotesAppend(q: string, safe: string, ext: string)
    requires q == ['"'] && ext == PdfExtension
    requires forall k :: 0 <= k < |safe| ==> DocumentController.SafeChar(safe[k])
    ensures StripQuotes(q + (safe + ext + "\"")) == safe + ext
  {
    var s := q + (safe + ext + "\"");
    assert s[1..] == safe + ext + "\"";
    StripQuotesSnoc(safe + ext);
  }

  /** A quote-free text followed by one closing quote loses only the quote. */
  lemma {:induction false} StripQuotesSnoc(s: string)
    requires forall k :: 0 <= k < |s| ==> s[k] != '\'' && s[k] != '"'
    ensures StripQuotes(s + "\"") == s
  {
    if s == [] {
      assert StripQuotes("\"") == StripQuotes("");
    } else {
      assert (s + "\"")[1..] == s[1..] + "\"";
      StripQuotesSnoc(s[1..]);
      assert s == [s[0]] + s[1..];
    }
  }

  /** The second member of a two-member object is found when the names
      differ in their first letter. */
  lemma GetSecond(a: (string, Json), b: (string, Json))
    requires a.0 != [] && b.0 != [] && a.0[0] != b.0[0]
    ensures Get([a, b], b.0) == Some(b.1)
  {
    assert [a, b][1..] == [b];
  }

  /** The DOCX request the editor sends is always accepted by the document
      endpoint's validation, so only the queue can refuse it. */
  lemma DocxBodyIsValid(content: string, id: Json, custom: string)
    ensures DocumentController.PolicyReply(DocumentController.Docx, DocxBody(content),
                                           DocumentController.Queued(id, custom)).status == 202
  {
    var body := DocxBody(content);
    var section := JObj([(DocumentController.TitleKey, JStr(ExportSectionTitle)),
                         (DocumentController.ContentKey, JStr(content))]);
    assert DocumentController.Member(body, DocumentController.TitleKey) == Some(JStr(ExportTitle));
    GetSecond((DocumentController.TitleKey, JStr(ExportTitle)), (DocumentController.SectionsKey, JArr([section])));
    assert DocumentController.PolicyShape(body);
    assert DocumentController.Member(section, DocumentController.TitleKey) == Some(JStr(ExportSectionTitle));
    GetSecond((DocumentController.TitleKey, JStr(ExportSectionTitle)), (DocumentController.ContentKey, JStr(content)));
    assert DocumentController.WellFormedSection(section);
    DocumentController.PolicyReplyCases(DocumentController.Docx, body, DocumentController.Queued(id, custom));
  }

  /** The name the editor asks for survives sanitising unchanged. */
  lemma ExportNameIsSafe()
    ensures forall k :: 0 <= k < |ExportName| ==> DocumentController.SafeChar(ExportName[k])
    ensures DocumentController.SanitizeFilename(ExportName) == ExportName
  {
    assert forall k :: 0 <= k < |ExportName| ==> DocumentController.SafeChar(ExportName[k]);
  }

  /** The PDF endpoint downloads a rendered body whose file name is safe
      under that name. */
  lemma RawPdfNamed(content: string, name: string)
    requires content != ""
    requires DocumentController.SanitizeFilename(name) == name
    ensures DocumentController.GenerateRawPdf(
              JObj([(DocumentController.HtmlKey, JStr(content)), (DocumentController.FilenameKey, JStr(name))]),
              DocumentController.PdfRendered)
            == DocumentController.Download(DocumentController.Disposition(name))
  {
    var body := JObj([(DocumentController.HtmlKey, JStr(content)), (DocumentController.FilenameKey, JStr(name))]);
    assert DocumentController.Member(body, DocumentController.HtmlKey) == Some(JStr(content));
    GetSecond((DocumentController.HtmlKey, JStr(content)), (DocumentController.FilenameKey, JStr(name)));
    assert DocumentController.Member(body, DocumentController.FilenameKey) == Some(JStr(name));
    assert Truthy(JStr(content));
  }

  /** The PDF request the editor sends for non-empty content is rendered and
      downloaded under the name it asked for. */
  lemma PdfBodyDownloads(content: string)
    requires content != ""
    ensures var r := DocumentController.GenerateRawPdf(PdfBody(content), DocumentController.PdfRendered);
            && r.Download?
            && DownloadFilename(Some(r.disposition)) == DefaultDownloadName
  {
    ExportNameIsSafe();
    RawPdfNamed(content, ExportName);
    DispositionRoundTrip(ExportName);
  }

  class DocumentEditor {
    var currentContent: string
    var lastSavedContent: string
    var versions: seq<Version>
    var saveStatus: SaveStatus
    var isDirty: bool
    var downloadStatus: DownloadStatus
    /** Browser storage: the versions key and the legacy single-text key. */
    var storedVersions: StoredVersions
    var legacyContent: Option<string>

    /** The dirty flag follows the content, as the effect on the current and
        last saved content keeps it. */
    predicate Valid()
      reads this
    {
      isDirty == (currentContent != lastSavedContent)
    }

    /** The component before its first effect runs, over the given storage. */
    constructor (stored: StoredVersions, legacy: Option<string>)
      ensures Valid()
      ensures currentContent == "" && lastSavedContent == "" && versions == []
      ensures saveStatus == Idle && !isDirty && downloadStatus == DownloadIdle
      ensures storedVersions == stored && legacyContent == legacy
    {
      currentContent := "";
      lastSavedContent := "";
      versions := [];
      saveStatus := Idle;
      isDirty := false;
      downloadStatus := DownloadIdle;
      storedVersions := stored;
      legacyContent := legacy;
    }

    /** The mount effect: reads the stored list, migrates a legacy text into
        it, and opens the latest version. Text that is not JSON, or a failed
        write of the migrated list, is an error that leaves everything, the
        legacy key included, as it was. */
    method Load(now: int, storageFails: bool)
      requires Valid()
      modifies this
      ensures Valid()
      ensures var loaded := if old(storedVersions).VersionList? then old(storedVersions).list else [];
              var writes := Given(old(legacyContent)) && !HasContent(loaded, old(legacyContent).value);
              var fails := old(storedVersions).NotJson? || (writes && storageFails);
              && (fails ==>
                    && saveStatus == Error && versions == old(versions)
                    && currentContent == old(currentContent) && lastSavedContent == old(lastSavedContent)
                    && storedVersions == old(storedVersions) && legacyContent == old(legacyContent))
              && (!fails ==>
                    && versions == Migrated(loaded, old(legacyContent), now)
                    && legacyContent == (if Given(old(legacyContent)) then None else old(legacyContent))
                    && storedVersions == (if writes then VersionList(versions) else old(storedVersions))
                    && (|versions| > 0 ==> currentContent == lastSavedContent == versions[0].content && saveStatus == Saved)
                    && (|versions| == 0 ==> currentContent == old(currentContent) && lastSavedContent == old(lastSavedContent)
                                            && saveStatus == old(saveStatus)))
      ensures downloadStatus == old(downloadStatus)
    {
      var loaded: seq<Version> := [];
      match storedVersions {
        case NotJson =>
          saveStatus := Error;
          return;
        case NoVersions =>
        case VersionList(list) =>
          loaded := list;
      }
      if Given(legacyContent) {
        if !HasContent(loaded, legacyContent.value) {
          if storageFails {
            saveStatus := Error;
            return;
          }
          loaded := Prepend(Version(now - LegacyAge, legacyContent.value), loaded);
          storedVersions := VersionList(loaded);
        }
        legacyContent := None;
      }
      versions := loaded;
      if |loaded| > 0 {
        currentContent := loaded[0].content;
        lastSavedContent := loaded[0].content;
        saveStatus := Saved;
      }
      isDirty := currentContent != lastSavedContent;
    }

    /** The debounced save, when it fires. It is skipped when the text is
        the last saved one and already the latest version; a failed write
        to storage is an error that keeps the list. */
    method Save(contentToSave: string, now: int, storageFails: bool)
      requires Valid()
      modifies this
      ensures Valid()
      ensures currentContent == old(currentContent) && downloadStatus == old(downloadStatus)
      ensures legacyContent == old(legacyContent)
      ensures var skip := contentToSave == old(lastSavedContent) && |old(versions)| > 0
                          && old(versions)[0].content == contentToSave;
              && (skip ==>
                    && versions == old(versions) && lastSavedContent == old(lastSavedContent)
                    && storedVersions == old(storedVersions)
                    && saveStatus == (if old(saveStatus) == Saving then Saved else old(saveStatus)))
              && (!skip && storageFails ==>
                    && versions == old(versions) && lastSavedContent == old(lastSavedContent)
                    && storedVersions == old(storedVersions) && saveStatus == Error)
              && (!skip && !storageFails ==>
                    && versions == Prepend(Version(now, contentToSave), old(versions))
                    && storedVersions == VersionList(versions)
                    && lastSavedContent == contentToSave && saveStatus == Saved)
    {
      if contentToSave == lastSavedContent && |versions| > 0 && versions[0].content == contentToSave {
        if saveStatus == Saving {
          saveStatus := Saved;
        }
        return;
      }
      saveStatus := Saving;
      if storageFails {
        saveStatus := Error;
        return;
      }
      var updated := Prepend(Version(now, contentToSave), versions);
      storedVersions := VersionList(updated);
      versions := updated;
      lastSavedContent := contentToSave;
      saveStatus := Saved;
      isDirty := currentContent != lastSavedContent;
    }

    /** `handleEditorChange`: takes the new text, and schedules a save (and
        resets the status) exactly when it differs from the last saved one. */
    method EditorChange(newContent: string) returns (saveScheduled: bool)
      requires Valid()
      modifies this`currentContent, this`isDirty, this`saveStatus
      ensures Valid()
      ensures currentContent == newContent
      ensures saveScheduled <==> newContent != lastSavedContent
      ensures isDirty == saveScheduled
      ensures saveStatus == if saveScheduled then Idle else old(saveStatus)
    {
      currentContent := newContent;
      isDirty := newContent != lastSavedContent;
      saveScheduled := newContent != lastSavedContent;
      if saveScheduled {
        saveStatus := Idle;
      }
    }

    /** `handleRestoreVersion`: the version's text becomes current and last
        saved, and the list is untouched. */
    method RestoreVersion(v: Version)
      requires Valid()
      modifies this`currentContent, this`lastSavedContent, this`saveStatus, this`isDirty
      ensures Valid()
      ensures currentContent == v.content && lastSavedContent == v.content
      ensures saveStatus == Restored && !isDirty
    {
      currentContent := v.content;
      lastSavedContent := v.content;
      saveStatus := Restored;
      isDirty := false;
    }

    /** `handleDownload`, up to the answer: no request for empty content;
        otherwise the PDF or DOCX request, then the name the PDF is saved
        under or the new download status. */
    method Download(format: Format, outcome: FetchOutcome) returns (request: DownloadRequest, savedAs: Option<string>)
      modifies this`downloadStatus
      ensures currentContent == "" ==> request == NoRequest && savedAs == None && downloadStatus == DownloadIdle
      ensures currentContent != "" && format == PdfFormat ==>
                && request == PdfRequest(PdfBody(currentContent))
                && (outcome.FetchOk? ==> savedAs == Some(DownloadFilename(outcome.disposition)) && downloadStatus == DownloadIdle)
                && (outcome.FetchFailed? ==> savedAs == None && downloadStatus == PdfError)
      ensures currentContent != "" && format == DocxFormat ==>
                && request == DocxRequest(DocxBody(currentContent)) && savedAs == None
                && downloadStatus == (if outcome.FetchOk? then DocxQueued else DocxError)
    {
      savedAs := None;
      if currentContent == "" {
        downloadStatus := DownloadIdle;
        return NoRequest, None;
      }
      match format {
        case PdfFormat =>
          downloadStatus := DownloadingPdf;
          request := PdfRequest(PdfBody(currentContent));
          if outcome.FetchOk? {
            savedAs := Some(DownloadFilename(outcome.disposition));
            downloadStatus := DownloadIdle;
          } else {
            downloadStatus := PdfError;
          }
        case DocxFormat =>
          downloadStatus := DownloadingDocx;
          request := DocxRequest(DocxBody(currentContent));
          downloadStatus := if outcome.FetchOk? then DocxQueued else DocxError;
      }
    }
  }

  /** With the newest version open and nothing unsaved, the status line
      reads "All changes saved" once saved, and after a restore names that
      version's time (the current time when the version carries none). */
  lemma NewestVersionStatus(versions: seq<Version>, now: int)
    requires |versions| > 0
    ensures var v := versions[0];
            GetStatusMessage(Saved, false, versions, v.content, now) == Text(AllSaved)
    ensures var v := versions[0];
            GetStatusMessage(Restored, false, versions, v.content, now)
              == RestoredFrom(if v.timestamp != 0 then v.timestamp else now)
  {
  }
}
