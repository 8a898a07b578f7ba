/** The document endpoints: the shared validation of a policy body before a
    PDF or DOCX job is queued, and the raw-HTML PDF download with its
    sanitised file name. The queue and the PDF renderer are outcomes given
    as parameters. */
module DocumentController {
  import opened Wrappers
  import opened JsonValue
  import opened HttpReply

  const InvalidPolicyMessage := "Invalid policy data provided. Ensure title and sections are present."
  const InvalidSectionMessage := "Invalid section format. Each section must have a title and content as strings."
  const NullSectionError := "Cannot read properties of null (reading 'title')"
  const InvalidHtmlMessage := "Invalid request. \"htmlContent\" (string) is required in the request body."
  const RawPdfFailurePrefix := "Failed to generate PDF from raw HTML: "
  const DefaultFilename := "document"
  const NullFilenameError := "Cannot read properties of null (reading 'replace')"
  const FilenameNotStringError := "filename.replace is not a function"
  const DispositionStart := "attachment; filename=\""
  const DispositionEnd := ".pdf\""

  const MessageKey := "message"
  const TitleKey := "title"
  const ContentKey := "content"
  const SectionsKey := "sections"
  const HtmlKey := "htmlContent"
  const FilenameKey := "filename"
  const JobAccepted := " generation job accepted."
  const QueueFailurePrefix := "Failed to queue "
  const QueueFailureMiddle := " policy generation: "

  datatype DocumentKind = Pdf | Docx

  /** The kind as the reply messages spell it. */
  function KindName(kind: DocumentKind): string {
    match kind
    case Pdf => "PDF"
    case Docx => "DOCX"
  }

  /** What queueing the job did: a job with its queue id and custom id, or
      an error with its message. */
  datatype JobOutcome = Queued(id: Json, customJobId: string) | QueueFailed(message: string)

  /** `v.key` for a JSON value that is not `null`: an object's member, and
      nothing for any other value. */
  function Member(v: Json, key: string): Option<Json> {
    if v.JObj? then Get(v.fields, key) else None
  }

  /** The body check shared by both endpoints: a truthy body with a truthy
      `title` and a non-empty array of `sections`. */
  predicate PolicyShape(body: Json) {
    && Truthy(body)
    && Member(body, TitleKey).Some? && Truthy(Member(body, TitleKey).value)
    && Member(body, SectionsKey).Some? && Member(body, SectionsKey).value.JArr?
    && |Member(body, SectionsKey).value.items| > 0
  }

  /** The sections of a body that passed the shape check. */
  function Sections(body: Json): seq<Json>
    requires PolicyShape(body)
  {
    Member(body, SectionsKey).value.items
  }

  /** `typeof v.key === 'string'`. */
  predicate StringMember(v: Json, key: string) {
    Member(v, key).Some? && Member(v, key).value.JStr?
  }

  /** A section whose title and content are both strings. */
  predicate WellFormedSection(section: Json) {
    StringMember(section, TitleKey) && StringMember(section, ContentKey)
  }

  /** The position of the first ill-formed section, or `|sections|`. */
  function FirstIllFormed(sections: seq<Json>): (k: nat)
    ensures k <= |sections|
    ensures k < |sections| ==> !WellFormedSection(sections[k])
    ensures forall j :: 0 <= j < k ==> WellFormedSection(sections[j])
  {
    if sections == [] then 0
    else if !WellFormedSection(sections[0]) then 0
    else 1 + FirstIllFormed(sections[1..])
  }

  /** The reply once the body is valid: 202 with the job's ids, or 500 with
      the queueing error. */
  function JobReply(kind: DocumentKind, job: JobOutcome): Reply {
    match job
    case Queued(id, custom) =>
      Reply(202, JObj([(MessageKey, JStr(KindName(kind) + JobAccepted)),
                       ("jobId", id), ("customJobId", JStr(custom))]))
    case QueueFailed(m) =>
      Reply(500, Single(MessageKey, QueueFailurePrefix + KindName(kind) + QueueFailureMiddle + m))
  }

  /** The reply for an ill-formed section: reading `title` of `null` throws,
      which the handler reports as a queueing failure; any other ill-formed
      section is answered 400. */
  function IllFormedReply(kind: DocumentKind, section: Json): Reply {
    if section == JNull then Reply(500, Single(MessageKey, QueueFailurePrefix + KindName(kind) + QueueFailureMiddle + NullSectionError))
    else Reply(400, Single(MessageKey, InvalidSectionMessage))
  }

  /** The reference definition of `createPdfPolicy` / `createDocxPolicy`. */
  function PolicyReply(kind: DocumentKind, body: Json, job: JobOutcome): Reply {
    if !PolicyShape(body) then Reply(400, Single(MessageKey, InvalidPolicyMessage))
    else
      var k := FirstIllFormed(Sections(body));
      if k < |Sections(body)| then IllFormedReply(kind, Sections(body)[k])
      else JobReply(kind, job)
  }

  /** `createPdfPolicy` / `createDocxPolicy` as written: the shape check,
      then a loop over the sections that answers at the first bad one, then
      the job. */
  method CreatePolicy(kind: DocumentKind, body: Json, job: JobOutcome) returns (r: Reply)
    ensures r == PolicyReply(kind, body, job)
  {
    if !PolicyShape(body) {
      return Reply(400, Single(MessageKey, InvalidPolicyMessage));
    }
    var sections := Sections(body);
    var i := 0;
    while i < |sections|
      invariant 0 <= i <= |sections|
      invariant i <= FirstIllFormed(sections)
    {
      if !WellFormedSection(sections[i]) {
        return IllFormedReply(kind, sections[i]);
      }
      i := i + 1;
    }
    r := JobReply(kind, job);
  }

  /** A job is accepted (202) exactly for a body with a truthy title and a
      non-empty list of sections that all have string titles and contents,
      when the queue takes it; a 400 means a bad shape or a bad section
      that is not `null`; everything else is a 500. */
  lemma {:induction false} PolicyReplyCases(kind: DocumentKind, body: Json, job: JobOutcome)
    ensures var r := PolicyReply(kind, body, job);
            && (r.status == 202 <==>
                  && PolicyShape(body)
                  && (forall j :: 0 <= j < |Sections(body)| ==> WellFormedSection(Sections(body)[j]))
                  && job.Queued?)
            && (r.status == 400 <==>
                  || !PolicyShape(body)
                  || (var k := FirstIllFormed(Sections(body)); k < |Sections(body)| && Sections(body)[k] != JNull))
            && (r.status == 202 || r.status == 400 || r.status == 500)
  {
    if PolicyShape(body) {
      var k := FirstIllFormed(Sections(body));
      if k == |Sections(body)| {
        assert forall j :: 0 <= j < |Sections(body)| ==> WellFormedSection(Sections(body)[j]);
      }
    }
  }

  /** The PDF and DOCX endpoints validate alike: the same body gets the same
      status from both. */
  lemma KindsValidateAlike(body: Json, job: JobOutcome)
    ensures PolicyReply(Pdf, body, job).status == PolicyReply(Docx, body, job).status
  {
  }

  // ---------------------------------------------------------------------
  // Raw HTML to PDF
  // ---------------------------------------------------------------------

  /** The characters a download name keeps: `[a-z0-9_.-]`, either case. */
  predicate SafeChar(c: char) {
    ('a' <= c <= 'z') || ('A' <= c <= 'Z') || ('0' <= c <= '9') || c == '_' || c == '.' || c == '-'
  }

  /** `filename.replace(/[^a-z0-9_.-]/gi, '_')`. */
  function SanitizeFilename(s: string): (r: string)
    ensures |r| == |s|
    ensures forall k :: 0 <= k < |s| ==> r[k] == if SafeChar(s[k]) then s[k] else '_'
  {
    if s == [] then "" else [if SafeChar(s[0]) then s[0] else '_'] + SanitizeFilename(s[1..])
  }

  /** A sanitised name holds only safe characters, sanitising it again
      changes nothing, and a name is left alone exactly when it was safe. */
  lemma SanitizeFilenameProperties(s: string)
    ensures forall k :: 0 <= k < |s| ==> SafeChar(SanitizeFilename(s)[k])
    ensures SanitizeFilename(SanitizeFilename(s)) == SanitizeFilename(s)
    ensures SanitizeFilename(s) == s <==> forall k :: 0 <= k < |s| ==> SafeChar(s[k])
  {
    var r := SanitizeFilename(s);
    if SanitizeFilename(s) == s {
      forall k | 0 <= k < |s|
        ensures SafeChar(s[k])
      {
        assert r[k] == s[k];
      }
    }
  }

  /** `Content-Disposition` for a download named `safe`. */
  function Disposition(safe: string): string {
    DispositionStart + safe + DispositionEnd
  }

  /** What the renderer did with the HTML: a PDF buffer, or an error. */
  datatype PdfOutcome = PdfRendered | PdfFailed(message: string)

  /** The result of `generateRawPdf`: a PDF download with its
      `Content-Disposition`, or a JSON reply. */
  datatype RawPdfResult = Download(disposition: string) | JsonReply(reply: Reply)

  /** `generateRawPdf`. The file name defaults to "document" only when the
      member is absent; a `null` or non-string name makes `replace` throw,
      after the PDF was rendered. */
  function GenerateRawPdf(body: Json, pdf: PdfOutcome): RawPdfResult
  {
    var html := Member(body, HtmlKey);
    if !(html.Some? && Truthy(html.value) && html.value.JStr?) then
      JsonReply(Reply(400, Single(MessageKey, InvalidHtmlMessage)))
    else
      match pdf
      case PdfFailed(m) => JsonReply(Reply(500, Single(MessageKey, RawPdfFailurePrefix + m)))
      case PdfRendered =>
        var name := Member(body, FilenameKey);
        if name.None? then Download(Disposition(SanitizeFilename(DefaultFilename)))
        else match name.value
          case JStr(s) => Download(Disposition(SanitizeFilename(s)))
          case JNull => JsonReply(Reply(500, Single(MessageKey, RawPdfFailurePrefix + NullFilenameError)))
          case _ => JsonReply(Reply(500, Single(MessageKey, RawPdfFailurePrefix + FilenameNotStringError)))
  }

  /** `htmlContent` must be a non-empty string: anything else is answered
      400 before the PDF is rendered. */
  lemma {:induction false} RawPdfRejects(body: Json, pdf: PdfOutcome)
    ensures var r := GenerateRawPdf(body, pdf);
            var html := Member(body, HtmlKey);
            r.JsonReply? && r.reply.status == 400 <==> !(html.Some? && html.value.JStr? && html.value.s != "")
  {
  }

  /** A download is sent only for a rendered PDF of non-empty HTML whose
      file name is absent or a string; it is named by the sanitised file
      name, or "document" when none is given. */
  lemma {:induction false} RawPdfDownloads(body: Json, pdf: PdfOutcome)
    ensures var r := GenerateRawPdf(body, pdf);
            var html := Member(body, HtmlKey);
            var name := Member(body, FilenameKey);
            r.Download? <==> pdf.PdfRendered? && html.Some? && html.value.JStr? && html.value.s != ""
                             && (name.None? || name.value.JStr?)
    ensures var r := GenerateRawPdf(body, pdf);
            var name := Member(body, FilenameKey);
            r.Download? ==>
              && (name.None? ==> r.disposition == Disposition(DefaultFilename))
              && (name.Some? ==> r.disposition == Disposition(SanitizeFilename(name.value.s)))
  {
    SanitizeFilenameProperties(DefaultFilename);
    assert forall k :: 0 <= k < |DefaultFilename| ==> SafeChar(DefaultFilename[k]);
  }
}
