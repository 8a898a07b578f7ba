/** `generatePolicyDocx`: the list of paragraphs built from a policy and the
    document that wraps them. Packing the document into bytes and writing
    it to a file are outcomes given as parameters. */
module DocxService {
  import opened Wrappers
  import opened Strings
  import opened PolicyData

  const TitleSize := 48
  const HeadingSize := 36
  const BodySize := 24
  const PageMargin := 1440
  const Creator := "AI Policy Generator"
  const DescriptionStart := "Policy document: "
  const FailurePrefix := "DOCX generation failed: "

  datatype Alignment = Centered | Justified | Unaligned
  datatype Level = TitleLevel | Heading1 | BodyText

  /** One paragraph with its single run of text. Sizes are in half-points,
      spacing in twentieths of a point. */
  datatype Paragraph = Paragraph(
    text: string,
    bold: bool,
    size: nat,
    level: Level,
    alignment: Alignment,
    spaceBefore: nat,
    spaceAfter: nat)

  /** The document: its paragraphs, the page margin on all four sides and
      its metadata. */
  datatype Document = Document(
    paragraphs: seq<Paragraph>,
    margin: nat,
    creator: string,
    title: string,
    description: string)

  function TitleParagraph(title: string): Paragraph {
    Paragraph(title, true, TitleSize, TitleLevel, Centered, 0, 400)
  }

  function HeadingParagraph(title: string): Paragraph {
    Paragraph(title, true, HeadingSize, Heading1, Unaligned, 300, 150)
  }

  function BodyParagraph(line: string): Paragraph {
    Paragraph(line, false, BodySize, BodyText, Justified, 0, 100)
  }

  /** `content.split('\n').map(...)`: one body paragraph per line. */
  function ContentParagraphs(content: string): (r: seq<Paragraph>)
    ensures |r| == CountChar(content, '\n') + 1
  {
    var lines := Split(content, '\n');
    seq(|lines|, i requires 0 <= i < |lines| => BodyParagraph(lines[i]))
  }

  /** The paragraphs of one section: its heading, then its lines. */
  function SectionParagraphs(s: Section): seq<Paragraph> {
    [HeadingParagraph(s.title)] + ContentParagraphs(s.content)
  }

  /** The paragraphs of all sections, in order. */
  function SectionsParagraphs(sections: seq<Section>): seq<Paragraph> {
    if sections == [] then []
    else SectionsParagraphs(sections[..|sections| - 1]) + SectionParagraphs(sections[|sections| - 1])
  }

  /** The whole list: the title paragraph, then every section's paragraphs. */
  function PolicyParagraphs(p: Policy): seq<Paragraph> {
    [TitleParagraph(p.title)] + SectionsParagraphs(p.sections)
  }

  /** The paragraph list as written: the title pushed first, then for each
      section its heading and its lines. */
  method BuildParagraphs(p: Policy) returns (paragraphs: seq<Paragraph>)
    ensures paragraphs == PolicyParagraphs(p)
  {
    paragraphs := [TitleParagraph(p.title)];
    var i := 0;
    while i < |p.sections|
      invariant 0 <= i <= |p.sections|
      invariant paragraphs == [TitleParagraph(p.title)] + SectionsParagraphs(p.sections[..i])
    {
      var section := p.sections[i];
      assert p.sections[..i + 1][..i] == p.sections[..i];
      paragraphs := paragraphs + [HeadingParagraph(section.title)];
      paragraphs := paragraphs + ContentParagraphs(section.content);
      i := i + 1;
    }
    assert p.sections[..i] == p.sections;
  }

  /** The number of paragraphs: the title, and per section a heading and
      one paragraph per line of its content. */
  function ParagraphCount(sections: seq<Section>): nat {
    if sections == [] then 0
    else ParagraphCount(sections[..|sections| - 1]) + 2 + CountChar(sections[|sections| - 1].content, '\n')
  }

  lemma {:induction false} SectionsParagraphsCount(sections: seq<Section>)
    ensures |SectionsParagraphs(sections)| == ParagraphCount(sections)
  {
    if sections != [] {
      SectionsParagraphsCount(sections[..|sections| - 1]);
    }
  }

  /** The list opens with the bold, centred title at 48 half-points and
      holds one paragraph for the title plus, per section, one for the
      heading and one per line. */
  lemma PolicyParagraphsShape(p: Policy)
    ensures var ps := PolicyParagraphs(p);
            && |ps| == 1 + ParagraphCount(p.sections)
            && ps[0] == Paragraph(p.title, true, 48, TitleLevel, Centered, 0, 400)
  {
    SectionsParagraphsCount(p.sections);
  }

  /** The texts of a section's body paragraphs are its lines: joined by
      newlines they give back the content, and none holds a newline. */
  lemma ContentParagraphsRoundTrip(content: string)
    ensures var ps := ContentParagraphs(content);
            var texts := seq(|ps|, i requires 0 <= i < |ps| => ps[i].text);
            Join(texts, "\n") == content && forall i :: 0 <= i < |texts| ==> '\n' !in texts[i]
  {
    var ps := ContentParagraphs(content);
    var texts := seq(|ps|, i requires 0 <= i < |ps| => ps[i].text);
    assert texts == Split(content, '\n');
    JoinSplit(content, '\n');
  }

  /** The document built around the paragraphs. */
  function PolicyDocument(p: Policy): (d: Document)
    ensures d.margin == 1440 && d.title == p.title
    ensures d.paragraphs == PolicyParagraphs(p)
  {
    Document(PolicyParagraphs(p), PageMargin, Creator, p.title, DescriptionStart + p.title)
  }

  /** What packing produced: the document's bytes, represented by the
      document, or an error message. */
  datatype DocxResult = DocxOf(doc: Document) | DocxError(message: string)

  /** `generatePolicyDocx` returning a buffer: any packing error is reported
      with the "DOCX generation failed: " prefix. */
  function GeneratePolicyDocx(p: Policy, packError: Option<string>): (r: DocxResult)
    ensures packError.None? ==> r == DocxOf(PolicyDocument(p))
    ensures packError.Some? ==> r.DocxError? && FailurePrefix <= r.message
  {
    if packError.None? then DocxOf(PolicyDocument(p))
    else
      PrefixOfAppend(FailurePrefix, FailurePrefix, packError.value);
      DocxError(FailurePrefix + packError.value)
  }
}
