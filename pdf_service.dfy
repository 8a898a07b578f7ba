/** `PdfService.generatePdfFromPolicyData`: the HTML page built from a
    policy, which the headless browser then prints. The browser is an
    outcome given as a parameter. */
module PdfService {
  import opened Strings
  import opened PolicyData

  const HeadStart := "<html><head><title>"
  const HeadEnd := "</title></head><body>"
  const H1Start := "<h1>"
  const H1End := "</h1>"
  const H2Start := "<h2>"
  const H2End := "</h2>"
  const PStart := "<p>"
  const PEnd := "</p>"
  const LineBreak := "<br />"
  const PageEnd := "</body></html>"
  const RenderFailedMessage := "Failed to generate PDF document."

  /** The opening of the page: the title in the head and as the heading. */
  function PageStart(title: string): string {
    HeadHtml(title) + H1Html(title)
  }

  function HeadHtml(title: string): string {
    HeadStart + title + HeadEnd
  }

  function H1Html(title: string): string {
    H1Start + title + H1End
  }

  /** The heading and paragraph of one section. */
  function SectionHtml(s: Section): string {
    H2Html(s.title) + ParagraphHtml(s.content)
  }

  function H2Html(title: string): string {
    H2Start + title + H2End
  }

  /** A section's paragraph, with each newline of its content replaced by
      `<br />`. */
  function ParagraphHtml(content: string): string {
    PStart + ReplaceChar(content, '\n', LineBreak) + PEnd
  }

  /** The blocks of all sections, in order. */
  function SectionBlocks(sections: seq<Section>): (r: seq<string>)
    ensures |r| == |sections|
  {
    seq(|sections|, i requires 0 <= i < |sections| => SectionHtml(sections[i]))
  }

  /** The whole page. */
  function PolicyHtml(p: Policy): string {
    PageStart(p.title) + Concat(SectionBlocks(p.sections)) + PageEnd
  }

  /** The HTML builder as written: the opening, one block appended per
      section, then the closing tags. */
  method BuildPolicyHtml(p: Policy) returns (htmlContent: string)
    ensures htmlContent == PolicyHtml(p)
  {
    ghost var blocks := SectionBlocks(p.sections);
    htmlContent := HeadHtml(p.title);
    htmlContent := htmlContent + H1Html(p.title);
    var i := 0;
    while i < |p.sections|
      invariant 0 <= i <= |p.sections|
      invariant htmlContent == PageStart(p.title) + Concat(blocks[..i])
    {
      ConcatSnoc(blocks, i);
      var section := p.sections[i];
      AppendAssoc(PageStart(p.title), Concat(blocks[..i]), blocks[i]);
      AppendAssoc(htmlContent, H2Html(section.title), ParagraphHtml(section.content));
      htmlContent := htmlContent + H2Html(section.title);
      htmlContent := htmlContent + ParagraphHtml(section.content);
      i := i + 1;
    }
    assert blocks[..i] == blocks;
    htmlContent := htmlContent + PageEnd;
  }

  /** The page opens with the title in the head and as the heading, ends
      with the closing tags, and holds each section's block, in section
      order, right after the blocks of the sections before it. */
  lemma PolicyHtmlLayout(p: Policy, k: nat)
    requires k < |p.sections|
    ensures PageStart(p.title) <= PolicyHtml(p)
    ensures var h := PolicyHtml(p); |h| >= |PageEnd| && h[|h| - |PageEnd|..] == PageEnd
    ensures var blocks := SectionBlocks(p.sections);
            OccursAt(PolicyHtml(p), SectionHtml(p.sections[k]), |PageStart(p.title)| + |Concat(blocks[..k])|)
  {
    var blocks := SectionBlocks(p.sections);
    var start := PageStart(p.title);
    PrefixOfAppend(start, start, Concat(blocks));
    PrefixOfAppend(start, start + Concat(blocks), PageEnd);
    ConcatContains(blocks, k);
    OccursAtShift(start, Concat(blocks), blocks[k], |Concat(blocks[..k])|);
    var h := start + Concat(blocks);
    assert (h + PageEnd)[|h|..] == PageEnd;
    assert (h + PageEnd)[..|h|] == h;
    assert h[|start| + |Concat(blocks[..k])|..|start| + |Concat(blocks[..k])| + |blocks[k]|]
        == (h + PageEnd)[|start| + |Concat(blocks[..k])|..|start| + |Concat(blocks[..k])| + |blocks[k]|];
  }

  /** Each section's paragraph shows its content's lines joined by line
      breaks, and has no raw newline left. */
  lemma ContentLines(content: string)
    ensures ReplaceChar(content, '\n', LineBreak) == Join(Split(content, '\n'), LineBreak)
    ensures '\n' !in ReplaceChar(content, '\n', LineBreak)
  {
    ReplaceIsSplitJoin(content, '\n', LineBreak);
  }

  /** What printing produced: a PDF of the given page, or the error the
      service reports for any browser failure. */
  datatype PdfResult = PdfOf(html: string) | PdfError(message: string)

  /** `generatePdfFromPolicyData`, with `printed` saying whether the browser
      printed the page. */
  function GeneratePdfFromPolicyData(p: Policy, printed: bool): (r: PdfResult)
    ensures printed ==> r == PdfOf(PolicyHtml(p))
    ensures !printed ==> r == PdfError(RenderFailedMessage)
  {
    if printed then PdfOf(PolicyHtml(p)) else PdfError(RenderFailedMessage)
  }
}
