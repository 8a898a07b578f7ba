/** The policy document the PDF and DOCX builders receive: a title and a
    list of titled sections of text. */
module PolicyData {
  datatype Section = Section(title: string, content: string)

  datatype Policy = Policy(title: string, sections: seq<Section>)
}
