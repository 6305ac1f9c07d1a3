/**
 * The interactive preview: the shared content on the dark page, carrying the element id that
 * the PDF export looks up.
 */
module ResumePreview {
  import opened Wrappers
  import opened Resume
  import PreviewContent

  /** The two page frames differ only in styling, reduced here to a colour scheme. */
  datatype Theme = Dark | Light

  /** A rendered page: its element id (if any), its frame and its content. */
  datatype Page = Page(elementId: Option<string>, theme: Theme, document: PreviewContent.Document)

  /** The id the export rasterizes. */
  const ElementId: string := "resume-preview"

  function Render(d: ResumeData): (page: Page)
    ensures page.elementId == Some(ElementId) && page.theme == Dark
    ensures page.document == PreviewContent.Content(d)
  {
    Page(Some(ElementId), Dark, PreviewContent.Content(d))
  }
}
