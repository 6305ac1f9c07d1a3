/**
 * The print-styled preview: the same content on a white page, with no element id. It renders
 * nothing the interactive preview does not, and the export does not look it up.
 */
module ResumePDFPreview {
  import opened Wrappers
  import opened Resume
  import PreviewContent
  import ResumePreview

  function Render(d: ResumeData): (page: ResumePreview.Page)
    ensures page.elementId == None && page.theme == ResumePreview.Light
    ensures page.document == PreviewContent.Content(d)
  {
    ResumePreview.Page(None, ResumePreview.Light, PreviewContent.Content(d))
  }

  /** For every résumé the two previews carry the same content tree; only the frame differs. */
  lemma AgreesWithResumePreview(d: ResumeData)
    ensures Render(d).document == ResumePreview.Render(d).document
    ensures Render(d).theme != ResumePreview.Render(d).theme
  {
  }
}
