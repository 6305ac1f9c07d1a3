/**
 * The application shell: it owns the resume, the view switches and the API key, replaces one
 * part of the resume at a time on behalf of the editors, and runs the two long actions
 * (exporting the preview as a PDF and generating the summary) as sequential steps whose
 * outside effect is a parameter.
 */
module App {
  import opened Wrappers
  import opened Resume
  import Text
  import Pdf
  import AI
  import ResumePreview

  // ---------------------------------------------------------------- the aggregate

  /** The resume the app starts from: every personal field '', no summary, four empty lists. */
  function InitialResumeData(): ResumeData {
    ResumeData(
      PersonalInfo("", "", "", "", Some(""), Some(""), Some("")),
      "", [], [], [], [])
  }

  /** The six top-level parts of the resume; each editor owns one. */
  datatype Part = PersonalPart | SummaryPart | ExperiencePart | EducationPart | SkillsPart | ProjectsPart

  /** What one of the `updateX` callbacks is handed: the new value of its part. */
  datatype Update =
    | SetPersonalInfo(personalInfo: PersonalInfo)
    | SetSummary(summary: string)
    | SetExperience(experience: seq<Experience>)
    | SetEducation(education: seq<Education>)
    | SetSkills(skills: seq<Skill>)
    | SetProjects(projects: seq<Project>)

  function Target(u: Update): Part {
    match u
    case SetPersonalInfo(_) => PersonalPart
    case SetSummary(_) => SummaryPart
    case SetExperience(_) => ExperiencePart
    case SetEducation(_) => EducationPart
    case SetSkills(_) => SkillsPart
    case SetProjects(_) => ProjectsPart
  }

  /** The two resumes hold the same value in the given part. */
  predicate SamePart(d: ResumeData, e: ResumeData, p: Part) {
    match p
    case PersonalPart => d.personalInfo == e.personalInfo
    case SummaryPart => d.summary == e.summary
    case ExperiencePart => d.experience == e.experience
    case EducationPart => d.education == e.education
    case SkillsPart => d.skills == e.skills
    case ProjectsPart => d.projects == e.projects
  }

  /** The resume holds the value the update carries. */
  predicate Carries(d: ResumeData, u: Update) {
    match u
    case SetPersonalInfo(v) => d.personalInfo == v
    case SetSummary(v) => d.summary == v
    case SetExperience(v) => d.experience == v
    case SetEducation(v) => d.education == v
    case SetSkills(v) => d.skills == v
    case SetProjects(v) => d.projects == v
  }

  /** `updateX(v)`: `{ ...prev, x: v }`; the part is replaced and the other five are kept. */
  function Apply(d: ResumeData, u: Update): (r: ResumeData)
    ensures Carries(r, u)
    ensures forall p: Part | p != Target(u) :: SamePart(r, d, p)
  {
    match u
    case SetPersonalInfo(v) => d.(personalInfo := v)
    case SetSummary(v) => d.(summary := v)
    case SetExperience(v) => d.(experience := v)
    case SetEducation(v) => d.(education := v)
    case SetSkills(v) => d.(skills := v)
    case SetProjects(v) => d.(projects := v)
  }

  /** Resumes that agree on every part are the same resume. */
  lemma PartsDetermineResume(d: ResumeData, e: ResumeData)
    requires forall p: Part :: SamePart(d, e, p)
    ensures d == e
  {
    assert SamePart(d, e, PersonalPart) && SamePart(d, e, SummaryPart);
    assert SamePart(d, e, ExperiencePart) && SamePart(d, e, EducationPart);
    assert SamePart(d, e, SkillsPart) && SamePart(d, e, ProjectsPart);
  }

  /** The update that carries what a resume holds in the given part. */
  function Current(d: ResumeData, p: Part): (u: Update)
    ensures Target(u) == p && Carries(d, u)
  {
    match p
    case PersonalPart => SetPersonalInfo(d.personalInfo)
    case SummaryPart => SetSummary(d.summary)
    case ExperiencePart => SetExperience(d.experience)
    case EducationPart => SetEducation(d.education)
    case SkillsPart => SetSkills(d.skills)
    case ProjectsPart => SetProjects(d.projects)
  }

  /** Two updates carry the same payload when they target the same part and the resume carries both. */
  lemma CarriesDetermines(d: ResumeData, e: ResumeData, u: Update)
    requires Carries(d, u) && Carries(e, u)
    ensures SamePart(d, e, Target(u))
  {
  }

  /** Of two updates to the same part, the later one wins. */
  lemma LaterUpdateWins(d: ResumeData, u: Update, v: Update)
    requires Target(u) == Target(v)
    ensures Apply(Apply(d, u), v) == Apply(d, v)
  {
    var left, right := Apply(Apply(d, u), v), Apply(d, v);
    forall p: Part ensures SamePart(left, right, p) {
      if p == Target(v) {
        CarriesDetermines(left, right, v);
      }
    }
    PartsDetermineResume(left, right);
  }

  /** Updates to different parts do not interfere: either order gives the same resume. */
  lemma UpdatesCommute(d: ResumeData, u: Update, v: Update)
    requires Target(u) != Target(v)
    ensures Apply(Apply(d, u), v) == Apply(Apply(d, v), u)
  {
    var left, right := Apply(Apply(d, u), v), Apply(Apply(d, v), u);
    forall p: Part ensures SamePart(left, right, p) {
      if p == Target(u) {
        CarriesDetermines(left, right, u);
      } else if p == Target(v) {
        CarriesDetermines(left, right, v);
      }
    }
    PartsDetermineResume(left, right);
  }

  /** Handing an editor back the value it already shows changes nothing. */
  lemma ApplyCurrent(d: ResumeData, p: Part)
    ensures Apply(d, Current(d, p)) == d
  {
    var r := Apply(d, Current(d, p));
    forall q: Part ensures SamePart(r, d, q) {
      if q == p {
        CarriesDetermines(r, d, Current(d, p));
      }
    }
    PartsDetermineResume(r, d);
  }

  // ---------------------------------------------------------------- gating and naming

  /** `isFormValid`: name and email are both non-empty (untrimmed). */
  predicate IsFormValid(p: PersonalInfo) {
    p.name != "" && p.email != ""
  }

  /** A resume that passes `validateResumeData` also passes the download gate. */
  lemma ValidationPassImpliesFormValid(d: ResumeData)
    requires Pdf.Errors(d) == []
    ensures IsFormValid(d.personalInfo)
  {
    Pdf.ReportedIff(d, Pdf.NameRequired);
    Pdf.ReportedIff(d, Pdf.EmailRequired);
  }

  /** The gate does not trim: a name of one space opens it, although validation reports the name. */
  lemma GateDoesNotTrim(d: ResumeData)
    requires d.personalInfo.name == " " && d.personalInfo.email != ""
    ensures IsFormValid(d.personalInfo)
    ensures Pdf.Message(Pdf.NameRequired) in Pdf.Errors(d)
  {
    Pdf.ReportedIff(d, Pdf.NameRequired);
    assert Text.Trim(" ") == Text.Trim(" "[1..]);
  }

  /** The download name: the person's name, or "resume" when it is empty, with ".pdf" appended. */
  function PdfFileName(d: ResumeData): (f: string)
    ensures |f| >= 4 && f[|f| - 4..] == ".pdf"
    ensures f[..|f| - 4] == if d.personalInfo.name != "" then d.personalInfo.name else "resume"
  {
    var stem := if d.personalInfo.name != "" then d.personalInfo.name else "resume";
    assert (stem + ".pdf")[..|stem|] == stem;
    stem + ".pdf"
  }

  /** The initial resume keeps the download button disabled and would fail every content check but the format one. */
  lemma InitialResumeIsIncomplete()
    ensures !IsFormValid(InitialResumeData().personalInfo)
    ensures forall r: Pdf.Rule :: Pdf.Message(r) in Pdf.Errors(InitialResumeData()) <==> r != Pdf.EmailFormat
    ensures PdfFileName(InitialResumeData()) == "resume.pdf"
  {
    var d := InitialResumeData();
    forall r: Pdf.Rule ensures Pdf.Message(r) in Pdf.Errors(d) <==> r != Pdf.EmailFormat {
      Pdf.ReportedIff(d, r);
    }
    assert PdfFileName(d) == "resume" + ".pdf";
  }

  // ---------------------------------------------------------------- the component

  const NeedKeyAlert: string := "Please set your OpenAI API key in settings first."
  const SummaryAlert: string := "Failed to generate AI summary. Please check your API key and try again."
  const DownloadAlert: string := "Failed to generate PDF. Please try again."

  /**
   * `App`. Besides the component's state it records the alerts it has shown and the files it
   * has handed to the download, in order; `ai` is the shared AI service.
   */
  class App {
    var resumeData: ResumeData
    var showPreview: bool
    var isGeneratingPDF: bool
    var isGeneratingSummary: bool
    var apiKey: string
    var showSettings: bool
    var alerts: seq<string>
    var downloads: seq<Pdf.PdfFile>
    const ai: AI.AIService

    constructor(service: AI.AIService)
      ensures resumeData == InitialResumeData()
      ensures showPreview && !isGeneratingPDF && !isGeneratingSummary
      ensures apiKey == "" && !showSettings
      ensures alerts == [] && downloads == []
      ensures ai == service
    {
      resumeData := InitialResumeData();
      showPreview := true;
      isGeneratingPDF := false;
      isGeneratingSummary := false;
      apiKey := "";
      showSettings := false;
      alerts := [];
      downloads := [];
      ai := service;
    }

    /** The download button is enabled: the form is valid and no export is running. */
    predicate DownloadEnabled()
      reads this
    {
      IsFormValid(resumeData.personalInfo) && !isGeneratingPDF
    }

    /** The summary editor receives the generate action: an API key has been typed. */
    predicate AIGenerateOffered()
      reads this
    {
      apiKey != ""
    }

    /** An editor's `onChange`: one part of the resume is replaced, nothing else changes. */
    method Update(u: Update)
      modifies this
      ensures resumeData == Apply(old(resumeData), u)
      ensures showPreview == old(showPreview) && isGeneratingPDF == old(isGeneratingPDF)
      ensures isGeneratingSummary == old(isGeneratingSummary) && apiKey == old(apiKey)
      ensures showSettings == old(showSettings) && alerts == old(alerts) && downloads == old(downloads)
    {
      resumeData := Apply(resumeData, u);
    }

    /** The settings button flips the settings panel. */
    method ToggleSettings()
      modifies this
      ensures showSettings == !old(showSettings)
      ensures resumeData == old(resumeData) && showPreview == old(showPreview)
      ensures isGeneratingPDF == old(isGeneratingPDF) && isGeneratingSummary == old(isGeneratingSummary)
      ensures apiKey == old(apiKey) && alerts == old(alerts) && downloads == old(downloads)
    {
      showSettings := !showSettings;
    }

    /** Either preview button flips the preview, and with it the element the export looks up. */
    method TogglePreview()
      modifies this
      ensures showPreview == !old(showPreview)
      ensures resumeData == old(resumeData) && showSettings == old(showSettings)
      ensures isGeneratingPDF == old(isGeneratingPDF) && isGeneratingSummary == old(isGeneratingSummary)
      ensures apiKey == old(apiKey) && alerts == old(alerts) && downloads == old(downloads)
    {
      showPreview := !showPreview;
    }

    /** The key input: the typed text becomes the key; the service sees it only when a summary is generated. */
    method EditApiKey(text: string)
      modifies this
      ensures apiKey == text
      ensures resumeData == old(resumeData) && showSettings == old(showSettings) && showPreview == old(showPreview)
      ensures isGeneratingPDF == old(isGeneratingPDF) && isGeneratingSummary == old(isGeneratingSummary)
      ensures alerts == old(alerts) && downloads == old(downloads)
    {
      apiKey := text;
    }

    /**
     * `handleDownloadPDF`. The export looks up the interactive preview, which is on the page
     * only while the preview is shown; `raster` is the height of the image of that page, or None
     * when rasterizing threw. `rasterized` is the page the export sees and `busy` the flag's
     * value while it runs. A failure shows the alert; either way the flag ends false.
     */
    method HandleDownloadPdf(raster: Option<nat>) returns (rasterized: Option<ResumePreview.Page>, busy: bool)
      modifies this
      ensures busy
      ensures rasterized == if old(showPreview) then Some(ResumePreview.Render(old(resumeData))) else None
      ensures !isGeneratingPDF
      ensures old(showPreview) && raster.Some? ==>
        && |downloads| == |old(downloads)| + 1 && downloads[..|old(downloads)|] == old(downloads)
        && downloads[|old(downloads)|].filename == PdfFileName(old(resumeData))
        && downloads[|old(downloads)|].imgHeight == raster.value
        && Pdf.AsWrittenLayout(downloads[|old(downloads)|].offsets, raster.value)
        && alerts == old(alerts)
      ensures !(old(showPreview) && raster.Some?) ==>
        downloads == old(downloads) && alerts == old(alerts) + [DownloadAlert]
      ensures resumeData == old(resumeData) && showPreview == old(showPreview) && showSettings == old(showSettings)
      ensures isGeneratingSummary == old(isGeneratingSummary) && apiKey == old(apiKey)
    {
      isGeneratingPDF := true;
      busy := isGeneratingPDF;
      var capture: Pdf.Capture;
      if !showPreview {
        rasterized := None;
        capture := Pdf.ElementMissing;
      } else {
        rasterized := Some(ResumePreview.Render(resumeData));
        capture := if raster.Some? then Pdf.Rendered(raster.value) else Pdf.RasterFailed;
      }
      var r := Pdf.GeneratePdf(capture, PdfFileName(resumeData));
      if r.Success? {
        var file := r.value;
        downloads := downloads + [file];
        assert downloads[|old(downloads)|] == file && downloads[..|old(downloads)|] == old(downloads);
      } else {
        alerts := alerts + [DownloadAlert];
      }
      isGeneratingPDF := false;
    }

    /**
     * `handleGenerateSummary`. With no key it alerts and opens the settings, and neither the
     * flag nor the service is touched. Otherwise it hands the key to the service, sends the
     * summary request (`sent`), and replaces the summary with the reply's text only when the
     * call succeeded; a failure alerts and keeps the summary. `busy` is the flag's value while
     * the request is out; afterwards it is false.
     */
    method HandleGenerateSummary(reply: AI.Reply) returns (sent: Option<AI.Request>, busy: bool)
      modifies this, ai
      ensures !old(AIGenerateOffered()) ==>
        && sent == None && !busy && showSettings
        && alerts == old(alerts) + [NeedKeyAlert]
        && resumeData == old(resumeData)
        && isGeneratingSummary == old(isGeneratingSummary)
        && ai.client == old(ai.client)
      ensures old(AIGenerateOffered()) ==>
        && busy && !isGeneratingSummary
        && ai.client == Some(apiKey)
        && sent == Some(AI.SummaryRequest(old(resumeData)))
        && showSettings == old(showSettings)
        && (reply.Answered? ==>
              resumeData == old(resumeData).(summary := OrEmpty(reply.content)) && alerts == old(alerts))
        && (reply.Failed? ==> resumeData == old(resumeData) && alerts == old(alerts) + [SummaryAlert])
      ensures apiKey == old(apiKey) && showPreview == old(showPreview)
      ensures isGeneratingPDF == old(isGeneratingPDF) && downloads == old(downloads)
    {
      if apiKey == "" {
        alerts := alerts + [NeedKeyAlert];
        showSettings := true;
        return None, false;
      }
      isGeneratingSummary := true;
      busy := isGeneratingSummary;
      ai.SetApiKey(apiKey);
      var r;
      sent, r := ai.GenerateSummary(resumeData, reply);
      if r.Success? {
        resumeData := resumeData.(summary := r.value);
      } else {
        alerts := alerts + [SummaryAlert];
      }
      isGeneratingSummary := false;
    }
  }
}
