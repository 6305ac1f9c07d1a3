/**
 * The AI helper service: a client that exists once an API key has been set, the prompts it
 * builds from a resume, and what each operation makes of the model's reply. The request
 * itself is outside the model: each operation returns the request it would send and takes
 * the reply (or the failure of the call) as a parameter.
 */
module AI {
  import opened Wrappers
  import opened Resume
  import Seqs
  import Text

  // ---------------------------------------------------------------- requests and replies

  /** A chat-completion request: the model, the system and user messages, and the sampling limits. */
  datatype Request = Request(model: string, system: string, user: string, maxTokens: nat, temperature: real)

  /** What the call produced: it threw, or it answered with content that may be absent. */
  datatype Reply = Failed | Answered(content: Option<string>)

  const ChatModel: string := "gpt-3.5-turbo"

  const NotConfigured: string := "OpenAI API key not configured"
  const SummaryFailed: string := "Failed to generate AI summary. Please check your API key and try again."
  const TailorFailed: string := "Failed to tailor resume. Please try again."
  const ImproveFailed: string := "Failed to improve description. Please try again."

  const SummarySystem: string :=
    "You are a professional resume writer. Create compelling, concise professional summaries that highlight key achievements and skills."
  const TailorSystem: string :=
    "You are a professional resume consultant. Analyze job descriptions and suggest improvements to resumes to better match the requirements."
  const ImproveSystem: string :=
    "You are a professional resume writer. Improve job descriptions to be more impactful and ATS-friendly while maintaining accuracy."

  // ---------------------------------------------------------------- prompts

  function ExperienceLine(e: Experience): string {
    e.position + " at " + e.company
  }

  function EducationLine(e: Education): string {
    e.degree + " in " + e.field + " from " + e.institution
  }

  function SkillName(s: Skill): string {
    s.name
  }

  /** The experiences as "position at company", joined by ", " in list order. */
  function ExperienceList(d: ResumeData): string {
    Text.Join(Seqs.Map(d.experience, ExperienceLine), ", ")
  }

  /** The education entries as "degree in field from institution", joined by ", ". */
  function EducationList(d: ResumeData): string {
    Text.Join(Seqs.Map(d.education, EducationLine), ", ")
  }

  /** The skill names, joined by ", ". */
  function SkillList(d: ResumeData): string {
    Text.Join(Seqs.Map(d.skills, SkillName), ", ")
  }

  const SummaryIntro: string :=
    "Create a professional summary for a resume based on the following information:\n\n"
  const SummaryOutro: string :=
    "\n\nWrite a compelling 2-3 sentence professional summary that highlights key achievements and value proposition."

  /** `createSummaryPrompt`. */
  function SummaryPrompt(d: ResumeData): string {
    SummaryIntro + "Name: " + d.personalInfo.name
    + "\nExperience: " + ExperienceList(d)
    + "\nEducation: " + EducationList(d)
    + "\nSkills: " + SkillList(d)
    + SummaryOutro
  }

  const TailorOutro: string :=
    "\n\nSuggest specific improvements to better match this job posting. Focus on:\n1. Keywords to include\n2. Skills to emphasize\n3. Summary improvements\n4. Experience descriptions that should be enhanced\n\nProvide actionable suggestions in bullet points."

  /** `createTailoringPrompt`. */
  function TailoringPrompt(d: ResumeData, jobDescription: string): string {
    "Job Description:\n" + jobDescription
    + "\n\nCurrent Resume Summary:\n" + d.summary
    + "\n\nCurrent Skills:\n" + SkillList(d)
    + TailorOutro
  }

  /** The user message of `improveDescription`. */
  function ImprovePrompt(description: string, context: string): string {
    "Context: " + context + "\n\nImprove this description: " + description
  }

  /** The summary prompt opens with the fixed request and the name, and ends with the fixed instruction. */
  lemma SummaryPromptFrame(d: ResumeData)
    ensures Text.FactorAt(SummaryIntro + "Name: " + d.personalInfo.name, SummaryPrompt(d), 0)
    ensures Text.FactorAt(SummaryOutro, SummaryPrompt(d), |SummaryPrompt(d)| - |SummaryOutro|)
  {
    var head := SummaryIntro + "Name: " + d.personalInfo.name;
    var s := head + "\nExperience: ";
    Text.FactorAtStart(head, "\nExperience: ");
    Text.FactorExtend(head, s, 0, ExperienceList(d));
    s := s + ExperienceList(d);
    Text.FactorExtend(head, s, 0, "\nEducation: ");
    s := s + "\nEducation: ";
    Text.FactorExtend(head, s, 0, EducationList(d));
    s := s + EducationList(d);
    Text.FactorExtend(head, s, 0, "\nSkills: ");
    s := s + "\nSkills: ";
    Text.FactorExtend(head, s, 0, SkillList(d));
    s := s + SkillList(d);
    Text.FactorExtend(head, s, 0, SummaryOutro);
    Text.FactorAtEnd(s, SummaryOutro);
  }

  /** The three lists sit in the summary prompt in the order experience, education, skills. */
  lemma SummaryPromptLists(d: ResumeData)
    ensures
      var start := |SummaryIntro| + |"Name: "| + |d.personalInfo.name| + |"\nExperience: "|;
      var educationStart := start + |ExperienceList(d)| + |"\nEducation: "|;
      var skillsStart := educationStart + |EducationList(d)| + |"\nSkills: "|;
      && Text.FactorAt(ExperienceList(d), SummaryPrompt(d), start)
      && Text.FactorAt(EducationList(d), SummaryPrompt(d), educationStart)
      && Text.FactorAt(SkillList(d), SummaryPrompt(d), skillsStart)
  {
    var experience, education, skills := ExperienceList(d), EducationList(d), SkillList(d);
    var s1 := SummaryIntro + "Name: " + d.personalInfo.name + "\nExperience: ";
    Text.FactorAtEnd(s1, experience);
    var s2 := s1 + experience;
    Text.FactorExtend(experience, s2, |s1|, "\nEducation: ");
    var s3 := s2 + "\nEducation: ";
    Text.FactorAtEnd(s3, education);
    Text.FactorExtend(experience, s3, |s1|, education);
    var s4 := s3 + education;
    Text.FactorExtend(experience, s4, |s1|, "\nSkills: ");
    Text.FactorExtend(education, s4, |s3|, "\nSkills: ");
    var s5 := s4 + "\nSkills: ";
    Text.FactorAtEnd(s5, skills);
    Text.FactorExtend(experience, s5, |s1|, skills);
    Text.FactorExtend(education, s5, |s3|, skills);
    var s6 := s5 + skills;
    Text.FactorExtend(experience, s6, |s1|, SummaryOutro);
    Text.FactorExtend(education, s6, |s3|, SummaryOutro);
    Text.FactorExtend(skills, s6, |s5|, SummaryOutro);
  }

  /** Every experience, education entry and skill of the resume is mentioned in the summary prompt. */
  lemma SummaryPromptMentionsEntries(d: ResumeData)
    ensures forall i | 0 <= i < |d.experience| :: Text.IsFactor(ExperienceLine(d.experience[i]), SummaryPrompt(d))
    ensures forall i | 0 <= i < |d.education| :: Text.IsFactor(EducationLine(d.education[i]), SummaryPrompt(d))
    ensures forall i | 0 <= i < |d.skills| :: Text.IsFactor(d.skills[i].name, SummaryPrompt(d))
  {
    SummaryPromptLists(d);
    forall i | 0 <= i < |d.experience| ensures Text.IsFactor(ExperienceLine(d.experience[i]), SummaryPrompt(d)) {
      Text.PartIsFactorOfJoin(Seqs.Map(d.experience, ExperienceLine), ", ", i);
      Text.FactorTransitive(ExperienceLine(d.experience[i]), ExperienceList(d), SummaryPrompt(d));
    }
    forall i | 0 <= i < |d.education| ensures Text.IsFactor(EducationLine(d.education[i]), SummaryPrompt(d)) {
      Text.PartIsFactorOfJoin(Seqs.Map(d.education, EducationLine), ", ", i);
      Text.FactorTransitive(EducationLine(d.education[i]), EducationList(d), SummaryPrompt(d));
    }
    forall i | 0 <= i < |d.skills| ensures Text.IsFactor(d.skills[i].name, SummaryPrompt(d)) {
      Text.PartIsFactorOfJoin(Seqs.Map(d.skills, SkillName), ", ", i);
      Text.FactorTransitive(d.skills[i].name, SkillList(d), SummaryPrompt(d));
    }
  }

  /** The tailoring prompt carries the job description, the current summary and every skill name. */
  lemma TailoringPromptMentions(d: ResumeData, jobDescription: string)
    ensures Text.FactorAt(jobDescription, TailoringPrompt(d, jobDescription), |"Job Description:\n"|)
    ensures Text.IsFactor(d.summary, TailoringPrompt(d, jobDescription))
    ensures forall i | 0 <= i < |d.skills| :: Text.IsFactor(d.skills[i].name, TailoringPrompt(d, jobDescription))
  {
    var p := TailoringPrompt(d, jobDescription);
    var skills := SkillList(d);
    var s1 := "Job Description:\n";
    Text.FactorAtEnd(s1, jobDescription);
    var s2 := s1 + jobDescription;
    Text.FactorExtend(jobDescription, s2, |s1|, "\n\nCurrent Resume Summary:\n");
    var s3 := s2 + "\n\nCurrent Resume Summary:\n";
    Text.FactorAtEnd(s3, d.summary);
    Text.FactorExtend(jobDescription, s3, |s1|, d.summary);
    var s4 := s3 + d.summary;
    Text.FactorExtend(jobDescription, s4, |s1|, "\n\nCurrent Skills:\n");
    Text.FactorExtend(d.summary, s4, |s3|, "\n\nCurrent Skills:\n");
    var s5 := s4 + "\n\nCurrent Skills:\n";
    Text.FactorAtEnd(s5, skills);
    Text.FactorExtend(jobDescription, s5, |s1|, skills);
    Text.FactorExtend(d.summary, s5, |s3|, skills);
    var s6 := s5 + skills;
    Text.FactorExtend(jobDescription, s6, |s1|, TailorOutro);
    Text.FactorExtend(d.summary, s6, |s3|, TailorOutro);
    Text.FactorExtend(skills, s6, |s5|, TailorOutro);
    forall i | 0 <= i < |d.skills| ensures Text.IsFactor(d.skills[i].name, p) {
      Text.PartIsFactorOfJoin(Seqs.Map(d.skills, SkillName), ", ", i);
      Text.FactorTransitive(d.skills[i].name, skills, p);
    }
  }

  /** The improvement prompt carries the context first and then the description. */
  lemma ImprovePromptMentions(description: string, context: string)
    ensures Text.FactorAt(context, ImprovePrompt(description, context), |"Context: "|)
    ensures Text.FactorAt(description, ImprovePrompt(description, context),
      |ImprovePrompt(description, context)| - |description|)
  {
    var s1 := "Context: ";
    Text.FactorAtEnd(s1, context);
    var s2 := s1 + context;
    Text.FactorExtend(context, s2, |s1|, "\n\nImprove this description: ");
    var s3 := s2 + "\n\nImprove this description: ";
    Text.FactorExtend(context, s3, |s1|, description);
    Text.FactorAtEnd(s3, description);
  }

  // ---------------------------------------------------------------- applying suggestions

  const SuggestionOpen: string := "\n\n" + "<!-- AI Suggestions: "
  const SuggestionClose: string := " -->"

  /** `applySuggestions`: the suggestions are appended to the summary as an HTML comment. */
  function ApplySuggestions(d: ResumeData, suggestions: string): (r: ResumeData)
    ensures r.(summary := d.summary) == d
    ensures |r.summary| == |d.summary| + |suggestions| + 27
    ensures r.summary[..|d.summary|] == d.summary
  {
    var summary := d.summary + SuggestionOpen + suggestions + SuggestionClose;
    assert summary[..|d.summary|] == d.summary;
    d.(summary := summary)
  }

  /**
   * Reads back the suggestions that were appended to a summary of length `before`: defined
   * exactly when what follows is the comment wrapper.
   */
  function SuggestionOf(summary: string, before: nat): Option<string> {
    var n := |SuggestionOpen| + |SuggestionClose|;
    if before + n <= |summary|
      && summary[before..before + |SuggestionOpen|] == SuggestionOpen
      && summary[|summary| - |SuggestionClose|..] == SuggestionClose
    then Some(summary[before + |SuggestionOpen|..|summary| - |SuggestionClose|])
    else None
  }

  /** The suggestions can be read back from the tailored summary. */
  lemma SuggestionRecovered(d: ResumeData, suggestions: string)
    ensures SuggestionOf(ApplySuggestions(d, suggestions).summary, |d.summary|) == Some(suggestions)
  {
    var s := ApplySuggestions(d, suggestions).summary;
    var b := |d.summary|;
    assert s == d.summary + SuggestionOpen + suggestions + SuggestionClose;
    assert s[b..b + |SuggestionOpen|] == SuggestionOpen;
    assert s[|s| - |SuggestionClose|..] == SuggestionClose;
    assert s[b + |SuggestionOpen|..|s| - |SuggestionClose|] == suggestions;
  }

  /** Whatever is read back was appended in exactly that wrapper after the first `before` characters. */
  lemma SuggestionOfSound(summary: string, before: nat, suggestions: string)
    requires SuggestionOf(summary, before) == Some(suggestions)
    ensures summary == summary[..before] + SuggestionOpen + suggestions + SuggestionClose
  {
    var a := before + |SuggestionOpen|;
    var z := |summary| - |SuggestionClose|;
    assert summary == summary[..before] + summary[before..a] + summary[a..z] + summary[z..];
  }

  // ---------------------------------------------------------------- the service

  function SummaryRequest(d: ResumeData): Request {
    Request(ChatModel, SummarySystem, SummaryPrompt(d), 200, 0.7)
  }

  function TailorRequest(d: ResumeData, jobDescription: string): Request {
    Request(ChatModel, TailorSystem, TailoringPrompt(d, jobDescription), 500, 0.3)
  }

  function ImproveRequest(description: string, context: string): Request {
    Request(ChatModel, ImproveSystem, ImprovePrompt(description, context), 150, 0.5)
  }

  /**
   * `AIService`. `client` is the key the chat client was created with, None before any
   * non-empty key was set.
   */
  class AIService {
    var client: Option<string>

    constructor()
      ensures client == None
    {
      client := None;
    }

    /** `setApiKey`: a non-empty key (re)creates the client; an empty one leaves it as it was. */
    method SetApiKey(apiKey: string)
      modifies this
      ensures client == if apiKey != "" then Some(apiKey) else old(client)
    {
      if apiKey != "" {
        client := Some(apiKey);
      }
    }

    /**
     * `generateSummary`: without a client it fails before sending anything; otherwise it sends
     * the summary request and returns the reply's content, '' when there is none.
     */
    method GenerateSummary(d: ResumeData, reply: Reply) returns (sent: Option<Request>, r: Result<string, string>)
      ensures client.None? ==> sent == None && r == Failure(NotConfigured)
      ensures client.Some? ==> sent == Some(SummaryRequest(d))
      ensures client.Some? && reply.Failed? ==> r == Failure(SummaryFailed)
      ensures client.Some? && reply.Answered? ==> r == Success(OrEmpty(reply.content))
    {
      if client.None? {
        return None, Failure(NotConfigured);
      }
      sent := Some(SummaryRequest(d));
      match reply
      case Failed =>
        r := Failure(SummaryFailed);
      case Answered(content) =>
        r := Success(OrEmpty(content));
    }

    /**
     * `tailorForJob`: without a client it fails before sending anything; otherwise the reply's
     * content ('' when none) is appended to the summary and nothing else changes.
     */
    method TailorForJob(d: ResumeData, jobDescription: string, reply: Reply)
      returns (sent: Option<Request>, r: Result<ResumeData, string>)
      ensures client.None? ==> sent == None && r == Failure(NotConfigured)
      ensures client.Some? ==> sent == Some(TailorRequest(d, jobDescription))
      ensures client.Some? && reply.Failed? ==> r == Failure(TailorFailed)
      ensures client.Some? && reply.Answered? ==>
        r.Success? && r.value.(summary := d.summary) == d
        && |d.summary| <= |r.value.summary| && r.value.summary[..|d.summary|] == d.summary
        && SuggestionOf(r.value.summary, |d.summary|) == Some(OrEmpty(reply.content))
    {
      if client.None? {
        return None, Failure(NotConfigured);
      }
      sent := Some(TailorRequest(d, jobDescription));
      match reply
      case Failed =>
        r := Failure(TailorFailed);
      case Answered(content) =>
        var suggestions := OrEmpty(content);
        SuggestionRecovered(d, suggestions);
        r := Success(ApplySuggestions(d, suggestions));
    }

    /**
     * `improveDescription`: without a client it fails before sending anything; otherwise it
     * returns the reply's content, or the original description when the content is absent or empty.
     */
    method ImproveDescription(description: string, context: string, reply: Reply)
      returns (sent: Option<Request>, r: Result<string, string>)
      ensures client.None? ==> sent == None && r == Failure(NotConfigured)
      ensures client.Some? ==> sent == Some(ImproveRequest(description, context))
      ensures client.Some? && reply.Failed? ==> r == Failure(ImproveFailed)
      ensures client.Some? && reply.Answered? && Present(reply.content) ==> r == Success(reply.content.value)
      ensures client.Some? && reply.Answered? && !Present(reply.content) ==> r == Success(description)
    {
      if client.None? {
        return None, Failure(NotConfigured);
      }
      sent := Some(ImproveRequest(description, context));
      match reply
      case Failed =>
        r := Failure(ImproveFailed);
      case Answered(content) =>
        r := Success(if Present(content) then content.value else description);
    }
  }
}
