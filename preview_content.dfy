/**
 * The content both résumé previews render, as a tree of header, sections, entries, lines and
 * bullets. Styling is dropped; `formatDate` is kept symbolic as Formatted(raw). Conditions the
 * views test with JavaScript truthiness (`x && ...`) are tests for the empty string here.
 */
module PreviewContent {
  import opened Wrappers
  import opened Resume
  import Seqs
  import Text
  import SkillsForm

  /** The position of a contact item in the header, first to last. */
  datatype ContactKind = Mail | Phone | Location | Website | LinkedIn | Github

  function Rank(k: ContactKind): nat {
    match k
    case Mail => 0
    case Phone => 1
    case Location => 2
    case Website => 3
    case LinkedIn => 4
    case Github => 5
  }

  datatype Contact = Contact(kind: ContactKind, text: string)

  /** The text a contact item would show: the field, with an absent link read as empty. */
  function ContactText(p: PersonalInfo, k: ContactKind): string {
    match k
    case Mail => p.email
    case Phone => p.phone
    case Location => p.location
    case Website => OrEmpty(p.website)
    case LinkedIn => OrEmpty(p.linkedIn)
    case Github => OrEmpty(p.github)
  }

  /** A date cell: the formatted value, or one of the two fixed words. */
  datatype DateText = Formatted(raw: string) | Present | Ongoing

  datatype ExperienceEntry = ExperienceEntry(
    position: string, company: string, start: DateText, end: DateText,
    description: Option<string>, bullets: Option<seq<string>>)

  datatype EducationEntry = EducationEntry(
    heading: string, institution: string, gpa: Option<string>, start: DateText, end: DateText,
    bullets: Option<seq<string>>)

  datatype SkillGroup = SkillGroup(heading: string, names: seq<string>)

  datatype Link = LiveDemo(href: string) | GitHubLink(href: string)

  datatype ProjectEntry = ProjectEntry(
    name: string, start: DateText, end: DateText, description: string,
    chips: Option<seq<string>>, links: seq<Link>)

  /** The page, top to bottom; a None section is not rendered. */
  datatype Document = Document(
    name: string, contacts: seq<Contact>, summary: Option<string>,
    experience: Option<seq<ExperienceEntry>>, education: Option<seq<EducationEntry>>,
    skills: Option<seq<SkillGroup>>, projects: Option<seq<ProjectEntry>>)

  /** `personalInfo.name || 'Your Name'`. */
  function HeaderName(p: PersonalInfo): (r: string)
    ensures r == (if p.name == "" then "Your Name" else p.name)
    ensures r != ""
  {
    if p.name != "" then p.name else "Your Name"
  }

  /** `[x]` when the condition holds, nothing otherwise. */
  function When<T>(c: bool, x: T): (r: seq<T>)
    ensures |r| <= 1
  {
    if c then [x] else []
  }

  /** The header's contact items in display order. */
  const ContactOrder: seq<ContactKind> := [Mail, Phone, Location, Website, LinkedIn, Github]

  /** The contact items for the kinds ks, in the order of ks, each only when its text is non-empty. */
  function ContactsFrom(p: PersonalInfo, ks: seq<ContactKind>): (r: seq<Contact>)
    requires forall i, j | 0 <= i < j < |ks| :: Rank(ks[i]) < Rank(ks[j])
    ensures forall i | 0 <= i < |r| :: r[i].text != "" && r[i].text == ContactText(p, r[i].kind)
    ensures forall m | 0 <= m < |ks| && ContactText(p, ks[m]) != "" :: Contact(ks[m], ContactText(p, ks[m])) in r
    ensures ks != [] ==> forall i | 0 <= i < |r| :: Rank(ks[0]) <= Rank(r[i].kind)
    ensures forall i, j | 0 <= i < j < |r| :: Rank(r[i].kind) < Rank(r[j].kind)
  {
    if ks == [] then []
    else
      var k := ks[0];
      var tail := ks[1..];
      var rest := ContactsFrom(p, tail);
      assert forall i | 0 <= i < |rest| :: Rank(k) < Rank(rest[i].kind) by {
        if |ks| > 1 {
          assert Rank(ks[0]) < Rank(tail[0]);
        }
      }
      assert forall m | 1 <= m < |ks| :: ks[m] == tail[m - 1];
      if ContactText(p, k) == "" then
        rest
      else
        var c := Contact(k, ContactText(p, k));
        ConsContact(p, c, rest);
        [c] + rest
  }

  /** Prepending a shown contact that ranks before every later one keeps the list sound and ascending. */
  lemma ConsContact(p: PersonalInfo, c: Contact, rest: seq<Contact>)
    requires c.text != "" && c.text == ContactText(p, c.kind)
    requires forall i | 0 <= i < |rest| :: rest[i].text != "" && rest[i].text == ContactText(p, rest[i].kind)
    requires forall i | 0 <= i < |rest| :: Rank(c.kind) < Rank(rest[i].kind)
    requires forall i, j | 0 <= i < j < |rest| :: Rank(rest[i].kind) < Rank(rest[j].kind)
    ensures forall i | 0 <= i < |[c] + rest| :: ([c] + rest)[i].text != "" && ([c] + rest)[i].text == ContactText(p, ([c] + rest)[i].kind)
    ensures forall i | 0 <= i < |[c] + rest| :: Rank(c.kind) <= Rank(([c] + rest)[i].kind)
    ensures forall i, j | 0 <= i < j < |[c] + rest| :: Rank(([c] + rest)[i].kind) < Rank(([c] + rest)[j].kind)
    ensures c in [c] + rest && forall x | x in rest :: x in [c] + rest
  {
    var r := [c] + rest;
    assert forall i | 1 <= i < |r| :: r[i] == rest[i - 1];
  }

  /** The contact items: each kind appears exactly when its text is non-empty, in display order. */
  function Contacts(p: PersonalInfo): (r: seq<Contact>)
    ensures forall i | 0 <= i < |r| :: r[i].text != "" && r[i].text == ContactText(p, r[i].kind)
    ensures forall k: ContactKind :: Contact(k, ContactText(p, k)) in r <==> ContactText(p, k) != ""
    ensures forall i, j | 0 <= i < j < |r| :: Rank(r[i].kind) < Rank(r[j].kind)
  {
    var r := ContactsFrom(p, ContactOrder);
    forall k: ContactKind ensures Contact(k, ContactText(p, k)) in r <==> ContactText(p, k) != "" {
      assert k == ContactOrder[Rank(k)];
      if Contact(k, ContactText(p, k)) in r {
        var i :| 0 <= i < |r| && r[i] == Contact(k, ContactText(p, k));
      }
    }
    r
  }

  /**
   * The bullet list: shown only when the first line is non-empty; it then holds the lines that
   * are not blank, in order.
   */
  function Bullets(achievements: seq<string>): (r: Option<seq<string>>)
    ensures r.Some? <==> |achievements| > 0 && achievements[0] != ""
    ensures r.Some? ==> forall i | 0 <= i < |r.value| :: !Text.Blank(r.value[i]) && r.value[i] in achievements
    ensures r.Some? ==> forall i | 0 <= i < |achievements| :: !Text.Blank(achievements[i]) ==> achievements[i] in r.value
  {
    if |achievements| > 0 && achievements[0] != "" then
      var kept := Seqs.Filter(achievements, (a: string) => Text.Trim(a) != "");
      forall i | 0 <= i < |achievements| ensures Text.Trim(achievements[i]) != "" <==> !Text.Blank(achievements[i]) {
        Text.TrimEmptyIffBlank(achievements[i]);
      }
      Some(kept)
    else None
  }

  /** An empty first line hides the whole list, whatever follows it. */
  lemma EmptyFirstHidesAll(achievements: seq<string>)
    requires |achievements| > 0 && achievements[0] == ""
    ensures Bullets(achievements) == None
  {
  }

  /** The bullets keep their order: the shown lines of two runs are the shown lines of each. */
  lemma BulletsConcat(a: seq<string>, b: seq<string>)
    requires |a| > 0 && a[0] != ""
    ensures Bullets(a + b).Some? && Bullets(a).Some?
    ensures Bullets(a + b).value == Bullets(a).value + Seqs.Filter(b, (s: string) => Text.Trim(s) != "")
  {
    assert (a + b)[0] == a[0];
    Seqs.FilterConcat(a, b, (s: string) => Text.Trim(s) != "");
  }

  /** A first line of spaces opens the list yet is itself left out of it. */
  lemma BlankFirstOpensList(first: string, rest: seq<string>)
    requires first != "" && Text.Blank(first)
    ensures Bullets([first] + rest).Some?
    ensures Bullets([first] + rest).value == Seqs.Filter(rest, (s: string) => Text.Trim(s) != "")
  {
    Text.TrimEmptyIffBlank(first);
    assert ([first] + rest)[1..] == rest;
  }

  /** `exp.current ? 'Present' : formatDate(exp.endDate)`. */
  function ExperienceEnd(e: Experience): (r: DateText)
    ensures r == Present <==> e.current
    ensures !e.current ==> r == Formatted(e.endDate)
  {
    if e.current then Present else Formatted(e.endDate)
  }

  /** `project.endDate ? formatDate(project.endDate) : 'Ongoing'`. */
  function ProjectEnd(p: Project): (r: DateText)
    ensures r == Ongoing <==> !Resume.Present(p.endDate)
    ensures Resume.Present(p.endDate) ==> r == Formatted(p.endDate.value)
  {
    if Resume.Present(p.endDate) then Formatted(p.endDate.value) else Ongoing
  }

  /** `{edu.degree} {edu.field && `in ${edu.field}`}`: the field appears only when non-empty. */
  function EducationHeading(e: Education): (r: string)
    ensures e.field == "" ==> r == e.degree + " "
    ensures e.field != "" ==> r == e.degree + " in " + e.field
  {
    e.degree + " " + (if e.field != "" then "in " + e.field else "")
  }

  /** A value rendered only when it is non-empty. */
  function NonEmpty(s: string): (r: Option<string>)
    ensures r.Some? <==> s != ""
    ensures r.Some? ==> r.value == s
  {
    if s != "" then Some(s) else None
  }

  function ExperienceEntryOf(e: Experience): (r: ExperienceEntry)
    ensures r.position == e.position && r.company == e.company
    ensures r.start == Formatted(e.startDate) && r.end == ExperienceEnd(e)
    ensures r.description.Some? <==> e.description != ""
    ensures r.description.Some? ==> r.description.value == e.description
    ensures r.bullets == Bullets(e.achievements)
  {
    ExperienceEntry(e.position, e.company, Formatted(e.startDate), ExperienceEnd(e),
      NonEmpty(e.description), Bullets(e.achievements))
  }

  /** Education always shows the formatted end date; the GPA line needs a non-empty GPA. */
  function EducationEntryOf(e: Education): (r: EducationEntry)
    ensures r.heading == EducationHeading(e) && r.institution == e.institution
    ensures r.gpa.Some? <==> Resume.Present(e.gpa)
    ensures r.gpa.Some? ==> r.gpa.value == e.gpa.value
    ensures r.start == Formatted(e.startDate) && r.end == Formatted(e.endDate)
    ensures r.bullets == Bullets(e.achievements)
  {
    EducationEntry(EducationHeading(e), e.institution, if Resume.Present(e.gpa) then e.gpa else None,
      Formatted(e.startDate), Formatted(e.endDate), Bullets(e.achievements))
  }

  /** The links row: Live Demo, then GitHub, each only when its address is non-empty. */
  function Links(p: Project): (r: seq<Link>)
    ensures LiveDemo(OrEmpty(p.url)) in r <==> Resume.Present(p.url)
    ensures GitHubLink(OrEmpty(p.github)) in r <==> Resume.Present(p.github)
    ensures |r| == (if Resume.Present(p.url) then 1 else 0) + (if Resume.Present(p.github) then 1 else 0)
    ensures forall i | 0 <= i < |r| :: r[i] == LiveDemo(OrEmpty(p.url)) || r[i] == GitHubLink(OrEmpty(p.github))
    ensures |r| == 2 ==> r[0].LiveDemo? && r[1].GitHubLink?
    ensures forall i | 0 <= i < |r| :: r[i].href != ""
  {
    When(Resume.Present(p.url), LiveDemo(OrEmpty(p.url))) + When(Resume.Present(p.github), GitHubLink(OrEmpty(p.github)))
  }

  /** The project description is always rendered; the chips only for a non-empty list. */
  function ProjectEntryOf(p: Project): (r: ProjectEntry)
    ensures r.name == p.name && r.description == p.description
    ensures r.start == Formatted(p.startDate) && r.end == ProjectEnd(p)
    ensures r.chips.Some? <==> p.technologies != []
    ensures r.chips.Some? ==> r.chips.value == p.technologies
    ensures r.links == Links(p)
  {
    ProjectEntry(p.name, Formatted(p.startDate), ProjectEnd(p), p.description,
      if p.technologies != [] then Some(p.technologies) else None, Links(p))
  }

  function SkillGroupOf(b: SkillsForm.Bucket): (g: SkillGroup)
    ensures g.heading == b.category + " Skills" && |g.names| == |b.skills|
    ensures forall k | 0 <= k < |b.skills| :: g.names[k] == b.skills[k].name
  {
    SkillGroup(b.category + " Skills", Seqs.Map(b.skills, (s: Skill) => s.name))
  }

  /** The skill groups: one per occupied category, in the fixed category order. */
  function SkillGroups(skills: seq<Skill>): (r: seq<SkillGroup>)
    ensures |r| == |SkillsForm.CategoryBuckets(skills)|
    ensures forall j | 0 <= j < |r| ::
      var b := SkillsForm.CategoryBuckets(skills)[j];
      r[j].heading == b.category + " Skills" && |r[j].names| == |b.skills| && r[j].names != []
      && forall k | 0 <= k < |b.skills| :: r[j].names[k] == b.skills[k].name
  {
    GroupsOf(SkillsForm.CategoryBuckets(skills))
  }

  /** One group per bucket, in bucket order. */
  function GroupsOf(bs: seq<SkillsForm.Bucket>): (r: seq<SkillGroup>)
    ensures |r| == |bs|
    ensures forall j | 0 <= j < |bs| :: r[j] == SkillGroupOf(bs[j])
  {
    if bs == [] then [] else [SkillGroupOf(bs[0])] + GroupsOf(bs[1..])
  }

  /** A list section: rendered only for a non-empty list, one entry per item in list order. */
  function ListSection<A, B>(xs: seq<A>, f: A -> B): (r: Option<seq<B>>)
    ensures r.Some? <==> xs != []
    ensures r.Some? ==> |r.value| == |xs| && forall i | 0 <= i < |xs| :: r.value[i] == f(xs[i])
  {
    if xs != [] then Some(Seqs.Map(xs, f)) else None
  }

  /** The whole content tree of a résumé. */
  function Content(d: ResumeData): (doc: Document)
    ensures doc.name == HeaderName(d.personalInfo) && doc.contacts == Contacts(d.personalInfo)
    ensures doc.summary.Some? <==> d.summary != ""
    ensures doc.summary.Some? ==> doc.summary.value == d.summary
    ensures doc.experience.Some? <==> d.experience != []
    ensures doc.education.Some? <==> d.education != []
    ensures doc.skills.Some? <==> d.skills != []
    ensures doc.projects.Some? <==> d.projects != []
    ensures doc.experience == ListSection(d.experience, ExperienceEntryOf)
    ensures doc.education == ListSection(d.education, EducationEntryOf)
    ensures doc.skills.Some? ==> doc.skills.value == SkillGroups(d.skills)
    ensures doc.projects == ListSection(d.projects, ProjectEntryOf)
  {
    Document(
      HeaderName(d.personalInfo), Contacts(d.personalInfo), NonEmpty(d.summary),
      ListSection(d.experience, ExperienceEntryOf), ListSection(d.education, EducationEntryOf),
      if d.skills != [] then Some(SkillGroups(d.skills)) else None,
      ListSection(d.projects, ProjectEntryOf))
  }

  /** The summary is tested untrimmed: text of spaces alone still opens the section. */
  lemma BlankSummaryShown(d: ResumeData)
    requires d.summary != "" && Text.Blank(d.summary)
    ensures Content(d).summary == Some(d.summary)
  {
  }

  /** With valid skills the skills section lists every skill under its own category. */
  lemma SkillsSectionCoversValid(d: ResumeData, i: nat)
    requires i < |d.skills| && SkillsForm.ValidSkill(d.skills[i])
    ensures Content(d).skills.Some?
    ensures exists j | 0 <= j < |Content(d).skills.value| ::
      Content(d).skills.value[j].heading == d.skills[i].category + " Skills"
  {
    SkillsForm.BucketsCoverValidSkills(d.skills, i);
    var buckets := SkillsForm.CategoryBuckets(d.skills);
    var j :| 0 <= j < |buckets| && buckets[j].category == d.skills[i].category && d.skills[i] in buckets[j].skills;
    assert Content(d).skills.value[j].heading == d.skills[i].category + " Skills";
  }
}
