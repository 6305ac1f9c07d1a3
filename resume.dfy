/**
 * The resume's data model, reconstructed from the records the app builds: the personal
 * details, the four ordered collections and the aggregate root that holds them.
 * Optional text fields (those the forms read as `x || ''`) are Option<string>.
 */
module Resume {
  import opened Wrappers

  datatype PersonalInfo = PersonalInfo(
    name: string, email: string, phone: string, location: string,
    linkedIn: Option<string>, github: Option<string>, website: Option<string>)

  datatype Experience = Experience(
    id: string, company: string, position: string, startDate: string, endDate: string,
    current: bool, description: string, achievements: seq<string>)

  datatype Education = Education(
    id: string, institution: string, degree: string, field: string, startDate: string,
    endDate: string, gpa: Option<string>, achievements: seq<string>)

  /** Level and category hold the strings the selectors produce. */
  datatype Skill = Skill(id: string, name: string, level: string, category: string)

  datatype Project = Project(
    id: string, name: string, description: string, technologies: seq<string>,
    startDate: string, endDate: Option<string>, url: Option<string>, github: Option<string>)

  datatype ResumeData = ResumeData(
    personalInfo: PersonalInfo, summary: string, experience: seq<Experience>,
    education: seq<Education>, skills: seq<Skill>, projects: seq<Project>)

  /** The value of one field of a record, whatever its type (the `value: any` of the forms). */
  datatype Value = Text(text: string) | Flag(flag: bool) | Items(items: seq<string>) | Absent

  /** An optional text field as a Value: Absent when undefined. */
  function OptionalText(o: Option<string>): Value {
    match o
    case Some(s) => Text(s)
    case None => Absent
  }

  /** JavaScript truthiness of an optional string: defined and non-empty. */
  predicate Present(o: Option<string>) {
    o.Some? && o.value != ""
  }

  /** `x || ''`: what an input shows for an optional field. */
  function OrEmpty(o: Option<string>): (s: string)
    ensures s == "" <==> !Present(o)
    ensures Present(o) ==> s == o.value
  {
    o.GetOr("")
  }

  function ExperienceId(e: Experience): string { e.id }
  function EducationId(e: Education): string { e.id }
  function SkillId(s: Skill): string { s.id }
  function ProjectId(p: Project): string { p.id }
}
