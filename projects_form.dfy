/**
 * The projects editor: add, update by id and remove by id, plus the technologies field, which
 * is edited as one comma-separated string and stored as a list of cleaned-up names.
 */
module ProjectsForm {
  import opened Wrappers
  import opened Resume
  import IdLists
  import Seqs
  import Text

  /** The keys of a Project record. */
  datatype Field = Id | Name | Description | Technologies | StartDate | EndDate | Url | Github

  /** `project[field]`. */
  function Get(p: Project, f: Field): Value {
    match f
    case Id => Text(p.id)
    case Name => Text(p.name)
    case Description => Text(p.description)
    case Technologies => Items(p.technologies)
    case StartDate => Text(p.startDate)
    case EndDate => OptionalText(p.endDate)
    case Url => OptionalText(p.url)
    case Github => OptionalText(p.github)
  }

  /** A (field, value) pair the form passes to `updateProject`; the id is never edited. */
  datatype Edit =
    | SetName(name: string) | SetDescription(description: string)
    | SetTechnologies(technologies: seq<string>) | SetStartDate(startDate: string)
    | SetEndDate(endDate: string) | SetUrl(url: string) | SetGithub(github: string)

  function FieldOf(edit: Edit): Field {
    match edit
    case SetName(_) => Name
    case SetDescription(_) => Description
    case SetTechnologies(_) => Technologies
    case SetStartDate(_) => StartDate
    case SetEndDate(_) => EndDate
    case SetUrl(_) => Url
    case SetGithub(_) => Github
  }

  function NewValue(edit: Edit): Value {
    match edit
    case SetName(s) => Text(s)
    case SetDescription(s) => Text(s)
    case SetTechnologies(t) => Items(t)
    case SetStartDate(s) => Text(s)
    case SetEndDate(s) => Text(s)
    case SetUrl(s) => Text(s)
    case SetGithub(s) => Text(s)
  }

  /** after is before with the edit's field set to the edit's value and every other field kept. */
  predicate Edited(before: Project, after: Project, edit: Edit) {
    && Get(after, FieldOf(edit)) == NewValue(edit)
    && forall f: Field | f != FieldOf(edit) :: Get(after, f) == Get(before, f)
  }

  /** `{ ...project, [field]: value }`. */
  function Apply(p: Project, edit: Edit): (r: Project)
    ensures Edited(p, r, edit)
  {
    match edit
    case SetName(s) => p.(name := s)
    case SetDescription(s) => p.(description := s)
    case SetTechnologies(t) => p.(technologies := t)
    case SetStartDate(s) => p.(startDate := s)
    case SetEndDate(s) => p.(endDate := Some(s))
    case SetUrl(s) => p.(url := Some(s))
    case SetGithub(s) => p.(github := Some(s))
  }

  predicate UniqueIds(xs: seq<Project>) {
    IdLists.UniqueKeys(xs, ProjectId)
  }

  /** The record `addProject` creates for a freshly generated id. */
  function NewProject(id: string): Project {
    Project(id, "", "", [], "", Some(""), Some(""), Some(""))
  }

  /** `addProject`: one blank project appended after the existing ones. */
  function AddProject(xs: seq<Project>, id: string): (r: seq<Project>)
    ensures |r| == |xs| + 1 && r[..|xs|] == xs
    ensures var p := r[|xs|];
      && p.id == id && p.name == "" && p.description == "" && p.technologies == []
      && p.startDate == "" && p.endDate == Some("") && p.url == Some("") && p.github == Some("")
  {
    xs + [NewProject(id)]
  }

  /** `updateProject(id, field, value)`: the projects with the id edited, the rest untouched. */
  function UpdateProject(xs: seq<Project>, id: string, edit: Edit): (r: seq<Project>)
    ensures |r| == |xs|
    ensures forall i | 0 <= i < |xs| ::
      if xs[i].id == id then Edited(xs[i], r[i], edit) && r[i].id == id else r[i] == xs[i]
  {
    IdLists.UpdateWhere(xs, ProjectId, id, p => Apply(p, edit))
  }

  /** `removeProject(id)`: exactly the projects with another id survive. */
  function RemoveProject(xs: seq<Project>, id: string): (r: seq<Project>)
    ensures forall i | 0 <= i < |r| :: r[i].id != id && r[i] in xs
    ensures forall i | 0 <= i < |xs| :: xs[i].id != id ==> xs[i] in r
  {
    IdLists.RemoveWhere(xs, ProjectId, id)
  }

  /** Setting a field twice is setting it once. */
  lemma UpdateProjectTwice(xs: seq<Project>, id: string, edit: Edit)
    ensures UpdateProject(UpdateProject(xs, id, edit), id, edit) == UpdateProject(xs, id, edit)
  {
    IdLists.UpdateTwice(xs, ProjectId, id, p => Apply(p, edit));
  }

  /** Updating an id no project has yields an equal list. */
  lemma UpdateProjectUnknownId(xs: seq<Project>, id: string, edit: Edit)
    requires IdLists.Absent(xs, ProjectId, id)
    ensures UpdateProject(xs, id, edit) == xs
  {
    IdLists.UpdateAbsent(xs, ProjectId, id, p => Apply(p, edit));
  }

  /** Removal keeps the surviving projects in order: it distributes over concatenation. */
  lemma RemoveProjectConcat(a: seq<Project>, b: seq<Project>, id: string)
    ensures RemoveProject(a + b, id) == RemoveProject(a, id) + RemoveProject(b, id)
  {
    IdLists.RemoveConcat(a, b, ProjectId, id);
  }

  /** Adding with a fresh id, editing and removing keep the ids unique. */
  lemma EditsKeepIdsUnique(xs: seq<Project>, id: string, newId: string, edit: Edit)
    requires UniqueIds(xs) && IdLists.Absent(xs, ProjectId, newId)
    ensures UniqueIds(AddProject(xs, newId))
    ensures UniqueIds(UpdateProject(xs, id, edit))
    ensures UniqueIds(RemoveProject(xs, id))
  {
    IdLists.AppendKeepsUnique(xs, ProjectId, NewProject(newId));
    IdLists.UpdateKeepsUnique(xs, ProjectId, id, p => Apply(p, edit));
    IdLists.RemoveKeepsUnique(xs, ProjectId, id);
  }

  /** A technology name as the parse produces it: non-empty, trimmed and comma-free. */
  predicate CleanName(t: string) {
    t != "" && Text.Trimmed(t) && ',' !in t
  }

  /** `techString.split(',').map(t => t.trim()).filter(t => t)`. */
  function ParseTechnologies(s: string): (r: seq<string>)
    ensures forall i | 0 <= i < |r| :: CleanName(r[i])
  {
    var pieces := Text.Split(s, ',');
    var trimmed := Seqs.Map(pieces, Text.Trim);
    forall i | 0 <= i < |trimmed| ensures Text.Trimmed(trimmed[i]) && ',' !in trimmed[i] {
      Text.TrimKeepsAbsent(pieces[i], ',');
    }
    Seqs.FilterKeepsProperty(trimmed, t => t != "", t => Text.Trimmed(t) && ',' !in t);
    Seqs.Filter(trimmed, t => t != "")
  }

  /** `updateTechnologies(id, techString)`: the parsed list set on the projects with the id. */
  function UpdateTechnologies(xs: seq<Project>, id: string, techString: string): (r: seq<Project>)
    ensures |r| == |xs|
    ensures var techs := ParseTechnologies(techString);
      forall i | 0 <= i < |xs| :: r[i] == if xs[i].id == id then xs[i].(technologies := techs) else xs[i]
  {
    UpdateProject(xs, id, SetTechnologies(ParseTechnologies(techString)))
  }

  /** `project.technologies.join(', ')`: what the input shows. */
  function TechnologiesText(p: Project): (t: string)
    ensures (forall i | 0 <= i < |p.technologies| :: CleanName(p.technologies[i])) ==>
      ParseTechnologies(t) == p.technologies
  {
    var t := Text.Join(p.technologies, ", ");
    assert (forall i | 0 <= i < |p.technologies| :: CleanName(p.technologies[i])) ==>
      ParseTechnologies(t) == p.technologies by {
      if forall i | 0 <= i < |p.technologies| :: CleanName(p.technologies[i]) {
        ParseJoin(p.technologies);
      }
    }
    t
  }

  /** A comma-free piece contributes its trimmed self, unless it is blank. */
  lemma ParseSingle(x: string)
    requires ',' !in x
    ensures ParseTechnologies(x) == if Text.Trim(x) == "" then [] else [Text.Trim(x)]
  {
    Text.SplitNoDelimiter(x, ',');
  }

  /** The pieces on either side of a comma are parsed independently and kept in order. */
  lemma ParseConcat(a: string, b: string)
    ensures ParseTechnologies(a + "," + b) == ParseTechnologies(a) + ParseTechnologies(b)
  {
    assert a + "," + b == a + [','] + b;
    Text.SplitAround(a, b, ',');
    var pa := Text.Split(a, ',');
    var pb := Text.Split(b, ',');
    Seqs.MapConcat(pa, pb, Text.Trim);
    Seqs.FilterConcat(Seqs.Map(pa, Text.Trim), Seqs.Map(pb, Text.Trim), t => t != "");
  }

  /** Input made of nothing but commas and whitespace, the empty string included, parses to []. */
  lemma ParseOnlySeparators(s: string)
    requires forall i | 0 <= i < |s| :: s[i] == ',' || Text.IsWhitespace(s[i])
    ensures ParseTechnologies(s) == []
  {
    var pieces := Text.Split(s, ',');
    var trimmed := Seqs.Map(pieces, Text.Trim);
    forall i | 0 <= i < |trimmed| ensures trimmed[i] == "" {
      assert forall j | 0 <= j < |pieces[i]| :: pieces[i][j] in s;
      assert Text.Blank(pieces[i]);
      Text.TrimEmptyIffBlank(pieces[i]);
    }
    Seqs.FilterDropsAll(trimmed, t => t != "");
  }

  /** A clean name after a blank comma-free lead-in parses to that name alone. */
  lemma ParseLeadIn(p: string, t: string)
    requires Text.Blank(p) && ',' !in p && CleanName(t)
    ensures ParseTechnologies(p + t) == [t]
  {
    Text.TrimBlankPrefix(p, t);
    Text.TrimTrimmed(t);
    assert ',' !in p + t;
    ParseSingle(p + t);
  }

  /** The ", " separator of a join splits the text into the head and the lead-in of the rest. */
  lemma JoinShape(p: string, ts: seq<string>)
    requires |ts| >= 2
    ensures p + Text.Join(ts, ", ") == (p + ts[0]) + "," + (" " + Text.Join(ts[1..], ", "))
  {
  }

  /** Joining clean names with ", " after a blank comma-free lead-in parses back to the names. */
  lemma {:induction false} ParseJoinAfterBlank(p: string, ts: seq<string>)
    requires Text.Blank(p) && ',' !in p
    requires forall i | 0 <= i < |ts| :: CleanName(ts[i])
    ensures ParseTechnologies(p + Text.Join(ts, ", ")) == ts
    decreases ts
  {
    if |ts| == 0 {
      assert p + Text.Join(ts, ", ") == p;
      ParseOnlySeparators(p);
    } else if |ts| == 1 {
      assert p + Text.Join(ts, ", ") == p + ts[0];
      ParseLeadIn(p, ts[0]);
    } else {
      ParseJoinAfterBlank(" ", ts[1..]);
      ParseJoinStep(p, ts);
    }
  }

  /** One step of the round trip: the first name, then the rest after its ", " separator. */
  lemma ParseJoinStep(p: string, ts: seq<string>)
    requires Text.Blank(p) && ',' !in p && |ts| >= 2 && CleanName(ts[0])
    requires ParseTechnologies(" " + Text.Join(ts[1..], ", ")) == ts[1..]
    ensures ParseTechnologies(p + Text.Join(ts, ", ")) == ts
  {
    JoinShape(p, ts);
    ParseConcat(p + ts[0], " " + Text.Join(ts[1..], ", "));
    ParseLeadIn(p, ts[0]);
    assert [ts[0]] + ts[1..] == ts;
  }

  /** Round trip: the displayed text of a clean list parses back to that list. */
  lemma ParseJoin(ts: seq<string>)
    requires forall i | 0 <= i < |ts| :: CleanName(ts[i])
    ensures ParseTechnologies(Text.Join(ts, ", ")) == ts
  {
    ParseJoinAfterBlank("", ts);
    assert "" + Text.Join(ts, ", ") == Text.Join(ts, ", ");
  }

  /** Re-parsing the displayed text of a parsed list changes nothing. */
  lemma ParseIdempotent(s: string)
    ensures ParseTechnologies(Text.Join(ParseTechnologies(s), ", ")) == ParseTechnologies(s)
  {
    ParseJoin(ParseTechnologies(s));
  }
}
