/**
 * The education editor: add an entry, set one field of the entries with an id, remove the
 * entries with an id, and the achievement sub-list edits. Every operation hands a whole new list
 * to the owner; an operation that hands nothing over yields None.
 */
module EducationForm {
  import opened Wrappers
  import opened Resume
  import IdLists
  import AchievementLists

  /** The keys of an Education record. */
  datatype Field = Id | Institution | Degree | FieldOfStudy | StartDate | EndDate | Gpa | Achievements

  /** `edu[field]`. */
  function Get(e: Education, f: Field): Value {
    match f
    case Id => Text(e.id)
    case Institution => Text(e.institution)
    case Degree => Text(e.degree)
    case FieldOfStudy => Text(e.field)
    case StartDate => Text(e.startDate)
    case EndDate => Text(e.endDate)
    case Gpa => OptionalText(e.gpa)
    case Achievements => Items(e.achievements)
  }

  /** A (field, value) pair the form passes to `updateEducation`; the id is never edited. */
  datatype Edit =
    | SetInstitution(institution: string) | SetDegree(degree: string) | SetFieldOfStudy(field: string)
    | SetStartDate(startDate: string) | SetEndDate(endDate: string) | SetGpa(gpa: string)
    | SetAchievements(achievements: seq<string>)

  function FieldOf(edit: Edit): Field {
    match edit
    case SetInstitution(_) => Institution
    case SetDegree(_) => Degree
    case SetFieldOfStudy(_) => FieldOfStudy
    case SetStartDate(_) => StartDate
    case SetEndDate(_) => EndDate
    case SetGpa(_) => Gpa
    case SetAchievements(_) => Achievements
  }

  function NewValue(edit: Edit): Value {
    match edit
    case SetInstitution(s) => Text(s)
    case SetDegree(s) => Text(s)
    case SetFieldOfStudy(s) => Text(s)
    case SetStartDate(s) => Text(s)
    case SetEndDate(s) => Text(s)
    case SetGpa(s) => Text(s)
    case SetAchievements(a) => Items(a)
  }

  /** after is before with the edit's field set to the edit's value and every other field kept. */
  predicate Edited(before: Education, after: Education, edit: Edit) {
    && Get(after, FieldOf(edit)) == NewValue(edit)
    && forall f: Field | f != FieldOf(edit) :: Get(after, f) == Get(before, f)
  }

  /** `{ ...edu, [field]: value }`. */
  function Apply(e: Education, edit: Edit): (r: Education)
    ensures Edited(e, r, edit)
  {
    match edit
    case SetInstitution(s) => e.(institution := s)
    case SetDegree(s) => e.(degree := s)
    case SetFieldOfStudy(s) => e.(field := s)
    case SetStartDate(s) => e.(startDate := s)
    case SetEndDate(s) => e.(endDate := s)
    case SetGpa(s) => e.(gpa := Some(s))
    case SetAchievements(a) => e.(achievements := a)
  }

  predicate UniqueIds(xs: seq<Education>) {
    IdLists.UniqueKeys(xs, EducationId)
  }

  /** Every entry keeps at least one achievement line. */
  predicate AchievementsNonEmpty(xs: seq<Education>) {
    forall i | 0 <= i < |xs| :: |xs[i].achievements| >= 1
  }

  /** The record `addEducation` creates for a freshly generated id. */
  function NewEducation(id: string): Education {
    Education(id, "", "", "", "", "", Some(""), [""])
  }

  /** `addEducation`: one blank entry appended after the existing ones. */
  function AddEducation(xs: seq<Education>, id: string): (r: seq<Education>)
    ensures |r| == |xs| + 1 && r[..|xs|] == xs
    ensures var e := r[|xs|];
      && e.id == id && e.institution == "" && e.degree == "" && e.field == ""
      && e.startDate == "" && e.endDate == "" && e.gpa == Some("") && e.achievements == [""]
  {
    xs + [NewEducation(id)]
  }

  /** `updateEducation(id, field, value)`: the entries with the id edited, the rest untouched. */
  function UpdateEducation(xs: seq<Education>, id: string, edit: Edit): (r: seq<Education>)
    ensures |r| == |xs|
    ensures forall i | 0 <= i < |xs| ::
      if xs[i].id == id then Edited(xs[i], r[i], edit) && r[i].id == id else r[i] == xs[i]
  {
    IdLists.UpdateWhere(xs, EducationId, id, e => Apply(e, edit))
  }

  /** `removeEducation(id)`: exactly the entries with another id survive. */
  function RemoveEducation(xs: seq<Education>, id: string): (r: seq<Education>)
    ensures forall i | 0 <= i < |r| :: r[i].id != id && r[i] in xs
    ensures forall i | 0 <= i < |xs| :: xs[i].id != id ==> xs[i] in r
  {
    IdLists.RemoveWhere(xs, EducationId, id)
  }

  function FindEducation(xs: seq<Education>, id: string): Option<Education> {
    IdLists.Find(xs, EducationId, id)
  }

  /** Setting a field twice is setting it once. */
  lemma UpdateEducationTwice(xs: seq<Education>, id: string, edit: Edit)
    ensures UpdateEducation(UpdateEducation(xs, id, edit), id, edit) == UpdateEducation(xs, id, edit)
  {
    IdLists.UpdateTwice(xs, EducationId, id, e => Apply(e, edit));
  }

  /** Updating an id no entry has yields an equal list. */
  lemma UpdateEducationUnknownId(xs: seq<Education>, id: string, edit: Edit)
    requires IdLists.Absent(xs, EducationId, id)
    ensures UpdateEducation(xs, id, edit) == xs
  {
    IdLists.UpdateAbsent(xs, EducationId, id, e => Apply(e, edit));
  }

  /** Removal keeps the surviving entries in order: it distributes over concatenation. */
  lemma RemoveEducationConcat(a: seq<Education>, b: seq<Education>, id: string)
    ensures RemoveEducation(a + b, id) == RemoveEducation(a, id) + RemoveEducation(b, id)
  {
    IdLists.RemoveConcat(a, b, EducationId, id);
  }

  /** Adding with a fresh id, editing and removing keep the ids unique. */
  lemma EditsKeepIdsUnique(xs: seq<Education>, id: string, newId: string, edit: Edit)
    requires UniqueIds(xs) && IdLists.Absent(xs, EducationId, newId)
    ensures UniqueIds(AddEducation(xs, newId))
    ensures UniqueIds(UpdateEducation(xs, id, edit))
    ensures UniqueIds(RemoveEducation(xs, id))
  {
    IdLists.AppendKeepsUnique(xs, EducationId, NewEducation(newId));
    IdLists.UpdateKeepsUnique(xs, EducationId, id, e => Apply(e, edit));
    IdLists.RemoveKeepsUnique(xs, EducationId, id);
  }

  /**
   * `addAchievement(eduId)`: nothing is emitted for an unknown id; otherwise the entries with
   * the id get the first such entry's lines plus a blank one.
   */
  function AddAchievement(xs: seq<Education>, eduId: string): (r: Option<seq<Education>>)
    ensures r.None? <==> IdLists.Absent(xs, EducationId, eduId)
    ensures r.Some? ==> |r.value| == |xs|
    ensures UniqueIds(xs) ==> forall k | 0 <= k < |xs| && xs[k].id == eduId ::
      r == Some(xs[k := xs[k].(achievements := xs[k].achievements + [""])])
  {
    match FindEducation(xs, eduId)
    case None => None
    case Some(e) =>
      var r := UpdateEducation(xs, eduId, SetAchievements(AchievementLists.AppendBlank(e.achievements)));
      assert UniqueIds(xs) ==> forall k | 0 <= k < |xs| && xs[k].id == eduId ::
        r == xs[k := xs[k].(achievements := xs[k].achievements + [""])] by {
        if UniqueIds(xs) {
          forall k | 0 <= k < |xs| && xs[k].id == eduId
            ensures r == xs[k := xs[k].(achievements := xs[k].achievements + [""])]
          {
            IdLists.FindUnique(xs, EducationId, k);
          }
        }
      }
      Some(r)
  }

  /**
   * `updateAchievement(eduId, index, value)`: copies the first matching entry's lines, writes
   * one slot, and sets the copy on the entries with the id. The form only passes the index of a
   * rendered line.
   */
  method UpdateAchievement(xs: seq<Education>, eduId: string, index: nat, value: string)
    returns (r: Option<seq<Education>>)
    requires FindEducation(xs, eduId).Some? ==> index < |FindEducation(xs, eduId).value.achievements|
    ensures r.None? <==> IdLists.Absent(xs, EducationId, eduId)
    ensures r.Some? ==> |r.value| == |xs|
    ensures r.Some? ==> forall i | 0 <= i < |xs| && xs[i].id != eduId :: r.value[i] == xs[i]
    ensures r.Some? ==> forall i | 0 <= i < |xs| && xs[i].id == eduId ::
      r.value[i] == xs[i].(achievements := FindEducation(xs, eduId).value.achievements[index := value])
    ensures UniqueIds(xs) ==> forall k | 0 <= k < |xs| && xs[k].id == eduId ::
      r == Some(xs[k := xs[k].(achievements := xs[k].achievements[index := value])])
  {
    var found := FindEducation(xs, eduId);
    if found.None? {
      return None;
    }
    var e := found.value;
    var lines := AchievementLists.ReplaceAt(e.achievements, index, value);
    assert lines == e.achievements[index := value];
    var updated := UpdateEducation(xs, eduId, SetAchievements(lines));
    if UniqueIds(xs) {
      forall k | 0 <= k < |xs| && xs[k].id == eduId
        ensures updated == xs[k := xs[k].(achievements := xs[k].achievements[index := value])]
      {
        IdLists.FindUnique(xs, EducationId, k);
      }
    }
    r := Some(updated);
  }

  /**
   * `removeAchievement(eduId, index)`: emitted only when the first matching entry has more than
   * one line; then that list without the line at index is set on the entries with the id.
   */
  function RemoveAchievement(xs: seq<Education>, eduId: string, index: nat): (r: Option<seq<Education>>)
    ensures r.Some? ==>
      FindEducation(xs, eduId).Some? && AchievementLists.RemoveOffered(FindEducation(xs, eduId).value.achievements)
    ensures r.Some? ==> |r.value| == |xs|
    ensures UniqueIds(xs) ==> forall k | 0 <= k < |xs| && xs[k].id == eduId ::
      r == if |xs[k].achievements| > 1
           then Some(xs[k := xs[k].(achievements := AchievementLists.RemoveAt(xs[k].achievements, index))])
           else None
  {
    match FindEducation(xs, eduId)
    case None => None
    case Some(e) =>
      match AchievementLists.GuardedRemove(e.achievements, index)
      case None => None
      case Some(lines) =>
        var r := UpdateEducation(xs, eduId, SetAchievements(lines));
        assert UniqueIds(xs) ==> forall k | 0 <= k < |xs| && xs[k].id == eduId ::
          r == xs[k := xs[k].(achievements := AchievementLists.RemoveAt(xs[k].achievements, index))] by {
          if UniqueIds(xs) {
            forall k | 0 <= k < |xs| && xs[k].id == eduId
              ensures r == xs[k := xs[k].(achievements := AchievementLists.RemoveAt(xs[k].achievements, index))]
            {
              IdLists.FindUnique(xs, EducationId, k);
            }
          }
        }
        Some(r)
  }

  /** Whatever an achievement removal emits, every entry still has at least one line. */
  lemma RemoveAchievementKeepsFloor(xs: seq<Education>, eduId: string, index: nat)
    requires AchievementsNonEmpty(xs)
    ensures RemoveAchievement(xs, eduId, index).Some? ==> AchievementsNonEmpty(RemoveAchievement(xs, eduId, index).value)
  {
    var r := RemoveAchievement(xs, eduId, index);
    if r.Some? {
      var lines := AchievementLists.RemoveAt(FindEducation(xs, eduId).value.achievements, index);
      assert |lines| >= 1;
      var u := UpdateEducation(xs, eduId, SetAchievements(lines));
      assert r.value == u;
      forall i | 0 <= i < |u| ensures |u[i].achievements| >= 1 {
        if xs[i].id == eduId {
          assert Get(u[i], Achievements) == Items(lines);
        }
      }
    }
  }
}
