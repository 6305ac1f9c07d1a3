/**
 * The work-experience editor: add an entry, set one field of the entries with an id, remove the
 * entries with an id, and the achievement sub-list edits. Every operation hands a whole new list
 * to the owner; an operation that hands nothing over yields None.
 */
module ExperienceForm {
  import opened Wrappers
  import opened Resume
  import IdLists
  import AchievementLists

  /** The keys of an Experience record. */
  datatype Field = Id | Company | Position | StartDate | EndDate | Current | Description | Achievements

  /** `exp[field]`. */
  function Get(e: Experience, f: Field): Value {
    match f
    case Id => Text(e.id)
    case Company => Text(e.company)
    case Position => Text(e.position)
    case StartDate => Text(e.startDate)
    case EndDate => Text(e.endDate)
    case Current => Flag(e.current)
    case Description => Text(e.description)
    case Achievements => Items(e.achievements)
  }

  /** A (field, value) pair the form passes to `updateExperience`; the id is never edited. */
  datatype Edit =
    | SetCompany(company: string) | SetPosition(position: string)
    | SetStartDate(startDate: string) | SetEndDate(endDate: string) | SetCurrent(current: bool)
    | SetDescription(description: string) | SetAchievements(achievements: seq<string>)

  function FieldOf(edit: Edit): Field {
    match edit
    case SetCompany(_) => Company
    case SetPosition(_) => Position
    case SetStartDate(_) => StartDate
    case SetEndDate(_) => EndDate
    case SetCurrent(_) => Current
    case SetDescription(_) => Description
    case SetAchievements(_) => Achievements
  }

  function NewValue(edit: Edit): Value {
    match edit
    case SetCompany(s) => Text(s)
    case SetPosition(s) => Text(s)
    case SetStartDate(s) => Text(s)
    case SetEndDate(s) => Text(s)
    case SetCurrent(b) => Flag(b)
    case SetDescription(s) => Text(s)
    case SetAchievements(a) => Items(a)
  }

  /** after is before with the edit's field set to the edit's value and every other field kept. */
  predicate Edited(before: Experience, after: Experience, edit: Edit) {
    && Get(after, FieldOf(edit)) == NewValue(edit)
    && forall f: Field | f != FieldOf(edit) :: Get(after, f) == Get(before, f)
  }

  /** `{ ...exp, [field]: value }`. */
  function Apply(e: Experience, edit: Edit): (r: Experience)
    ensures Edited(e, r, edit)
  {
    match edit
    case SetCompany(s) => e.(company := s)
    case SetPosition(s) => e.(position := s)
    case SetStartDate(s) => e.(startDate := s)
    case SetEndDate(s) => e.(endDate := s)
    case SetCurrent(b) => e.(current := b)
    case SetDescription(s) => e.(description := s)
    case SetAchievements(a) => e.(achievements := a)
  }

  predicate UniqueIds(xs: seq<Experience>) {
    IdLists.UniqueKeys(xs, ExperienceId)
  }

  /** Every entry keeps at least one achievement line. */
  predicate AchievementsNonEmpty(xs: seq<Experience>) {
    forall i | 0 <= i < |xs| :: |xs[i].achievements| >= 1
  }

  /** The record `addExperience` creates for a freshly generated id. */
  function NewExperience(id: string): Experience {
    Experience(id, "", "", "", "", false, "", [""])
  }

  /** `addExperience`: one blank entry appended after the existing ones. */
  function AddExperience(xs: seq<Experience>, id: string): (r: seq<Experience>)
    ensures |r| == |xs| + 1 && r[..|xs|] == xs
    ensures var e := r[|xs|];
      && e.id == id && e.company == "" && e.position == "" && e.startDate == ""
      && e.endDate == "" && !e.current && e.description == "" && e.achievements == [""]
  {
    xs + [NewExperience(id)]
  }

  /** `updateExperience(id, field, value)`: the entries with the id edited, the rest untouched. */
  function UpdateExperience(xs: seq<Experience>, id: string, edit: Edit): (r: seq<Experience>)
    ensures |r| == |xs|
    ensures forall i | 0 <= i < |xs| ::
      if xs[i].id == id then Edited(xs[i], r[i], edit) && r[i].id == id else r[i] == xs[i]
  {
    IdLists.UpdateWhere(xs, ExperienceId, id, e => Apply(e, edit))
  }

  /** `removeExperience(id)`: exactly the entries with another id survive. */
  function RemoveExperience(xs: seq<Experience>, id: string): (r: seq<Experience>)
    ensures forall i | 0 <= i < |r| :: r[i].id != id && r[i] in xs
    ensures forall i | 0 <= i < |xs| :: xs[i].id != id ==> xs[i] in r
  {
    IdLists.RemoveWhere(xs, ExperienceId, id)
  }

  function FindExperience(xs: seq<Experience>, id: string): Option<Experience> {
    IdLists.Find(xs, ExperienceId, id)
  }

  /** Setting a field twice is setting it once. */
  lemma UpdateExperienceTwice(xs: seq<Experience>, id: string, edit: Edit)
    ensures UpdateExperience(UpdateExperience(xs, id, edit), id, edit) == UpdateExperience(xs, id, edit)
  {
    IdLists.UpdateTwice(xs, ExperienceId, id, e => Apply(e, edit));
  }

  /** Updating an id no entry has yields an equal list. */
  lemma UpdateExperienceUnknownId(xs: seq<Experience>, id: string, edit: Edit)
    requires IdLists.Absent(xs, ExperienceId, id)
    ensures UpdateExperience(xs, id, edit) == xs
  {
    IdLists.UpdateAbsent(xs, ExperienceId, id, e => Apply(e, edit));
  }

  /** Removal keeps the surviving entries in order: it distributes over concatenation. */
  lemma RemoveExperienceConcat(a: seq<Experience>, b: seq<Experience>, id: string)
    ensures RemoveExperience(a + b, id) == RemoveExperience(a, id) + RemoveExperience(b, id)
  {
    IdLists.RemoveConcat(a, b, ExperienceId, id);
  }

  /** Adding with a fresh id, editing and removing keep the ids unique. */
  lemma EditsKeepIdsUnique(xs: seq<Experience>, id: string, newId: string, edit: Edit)
    requires UniqueIds(xs) && IdLists.Absent(xs, ExperienceId, newId)
    ensures UniqueIds(AddExperience(xs, newId))
    ensures UniqueIds(UpdateExperience(xs, id, edit))
    ensures UniqueIds(RemoveExperience(xs, id))
  {
    IdLists.AppendKeepsUnique(xs, ExperienceId, NewExperience(newId));
    IdLists.UpdateKeepsUnique(xs, ExperienceId, id, e => Apply(e, edit));
    IdLists.RemoveKeepsUnique(xs, ExperienceId, id);
  }

  /**
   * `addAchievement(expId)`: nothing is emitted for an unknown id; otherwise the entries with
   * the id get the first such entry's lines plus a blank one.
   */
  function AddAchievement(xs: seq<Experience>, expId: string): (r: Option<seq<Experience>>)
    ensures r.None? <==> IdLists.Absent(xs, ExperienceId, expId)
    ensures r.Some? ==> |r.value| == |xs|
    ensures UniqueIds(xs) ==> forall k | 0 <= k < |xs| && xs[k].id == expId ::
      r == Some(xs[k := xs[k].(achievements := xs[k].achievements + [""])])
  {
    match FindExperience(xs, expId)
    case None => None
    case Some(e) =>
      var r := UpdateExperience(xs, expId, SetAchievements(AchievementLists.AppendBlank(e.achievements)));
      assert UniqueIds(xs) ==> forall k | 0 <= k < |xs| && xs[k].id == expId ::
        r == xs[k := xs[k].(achievements := xs[k].achievements + [""])] by {
        if UniqueIds(xs) {
          forall k | 0 <= k < |xs| && xs[k].id == expId
            ensures r == xs[k := xs[k].(achievements := xs[k].achievements + [""])]
          {
            IdLists.FindUnique(xs, ExperienceId, k);
          }
        }
      }
      Some(r)
  }

  /**
   * `updateAchievement(expId, index, value)`: copies the first matching entry's lines, writes
   * one slot, and sets the copy on the entries with the id. The form only passes the index of a
   * rendered line.
   */
  method UpdateAchievement(xs: seq<Experience>, expId: string, index: nat, value: string)
    returns (r: Option<seq<Experience>>)
    requires FindExperience(xs, expId).Some? ==> index < |FindExperience(xs, expId).value.achievements|
    ensures r.None? <==> IdLists.Absent(xs, ExperienceId, expId)
    ensures r.Some? ==> |r.value| == |xs|
    ensures r.Some? ==> forall i | 0 <= i < |xs| && xs[i].id != expId :: r.value[i] == xs[i]
    ensures r.Some? ==> forall i | 0 <= i < |xs| && xs[i].id == expId ::
      r.value[i] == xs[i].(achievements := FindExperience(xs, expId).value.achievements[index := value])
    ensures UniqueIds(xs) ==> forall k | 0 <= k < |xs| && xs[k].id == expId ::
      r == Some(xs[k := xs[k].(achievements := xs[k].achievements[index := value])])
  {
    var found := FindExperience(xs, expId);
    if found.None? {
      return None;
    }
    var e := found.value;
    var lines := AchievementLists.ReplaceAt(e.achievements, index, value);
    assert lines == e.achievements[index := value];
    var updated := UpdateExperience(xs, expId, SetAchievements(lines));
    if UniqueIds(xs) {
      forall k | 0 <= k < |xs| && xs[k].id == expId
        ensures updated == xs[k := xs[k].(achievements := xs[k].achievements[index := value])]
      {
        IdLists.FindUnique(xs, ExperienceId, k);
      }
    }
    r := Some(updated);
  }

  /**
   * `removeAchievement(expId, index)`: emitted only when the first matching entry has more than
   * one line; then that list without the line at index is set on the entries with the id.
   */
  function RemoveAchievement(xs: seq<Experience>, expId: string, index: nat): (r: Option<seq<Experience>>)
    ensures r.Some? ==>
      FindExperience(xs, expId).Some? && AchievementLists.RemoveOffered(FindExperience(xs, expId).value.achievements)
    ensures r.Some? ==> |r.value| == |xs|
    ensures UniqueIds(xs) ==> forall k | 0 <= k < |xs| && xs[k].id == expId ::
      r == if |xs[k].achievements| > 1
           then Some(xs[k := xs[k].(achievements := AchievementLists.RemoveAt(xs[k].achievements, index))])
           else None
  {
    match FindExperience(xs, expId)
    case None => None
    case Some(e) =>
      match AchievementLists.GuardedRemove(e.achievements, index)
      case None => None
      case Some(lines) =>
        var r := UpdateExperience(xs, expId, SetAchievements(lines));
        assert UniqueIds(xs) ==> forall k | 0 <= k < |xs| && xs[k].id == expId ::
          r == xs[k := xs[k].(achievements := AchievementLists.RemoveAt(xs[k].achievements, index))] by {
          if UniqueIds(xs) {
            forall k | 0 <= k < |xs| && xs[k].id == expId
              ensures r == xs[k := xs[k].(achievements := AchievementLists.RemoveAt(xs[k].achievements, index))]
            {
              IdLists.FindUnique(xs, ExperienceId, k);
            }
          }
        }
        Some(r)
  }

  /** Whatever an achievement removal emits, every entry still has at least one line. */
  lemma RemoveAchievementKeepsFloor(xs: seq<Experience>, expId: string, index: nat)
    requires AchievementsNonEmpty(xs)
    ensures RemoveAchievement(xs, expId, index).Some? ==> AchievementsNonEmpty(RemoveAchievement(xs, expId, index).value)
  {
    var r := RemoveAchievement(xs, expId, index);
    if r.Some? {
      var lines := AchievementLists.RemoveAt(FindExperience(xs, expId).value.achievements, index);
      assert |lines| >= 1;
      var u := UpdateExperience(xs, expId, SetAchievements(lines));
      assert r.value == u;
      forall i | 0 <= i < |u| ensures |u[i].achievements| >= 1 {
        if xs[i].id == expId {
          assert Get(u[i], Achievements) == Items(lines);
        }
      }
    }
  }
}
