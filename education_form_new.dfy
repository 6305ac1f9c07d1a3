/**
 * The education section variant with a completion indicator. Its list operations are those of
 * EducationForm; on top it keeps an `isComplete` cell, recomputed whenever it receives a new
 * list, and a Ctrl+Enter shortcut that moves on to the next section once the form is complete.
 */
module EducationFormNew {
  import opened Wrappers
  import opened Resume
  import Text
  import EducationForm
  import AutoScroll

  /** One entry's required fields are non-blank: institution, degree, start and end date. */
  predicate Filled(e: Education) {
    && Text.Trim(e.institution) != "" && Text.Trim(e.degree) != ""
    && Text.Trim(e.startDate) != "" && Text.Trim(e.endDate) != ""
  }

  /** `education.every(...)`, walked entry by entry. */
  function EveryFilled(xs: seq<Education>): (r: bool)
    ensures r <==> forall i | 0 <= i < |xs| :: Filled(xs[i])
  {
    if xs == [] then true
    else
      var rest := EveryFilled(xs[1..]);
      assert forall i | 1 <= i < |xs| :: xs[i] == xs[1..][i - 1];
      Filled(xs[0]) && rest
  }

  /** `checkFormCompletion`: at least one entry, and every entry filled in. */
  function CheckFormCompletion(xs: seq<Education>): (r: bool)
    ensures r <==> |xs| > 0 && forall i | 0 <= i < |xs| :: Filled(xs[i])
  {
    |xs| > 0 && EveryFilled(xs)
  }

  /** Filled in the words of the source: each required field has a non-whitespace character. */
  lemma FilledIffNotBlank(e: Education)
    ensures Filled(e) <==>
      && !Text.Blank(e.institution) && !Text.Blank(e.degree)
      && !Text.Blank(e.startDate) && !Text.Blank(e.endDate)
  {
    Text.TrimEmptyIffBlank(e.institution);
    Text.TrimEmptyIffBlank(e.degree);
    Text.TrimEmptyIffBlank(e.startDate);
    Text.TrimEmptyIffBlank(e.endDate);
  }

  /** Field of study, GPA and achievements have no bearing on completion. */
  lemma CompletionIgnoresOptionalFields(xs: seq<Education>, id: string, edit: EducationForm.Edit)
    requires edit.SetFieldOfStudy? || edit.SetGpa? || edit.SetAchievements?
    ensures CheckFormCompletion(EducationForm.UpdateEducation(xs, id, edit)) == CheckFormCompletion(xs)
  {
    var ys := EducationForm.UpdateEducation(xs, id, edit);
    forall i | 0 <= i < |xs| ensures Filled(ys[i]) == Filled(xs[i]) {
      if xs[i].id == id {
        assert EducationForm.Get(ys[i], EducationForm.Institution) == EducationForm.Get(xs[i], EducationForm.Institution);
        assert EducationForm.Get(ys[i], EducationForm.Degree) == EducationForm.Get(xs[i], EducationForm.Degree);
        assert EducationForm.Get(ys[i], EducationForm.StartDate) == EducationForm.Get(xs[i], EducationForm.StartDate);
        assert EducationForm.Get(ys[i], EducationForm.EndDate) == EducationForm.Get(xs[i], EducationForm.EndDate);
      }
    }
  }

  /** A freshly added entry is blank, so the form is never complete right after an add. */
  lemma AddMakesIncomplete(xs: seq<Education>, id: string)
    ensures !CheckFormCompletion(EducationForm.AddEducation(xs, id))
  {
    var ys := EducationForm.AddEducation(xs, id);
    assert ys[|xs|].institution == "";
    assert !Filled(ys[|xs|]);
  }

  /** Removing entries from a complete form keeps it complete as long as one entry is left. */
  lemma RemoveKeepsComplete(xs: seq<Education>, id: string)
    requires CheckFormCompletion(xs)
    ensures CheckFormCompletion(EducationForm.RemoveEducation(xs, id)) <==> EducationForm.RemoveEducation(xs, id) != []
  {
    var ys := EducationForm.RemoveEducation(xs, id);
    assert forall e | e in xs :: Filled(e);
  }

  /** The section's own state: the list it last received and the completion indicator. */
  class EducationSection {
    var education: seq<Education>
    var isComplete: bool

    /** The indicator agrees with the list, as the effect on `[education]` keeps it. */
    ghost predicate Valid()
      reads this
    {
      isComplete == CheckFormCompletion(education)
    }

    /** Mounting with a list: the indicator starts false and the first effect run recomputes it. */
    constructor(education: seq<Education>)
      ensures this.education == education && Valid()
    {
      this.education := education;
      isComplete := false;
      isComplete := CheckFormCompletion(education);
    }

    /** The owner passes the edited list back; the effect recomputes the indicator. */
    method Receive(xs: seq<Education>)
      modifies this
      ensures education == xs && Valid()
    {
      education := xs;
      isComplete := CheckFormCompletion(xs);
    }

    method AddEducation(id: string)
      modifies this
      ensures education == EducationForm.AddEducation(old(education), id) && Valid()
      ensures !isComplete
    {
      Receive(EducationForm.AddEducation(education, id));
      AddMakesIncomplete(old(education), id);
    }

    method UpdateEducation(id: string, edit: EducationForm.Edit)
      modifies this
      ensures education == EducationForm.UpdateEducation(old(education), id, edit) && Valid()
    {
      Receive(EducationForm.UpdateEducation(education, id, edit));
    }

    method RemoveEducation(id: string)
      modifies this
      ensures education == EducationForm.RemoveEducation(old(education), id) && Valid()
    {
      Receive(EducationForm.RemoveEducation(education, id));
    }

    /** An unknown id emits nothing, so nothing is received and nothing changes. */
    method AddAchievement(eduId: string)
      modifies this
      requires Valid()
      ensures var r := EducationForm.AddAchievement(old(education), eduId);
        education == (if r.Some? then r.value else old(education)) && Valid()
    {
      var r := EducationForm.AddAchievement(education, eduId);
      if r.Some? {
        Receive(r.value);
      }
    }

    method UpdateAchievement(eduId: string, index: nat, value: string)
      modifies this
      requires Valid()
      requires EducationForm.FindEducation(education, eduId).Some? ==>
        index < |EducationForm.FindEducation(education, eduId).value.achievements|
      ensures Valid()
      ensures |education| == |old(education)|
      ensures forall i | 0 <= i < |old(education)| && old(education)[i].id == eduId ::
        education[i] == old(education)[i].(achievements :=
          EducationForm.FindEducation(old(education), eduId).value.achievements[index := value])
      ensures EducationForm.UniqueIds(old(education)) ==> forall k | 0 <= k < |old(education)| && old(education)[k].id == eduId ::
        education == old(education)[k := old(education)[k].(achievements := old(education)[k].achievements[index := value])]
      ensures forall i | 0 <= i < |old(education)| && old(education)[i].id != eduId ::
        education[i] == old(education)[i]
    {
      var r := EducationForm.UpdateAchievement(education, eduId, index, value);
      if r.Some? {
        Receive(r.value);
      }
    }

    method RemoveAchievement(eduId: string, index: nat)
      modifies this
      requires Valid()
      ensures var r := EducationForm.RemoveAchievement(old(education), eduId, index);
        education == (if r.Some? then r.value else old(education)) && Valid()
    {
      var r := EducationForm.RemoveAchievement(education, eduId, index);
      if r.Some? {
        Receive(r.value);
      }
    }

    /**
     * `onKeyPress`: Ctrl+Enter on a complete form hands the event to the section walk (which
     * itself ignores Shift) and raises the indicator; any other key does nothing.
     */
    method OnKeyPress(key: string, ctrlKey: bool, shiftKey: bool) returns (response: AutoScroll.KeyResponse)
      modifies this
      requires Valid()
      ensures education == old(education) && Valid()
      ensures response.Advanced? <==> key == "Enter" && ctrlKey && !shiftKey && CheckFormCompletion(education)
      ensures response.Advanced? ==> response == AutoScroll.Advanced(Some("skills"))
    {
      if key == "Enter" && ctrlKey && CheckFormCompletion(education) {
        response := AutoScroll.HandleKeyPress(key, shiftKey, "education");
        // the source raises the indicator only if it is down; under Valid() it is already up
        isComplete := true;
      } else {
        response := AutoScroll.Ignored;
      }
    }
  }
}
