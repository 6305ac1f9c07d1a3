/**
 * Keyboard navigation between the form sections: the fixed section order, the lookup of the
 * section after a given one, and the key filter that triggers it. Scrolling, focusing and the
 * highlight animation act on the page and are not part of this model.
 */
module AutoScroll {
  import opened Wrappers
  import Seqs

  /** The element ids of the sections, top to bottom. */
  const SectionOrder: seq<string> :=
    ["personal-info", "summary", "experience", "education", "skills", "projects"]

  /**
   * The section `scrollToNextSection(current)` moves to, or None when it does nothing. An id not
   * in the order has index -1, so the walk restarts at the first section.
   */
  function NextSection(current: string): (r: Option<string>)
    ensures current !in SectionOrder ==> r == Some("personal-info")
    ensures forall i | 0 <= i < |SectionOrder| - 1 :: current == SectionOrder[i] ==> r == Some(SectionOrder[i + 1])
    ensures current == "projects" ==> r == None
    ensures r.Some? ==> r.value in SectionOrder && r.value != current
  {
    var nextIndex := Seqs.IndexOf(SectionOrder, current) + 1;
    if nextIndex < |SectionOrder| then Some(SectionOrder[nextIndex]) else None
  }

  /** What `handleKeyPress` does with a key event. */
  datatype KeyResponse =
    | Ignored
      /** The default action is suppressed and the walk moves to target, if any. */
    | Advanced(target: Option<string>)

  /** `handleKeyPress(event, sectionId)`: only a plain or Ctrl-modified Enter without Shift advances. */
  function HandleKeyPress(key: string, shiftKey: bool, sectionId: string): (r: KeyResponse)
    ensures r.Advanced? <==> key == "Enter" && !shiftKey
    ensures r.Advanced? ==> r.target == NextSection(sectionId)
  {
    if key == "Enter" && !shiftKey then Advanced(NextSection(sectionId)) else Ignored
  }

  /** Starting at the first section, five Enter presses visit every section once, in order. */
  lemma WalkVisitsEverySection()
    ensures NextSection("personal-info") == Some("summary")
    ensures NextSection("summary") == Some("experience")
    ensures NextSection("experience") == Some("education")
    ensures NextSection("education") == Some("skills")
    ensures NextSection("skills") == Some("projects")
    ensures NextSection("projects") == None
  {
    assert SectionOrder[0] == "personal-info" && SectionOrder[1] == "summary";
    assert SectionOrder[2] == "experience" && SectionOrder[3] == "education";
    assert SectionOrder[4] == "skills" && SectionOrder[5] == "projects";
  }
}
