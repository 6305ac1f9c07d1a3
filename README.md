# ResumeGen core, modelled in Dafny

ResumeGen is a browser résumé builder. One `ResumeData` aggregate holds the personal details, a
summary, and four ordered lists: experience, education, skills and projects. Each section has
an editor. An editor never changes the list it shows. It hands its owner a whole new list, and
the owner replaces that part of the aggregate. Two previews project the aggregate onto the same
content: header, contacts, sections, entries and bullets. The interactive preview can be
exported as a paginated A4 PDF. An optional AI service builds prompts from the résumé and turns
the model's reply into a summary, a tailored résumé or an improved description.

The Dafny project models this core, one module per source file:

- Editors (`ExperienceForm`, `EducationForm`, `EducationFormNew`, `ProjectsForm`, `SkillsForm`,
  `PersonalInfoForm`) are pure functions from the list and the user's action to the list handed
  over. `None` means nothing is handed over.
- `EducationFormNew.EducationSection` and `App.App` are classes. Their fields are the
  component's state cells, and their handlers are methods.
- Export validation, the e-mail check and the page loop are in `Pdf`. The loop and the
  validation are methods, as in the source.
- The prompt templates, the suggestion wrapper and the client gate are in `AI`.
- The content both previews render is in `PreviewContent`. `ResumePreview` and
  `ResumePDFPreview` frame it.
- Shared modules:
  - `Resume` holds the data model.
  - `Text` models `trim`, `split` and `join`, and ECMAScript whitespace.
  - `Seqs` holds `map`, `filter` and `indexOf`.
  - `IdLists` holds the id-keyed list edits.
  - `AchievementLists` holds the achievement sub-list edits.
  - `Wrappers` holds `Option` and `Result`.

Nothing outside the page is modelled. The model has no DOM, canvas, network or timers. Each
outside result enters as a parameter:

- the raster height, or a failure to rasterize;
- the AI reply, or a failed call;
- a fresh id.

## Model

| member | source | states |
|---|---|---|
| Resume.OrEmpty | src/components/PersonalInfoForm.tsx:58 | `x \|\| ''` on an optional text: '' exactly when the value is absent or empty, the value itself otherwise |
| Text.Trim | src/utils/pdf.ts:54 | `trim()` result is no longer than its input and has no whitespace at either end |
| Text.TrimIsMiddle | src/utils/pdf.ts:54 | `trim()` returns a middle slice of its input with only whitespace before and after it; with the no-whitespace-at-either-end clause of `Text.Trim` that slice is unique |
| Text.TrimEmptyIffBlank | src/utils/pdf.ts:54-67 | `!s.trim()` holds exactly when every character of s is ECMAScript whitespace (the empty string included) |
| Text.TrimKeepsAbsent | src/components/ProjectsForm.tsx:40 | trimming introduces no character that was not in the input |
| Text.TrimBlankPrefix | src/components/ProjectsForm.tsx:40 | leading whitespace does not survive `trim()` |
| Text.Split | src/components/ProjectsForm.tsx:40 | `split(',')` yields at least one piece, no piece holds the delimiter, every character comes from the input |
| Text.SplitNoDelimiter | src/components/ProjectsForm.tsx:40 | a delimiter-free string splits into itself alone |
| Text.SplitAround | src/components/ProjectsForm.tsx:40 | splitting around one delimiter splits each side separately and concatenates |
| Text.JoinSplit | src/components/ProjectsForm.tsx:40 | joining the pieces of a split with the delimiter gives back the input |
| IdLists.FirstIndex | src/components/ExperienceForm.tsx:40 | `find` position: -1 exactly when no entry has the id, otherwise the first entry that has it |
| IdLists.Find | src/components/ExperienceForm.tsx:40 | `find` is None exactly when no entry has the id, otherwise the first entry with it |
| IdLists.FindUnique | src/components/ExperienceForm.tsx:40 | with unique ids, `find` returns the entry at the id's position |
| IdLists.UpdateWhere | src/components/ExperienceForm.tsx:29-33 | the `map` keeps the length and changes exactly the entries with the id |
| IdLists.RemoveWhere | src/components/ExperienceForm.tsx:35-37 | the `filter` keeps exactly the entries with another id, and only entries of the input |
| IdLists.UpdateAbsent | src/components/ExperienceForm.tsx:29-33 | an update of an unknown id returns an equal list |
| IdLists.UpdateTwice | src/components/ExperienceForm.tsx:29-33 | an idempotent, id-keeping edit applied twice is applied once |
| IdLists.UpdateKeepsUnique | src/components/ExperienceForm.tsx:29-33 | an id-keeping update keeps ids unique |
| IdLists.AppendKeepsUnique | src/components/ExperienceForm.tsx:15-27 | appending an entry with a fresh id keeps ids unique |
| IdLists.RemoveKeepsUnique | src/components/ExperienceForm.tsx:35-37 | removal keeps ids unique |
| IdLists.RemoveConcat | src/components/ExperienceForm.tsx:35-37 | removal distributes over concatenation, so survivors keep their order |
| IdLists.RemoveAbsent | src/components/ExperienceForm.tsx:35-37 | removing an unknown id returns an equal list |
| IdLists.RemoveTwice | src/components/ExperienceForm.tsx:35-37 | removing twice is removing once |
| AchievementLists.AppendBlank | src/components/ExperienceForm.tsx:42 | `[...a, '']` has one more line, blank, after the old ones |
| AchievementLists.RemoveAt | src/components/ExperienceForm.tsx:58 | `filter((_, i) => i !== index)` drops exactly the line at index and keeps the order; an index past the end drops nothing |
| AchievementLists.RemoveOffered | src/components/ExperienceForm.tsx:157 | the remove button is offered exactly when there is more than one line; used as the guard by `AchievementLists.GuardedRemove` |
| AchievementLists.GuardedRemove | src/components/ExperienceForm.tsx:57-59 | a removal is emitted exactly when there is more than one line, so the list never drops below one line |
| AchievementLists.ReplaceAt | src/components/ExperienceForm.tsx:49-50 | the copy has the same length, value at index, and every other line unchanged |
| ExperienceForm.Apply | src/components/ExperienceForm.tsx:31 | `{ ...exp, [field]: value }` sets the edited field to the value and keeps every other field |
| ExperienceForm.AddExperience | src/components/ExperienceForm.tsx:15-27 | the old entries are kept in order, followed by one new entry with the given id, blank text fields, `current` false and one blank achievement |
| ExperienceForm.UpdateExperience | src/components/ExperienceForm.tsx:29-33 | same length; entries with the id are edited and keep their id; all others are unchanged |
| ExperienceForm.RemoveExperience | src/components/ExperienceForm.tsx:35-37 | every surviving entry has another id and was in the list; every entry with another id survives |
| ExperienceForm.UpdateExperienceTwice | src/components/ExperienceForm.tsx:29-33 | the same update twice equals the update once |
| ExperienceForm.UpdateExperienceUnknownId | src/components/ExperienceForm.tsx:29-33 | updating an id no entry has changes nothing |
| ExperienceForm.RemoveExperienceConcat | src/components/ExperienceForm.tsx:35-37 | removal keeps the surviving entries in order |
| ExperienceForm.EditsKeepIdsUnique | src/components/ExperienceForm.tsx:15-37 | adding with a fresh id, updating and removing keep ids unique |
| ExperienceForm.AddAchievement | src/components/ExperienceForm.tsx:39-44 | nothing is emitted exactly when no entry has the id; with unique ids, the entry gets its lines plus one blank line |
| ExperienceForm.UpdateAchievement | src/components/ExperienceForm.tsx:46-53 | nothing is emitted exactly when no entry has the id; others are untouched; every entry with the id gets the first match's lines with line index set to the value; with unique ids, only that line of that entry changes |
| ExperienceForm.RemoveAchievement | src/components/ExperienceForm.tsx:55-61 | emitted only for a known entry with more than one line; with unique ids, that entry loses exactly the line at index |
| ExperienceForm.RemoveAchievementKeepsFloor | src/components/ExperienceForm.tsx:55-61 | if every entry has at least one line, it still does after any removal |
| EducationForm.Apply | src/components/EducationForm.tsx:30 | `{ ...edu, [field]: value }` sets the edited field to the value and keeps every other field |
| EducationForm.AddEducation | src/components/EducationForm.tsx:14-26 | old entries kept in order, followed by one entry with the given id, blank fields, GPA '' and one blank achievement |
| EducationForm.UpdateEducation | src/components/EducationForm.tsx:28-32 | same length; entries with the id are edited and keep their id; all others are unchanged |
| EducationForm.RemoveEducation | src/components/EducationForm.tsx:34-36 | exactly the entries with another id survive |
| EducationForm.UpdateEducationTwice | src/components/EducationForm.tsx:28-32 | the same update twice equals the update once |
| EducationForm.UpdateEducationUnknownId | src/components/EducationForm.tsx:28-32 | updating an unknown id changes nothing |
| EducationForm.RemoveEducationConcat | src/components/EducationForm.tsx:34-36 | removal keeps the surviving entries in order |
| EducationForm.EditsKeepIdsUnique | src/components/EducationForm.tsx:14-36 | adding with a fresh id, updating and removing keep ids unique |
| EducationForm.AddAchievement | src/components/EducationForm.tsx:38-43 | nothing is emitted exactly when no entry has the id; with unique ids, that entry gets one more blank line |
| EducationForm.UpdateAchievement | src/components/EducationForm.tsx:45-52 | nothing is emitted exactly when no entry has the id; others are untouched; every entry with the id gets the first match's lines with line index set to the value; with unique ids, only that line of that entry changes |
| EducationForm.RemoveAchievement | src/components/EducationForm.tsx:54-60 | emitted only for a known entry with more than one line; with unique ids, that entry loses exactly the line at index |
| EducationForm.RemoveAchievementKeepsFloor | src/components/EducationForm.tsx:54-60 | if every entry has at least one line, every entry keeps at least one line after the removal |
| EducationFormNew.Filled | src/components/EducationForm_new.tsx:68 | the per-entry test: institution, degree, start and end date are non-empty after `trim()`; characterized by `EducationFormNew.FilledIffNotBlank` |
| EducationFormNew.EveryFilled | src/components/EducationForm_new.tsx:67-69 | `every` holds exactly when each entry has non-empty trimmed institution, degree, start and end date |
| EducationFormNew.CheckFormCompletion | src/components/EducationForm_new.tsx:66-70 | complete exactly when there is at least one entry and every entry is filled in |
| EducationFormNew.FilledIffNotBlank | src/components/EducationForm_new.tsx:68 | an entry is filled in exactly when none of the four required fields is blank |
| EducationFormNew.CompletionIgnoresOptionalFields | src/components/EducationForm_new.tsx:66-70 | editing field of study, GPA or achievements never changes completion |
| EducationFormNew.AddMakesIncomplete | src/components/EducationForm_new.tsx:18-30 | right after an add the form is incomplete |
| EducationFormNew.RemoveKeepsComplete | src/components/EducationForm_new.tsx:38-40 | removing from a complete form keeps it complete exactly when an entry is left |
| EducationFormNew.EducationSection.constructor | src/components/EducationForm_new.tsx:15 | mounting: after the first effect run the indicator equals the completion of the list |
| EducationFormNew.EducationSection.Receive | src/components/EducationForm_new.tsx:81-83 | a new list is stored and the indicator recomputed from it |
| EducationFormNew.EducationSection.AddEducation | src/components/EducationForm_new.tsx:18-30 | the list becomes the list with one blank entry added, and the indicator is down |
| EducationFormNew.EducationSection.UpdateEducation | src/components/EducationForm_new.tsx:32-36 | the list becomes the updated list, and the indicator agrees with it |
| EducationFormNew.EducationSection.RemoveEducation | src/components/EducationForm_new.tsx:38-40 | the list becomes the filtered list, and the indicator agrees with it |
| EducationFormNew.EducationSection.AddAchievement | src/components/EducationForm_new.tsx:42-47 | the list changes only when the add emits, and the indicator agrees with it |
| EducationFormNew.EducationSection.UpdateAchievement | src/components/EducationForm_new.tsx:49-56 | the list keeps its length; entries with another id are kept; every entry with the id gets the first match's lines with line index set (an unknown id or an empty list changes nothing); the indicator agrees |
| EducationFormNew.EducationSection.RemoveAchievement | src/components/EducationForm_new.tsx:58-64 | the list changes only when the removal emits, and the indicator agrees |
| EducationFormNew.EducationSection.OnKeyPress | src/components/EducationForm_new.tsx:72-79 | advances exactly on Enter with Ctrl and without Shift on a complete form, and then to "skills"; every other key is ignored; the list is untouched |
| AutoScroll.NextSection | src/hooks/useAutoScroll.ts:4-18 | the next section in the fixed order; an unknown id restarts at "personal-info"; nothing after "projects" |
| AutoScroll.HandleKeyPress | src/hooks/useAutoScroll.ts:52-57 | advances exactly on Enter without Shift, to the next section of the given one |
| AutoScroll.WalkVisitsEverySection | src/hooks/useAutoScroll.ts:5-18 | from the first section, successive moves visit the six sections in order and then stop |
| ProjectsForm.Apply | src/components/ProjectsForm.tsx:31 | `{ ...project, [field]: value }` sets the edited field and keeps every other field |
| ProjectsForm.AddProject | src/components/ProjectsForm.tsx:15-27 | old projects kept in order, followed by one project with the given id, blank fields and no technologies |
| ProjectsForm.UpdateProject | src/components/ProjectsForm.tsx:29-33 | same length; projects with the id are edited and keep their id; all others are unchanged |
| ProjectsForm.RemoveProject | src/components/ProjectsForm.tsx:35-37 | exactly the projects with another id survive |
| ProjectsForm.UpdateProjectTwice | src/components/ProjectsForm.tsx:29-33 | the same update twice equals the update once |
| ProjectsForm.UpdateProjectUnknownId | src/components/ProjectsForm.tsx:29-33 | updating an unknown id changes nothing |
| ProjectsForm.RemoveProjectConcat | src/components/ProjectsForm.tsx:35-37 | removal keeps the surviving projects in order |
| ProjectsForm.EditsKeepIdsUnique | src/components/ProjectsForm.tsx:15-37 | adding with a fresh id, updating and removing keep ids unique |
| ProjectsForm.ParseTechnologies | src/components/ProjectsForm.tsx:40 | every technology parsed is non-empty, trimmed and comma-free |
| ProjectsForm.UpdateTechnologies | src/components/ProjectsForm.tsx:39-42 | the projects with the id get the parsed list; the others are unchanged |
| ProjectsForm.ParseSingle | src/components/ProjectsForm.tsx:40 | a comma-free text parses to its trimmed self, or to nothing when blank |
| ProjectsForm.ParseConcat | src/components/ProjectsForm.tsx:40 | text on either side of a comma parses independently, in order |
| ProjectsForm.ParseOnlySeparators | src/components/ProjectsForm.tsx:40 | text of commas and whitespace only, the empty text included, parses to no technologies |
| ProjectsForm.ParseLeadIn | src/components/ProjectsForm.tsx:40 | a clean name after blank lead-in parses to that name alone |
| ProjectsForm.ParseJoinAfterBlank | src/components/ProjectsForm.tsx:40 | clean names joined by ", " after a blank lead-in parse back to the names |
| ProjectsForm.TechnologiesText | src/components/ProjectsForm.tsx:87 | the input shows the technologies joined by ", "; for clean names that text parses back to the same list |
| ProjectsForm.ParseJoin | src/components/ProjectsForm.tsx:87 | round trip: the displayed `join(', ')` of clean names parses back to the same list |
| ProjectsForm.ParseIdempotent | src/components/ProjectsForm.tsx:40 | re-parsing the displayed text of a parsed list changes nothing |
| SkillsForm.Apply | src/components/SkillsForm.tsx:26 | `{ ...skill, [field]: value }` sets the edited field and keeps the others |
| SkillsForm.AddSkill | src/components/SkillsForm.tsx:14-22 | old skills kept in order, followed by one unnamed Intermediate Technical skill with the given id |
| SkillsForm.UpdateSkill | src/components/SkillsForm.tsx:24-28 | same length; skills with the id are edited and keep their id; all others are unchanged |
| SkillsForm.RemoveSkill | src/components/SkillsForm.tsx:30-32 | exactly the skills with another id survive |
| SkillsForm.UpdateSkillTwice | src/components/SkillsForm.tsx:24-28 | the same update twice equals the update once |
| SkillsForm.RemoveSkillConcat | src/components/SkillsForm.tsx:30-32 | removal keeps the surviving skills in order |
| SkillsForm.EditsKeepIdsUnique | src/components/SkillsForm.tsx:14-32 | adding with a fresh id, updating and removing keep ids unique |
| SkillsForm.EditsKeepValid | src/components/SkillsForm.tsx:101-122 | the selectors only offer the listed levels and categories, so every skill keeps a listed level and category |
| SkillsForm.LevelStars | src/components/SkillsForm.tsx:47-55 | the level's rank among Beginner..Expert, counting from 1; 2 for any other value |
| SkillsForm.LevelColor | src/components/SkillsForm.tsx:37-45 | grey exactly for a level outside the four options |
| SkillsForm.LevelColorsDistinct | src/components/SkillsForm.tsx:38-42 | different levels get different colours |
| SkillsForm.StarRow | src/components/SkillsForm.tsx:129-138 | four stars; star k is filled, in the level's colour, exactly when k <= the level's star count |
| SkillsForm.StarCountIsRank | src/components/SkillsForm.tsx:129-138 | the number of filled stars equals the level's star count, and the first star is always filled |
| SkillsForm.BucketsOver | src/components/SkillsForm.tsx:153-172 | one bucket per category with skills, in category order, each holding exactly that category's skills |
| SkillsForm.CategoryBuckets | src/components/SkillsForm.tsx:153-172 | the headings are the occupied categories in the fixed order Technical, Soft, Language, Other |
| SkillsForm.CategorySummary | src/components/SkillsForm.tsx:149-172 | the category panel is shown exactly when there is a skill; it then holds one bucket per occupied category in the fixed order, each with exactly that category's skills in list order |
| SkillsForm.BucketsCoverValidSkills | src/components/SkillsForm.tsx:153-172 | a skill with a listed category sits in the bucket headed by its category |
| PersonalInfoForm.HandleChange | src/components/PersonalInfoForm.tsx:11-13 | the changed field holds the typed text; every other field is unchanged |
| PersonalInfoForm.Shown | src/components/PersonalInfoForm.tsx:24-76 | each input shows its field; an absent link shows '' |
| PersonalInfoForm.ChangeThenShow | src/components/PersonalInfoForm.tsx:11-13 | after typing, the input shows what was typed and the others show what they showed |
| PersonalInfoForm.ChangeTwice | src/components/PersonalInfoForm.tsx:11-13 | the same change twice is the change once |
| PersonalInfoForm.FieldsDetermineRecord | src/components/PersonalInfoForm.tsx:11-13 | records equal on every field are equal, so the change's contract determines its result |
| PreviewContent.HeaderName | src/components/ResumePreview.tsx:14 | the name, or 'Your Name' when the name is empty; never empty |
| PreviewContent.ContactsFrom | src/components/ResumePreview.tsx:16-51 | contacts of the given kinds, in their order, each present exactly when its text is non-empty |
| PreviewContent.Contacts | src/components/ResumePreview.tsx:16-51 | each contact kind appears exactly when its text is non-empty, in the order email, phone, location, website, linkedIn, github |
| PreviewContent.Bullets | src/components/ResumePreview.tsx:87-95 | a list exists exactly when there is a first line and it is non-empty; it then holds exactly the non-blank lines |
| PreviewContent.EmptyFirstHidesAll | src/components/ResumePreview.tsx:87 | an empty first line hides every bullet |
| PreviewContent.BulletsConcat | src/components/ResumePreview.tsx:89-94 | bullets keep their order |
| PreviewContent.BlankFirstOpensList | src/components/ResumePreview.tsx:87-90 | a whitespace-only first line opens the list but is itself filtered out |
| PreviewContent.ExperienceEnd | src/components/ResumePreview.tsx:79-80 | 'Present' exactly when current, the formatted end date otherwise |
| PreviewContent.ProjectEnd | src/components/ResumePreview.tsx:184-185 | 'Ongoing' exactly when the end date is absent or empty |
| PreviewContent.EducationHeading | src/components/ResumePreview.tsx:113 | "degree " alone for an empty field, "degree in field" otherwise |
| PreviewContent.NonEmpty | src/components/ResumePreview.tsx:84-86 | a text block is rendered exactly when its text is non-empty |
| PreviewContent.ExperienceEntryOf | src/components/ResumePreview.tsx:68-97 | position, company, dates, and the bullets of the achievements; the description is shown exactly when non-empty, and is then the entry's own description |
| PreviewContent.EducationEntryOf | src/components/ResumePreview.tsx:108-136 | heading, institution, both dates formatted, bullets; the GPA line exactly when the GPA is non-empty, and it then shows that GPA |
| PreviewContent.Links | src/components/ResumePreview.tsx:201-223 | Live Demo exactly when the url is non-empty, GitHub exactly when the repository is, in that order; one link per present address and no other links |
| PreviewContent.ProjectEntryOf | src/components/ResumePreview.tsx:177-225 | name, dates, the description always, chips exactly for a non-empty technology list, links |
| PreviewContent.SkillGroups | src/components/ResumePreview.tsx:146-168 | one group per occupied category, in category order, headed "<category> Skills"; its names are the names of that category's skills, in list order, never none |
| PreviewContent.ListSection | src/components/ResumePreview.tsx:62-68 | a section exists exactly for a non-empty list and has one entry per item, in order |
| PreviewContent.Content | src/components/ResumePreview.tsx:10-232 | header and contacts; summary exactly when non-empty; each list section exactly when its list is non-empty, holding one rendered entry per item in list order (through `PreviewContent.ListSection`); the skills section holds the skill groups |
| PreviewContent.BlankSummaryShown | src/components/ResumePreview.tsx:54 | the summary is tested untrimmed: a whitespace-only summary is rendered |
| PreviewContent.SkillsSectionCoversValid | src/components/ResumePreview.tsx:141-168 | every skill with a listed category has a group headed by its category |
| ResumePreview.Render | src/components/ResumePreview.tsx:11 | the page carries the id "resume-preview", the dark frame and the shared content |
| ResumePDFPreview.Render | src/components/ResumePDFPreview.tsx:13-21 | white page, no element id, the shared content |
| ResumePDFPreview.AgreesWithResumePreview | src/components/ResumePDFPreview.tsx:21-230 | for every résumé both previews render the same content; only the frame differs |
| Pdf.MatchesEmailRegex | src/utils/pdf.ts:82-83 | the meaning of `/^[^\s@]+@[^\s@]+\.[^\s@]+$/.test(e)`: a local part, '@', a domain word, '.', a final word, each without whitespace or '@'; related to the check by `Pdf.EmailRegexCharacterization` |
| Pdf.IsValidEmail | src/utils/pdf.ts:81-84 | an accepted address has at least five characters and neither starts nor ends with '@'; it is accepted exactly when it matches the regular expression (`Pdf.EmailRegexCharacterization`) |
| Pdf.ValidEmailMatches | src/utils/pdf.ts:81-84 | every address the check accepts matches `^[^\s@]+@[^\s@]+\.[^\s@]+$` |
| Pdf.MatchingEmailValid | src/utils/pdf.ts:81-84 | every address the regular expression matches passes the check |
| Pdf.EmailRegexCharacterization | src/utils/pdf.ts:81-84 | the check accepts exactly the addresses the regular expression matches |
| Pdf.MessagesDistinct | src/utils/pdf.ts:55-75 | the six messages are pairwise different |
| Pdf.Violated | src/utils/pdf.ts:54-76 | the six checks: blank name, blank email, a non-empty invalid email, blank summary, no experience, no education; tied to the messages by `Pdf.ReportedIff` |
| Pdf.Errors | src/utils/pdf.ts:51-79 | at most six messages; the report is empty exactly when no check fails |
| Pdf.ValidateResumeData | src/utils/pdf.ts:51-79 | the error list is the messages of the failing checks in check order |
| Pdf.ReportedIff | src/utils/pdf.ts:51-79 | a rule's message is reported exactly when its check fails |
| Pdf.NothingFiresIffValid | src/utils/pdf.ts:51-79 | no check fails exactly when name, email and summary are non-blank, the email is valid and both lists are non-empty |
| Pdf.ErrorsEmptyIffValid | src/utils/pdf.ts:51-79 | the report is empty exactly when those conditions hold |
| Pdf.ErrorsDistinct | src/utils/pdf.ts:51-79 | no message is reported twice, so at most six |
| Pdf.EmptyEmailReportsOnlyRequired | src/utils/pdf.ts:58-64 | an empty email reports "Email is required" and never the format error |
| Pdf.BlankEmailReportsBoth | src/utils/pdf.ts:58-64 | a whitespace-only email reports both email errors, because the format test does not trim |
| Pdf.InvalidEmailReportsFormat | src/utils/pdf.ts:58-64 | a non-blank invalid email reports the format error but not "Email is required" |
| Pdf.PageOffsets | src/utils/pdf.ts:25-40 | as written: height / 295 + 1 pages, page k placed at -k * 295 |
| Pdf.AsWrittenLastPageBlank | src/utils/pdf.ts:35 | as written, the last page is empty exactly when the height is a positive multiple of 295 |
| Pdf.AsWrittenOnePageExample | src/utils/pdf.ts:35 | as written, one page of content (295) comes out as two pages, the second empty |
| Pdf.PagesNeeded | src/utils/pdf.ts:22-40 | at least one page; for a positive height the least n with height <= n * 295 |
| Pdf.PageOffsetsFixed | src/utils/pdf.ts:25-40 | corrected loop: exactly the pages needed, page k placed at -k * 295 |
| Pdf.SlicesAdjacent | src/utils/pdf.ts:36 | consecutive pages start exactly one page height apart: no gap, no overlap |
| Pdf.FixedPagesShowAll | src/utils/pdf.ts:35 | with the corrected loop every page shows content and the pages cover the whole image |
| Pdf.GeneratePdf | src/utils/pdf.ts:6-49 | succeeds exactly when the element was found and rasterized; keeps the file name and height; lays the pages out as the source's loop does, height / 295 + 1 pages with page k at -k * 295; any failure is "Failed to generate PDF. Please try again." |
| AI.SummaryPrompt | src/utils/ai.ts:108-119 | the prompt template; its layout is stated by `AI.SummaryPromptFrame`, `AI.SummaryPromptLists` and `AI.SummaryPromptMentionsEntries` |
| AI.TailoringPrompt | src/utils/ai.ts:121-138 | the prompt template; its contents are stated by `AI.TailoringPromptMentions` |
| AI.ImprovePrompt | src/utils/ai.ts:94 | the prompt template; its layout is stated by `AI.ImprovePromptMentions` |
| AI.SummaryPromptFrame | src/utils/ai.ts:108-119 | the summary prompt opens with the fixed request and the name, and ends with the fixed instruction |
| AI.SummaryPromptLists | src/utils/ai.ts:113-116 | experience, education and skill lists sit at their computed positions, in that order |
| AI.SummaryPromptMentionsEntries | src/utils/ai.ts:114-116 | every "position at company", every "degree in field from institution" and every skill name occurs in the summary prompt |
| AI.TailoringPromptMentions | src/utils/ai.ts:121-138 | the job description sits right after its heading; the summary and every skill name occur in the prompt |
| AI.ImprovePromptMentions | src/utils/ai.ts:94 | the context follows "Context: " and the prompt ends with the description |
| AI.ApplySuggestions | src/utils/ai.ts:140-148 | only the summary changes: it keeps its old text as a prefix and grows by the suggestions plus the 27 wrapper characters |
| AI.SuggestionOf | src/utils/ai.ts:146 | reads back what follows a summary of a given length inside the comment wrapper; it inverts `AI.ApplySuggestions` (`AI.SuggestionRecovered`, `AI.SuggestionOfSound`) |
| AI.SuggestionRecovered | src/utils/ai.ts:146 | the suggestions can be read back from the tailored summary |
| AI.SuggestionOfSound | src/utils/ai.ts:146 | whatever is read back was appended inside the comment wrapper |
| AI.AIService.constructor | src/utils/ai.ts:5 | the service starts without a client |
| AI.AIService.SetApiKey | src/utils/ai.ts:7-14 | a non-empty key (re)creates the client; an empty key leaves it as it was |
| AI.AIService.GenerateSummary | src/utils/ai.ts:16-45 | without a client: not configured, nothing sent; otherwise the summary request (200 tokens, 0.7) is sent; a failed call gives the fixed error; a reply gives its content, '' when absent or empty |
| AI.AIService.TailorForJob | src/utils/ai.ts:47-77 | without a client: not configured, nothing sent; otherwise the tailoring request is sent; a reply changes only the summary, which keeps the old summary as its prefix and continues with the wrapped reply content (or '') |
| AI.AIService.ImproveDescription | src/utils/ai.ts:79-106 | without a client: not configured; a failed call gives the fixed error; a non-empty reply replaces the description, otherwise the description comes back |
| App.InitialResumeData | src/App.tsx:17-32 | the empty résumé the app starts with; its consequences are stated by `App.InitialResumeIsIncomplete` |
| App.Apply | src/App.tsx:40-61 | an `updateX` sets its part to the new value and keeps the other five parts |
| App.LaterUpdateWins | src/App.tsx:40-61 | of two updates to the same part the later one wins |
| App.UpdatesCommute | src/App.tsx:40-61 | updates to different parts commute |
| App.ApplyCurrent | src/App.tsx:40-61 | handing a part back unchanged changes nothing |
| App.ValidationPassImpliesFormValid | src/App.tsx:95 | a résumé with an empty validation report passes the download gate |
| App.GateDoesNotTrim | src/App.tsx:95 | the gate does not trim: a one-space name opens it although validation reports the name |
| App.IsFormValid | src/App.tsx:95 | name and email non-empty, without trimming; related to validation by `App.ValidationPassImpliesFormValid` and `App.GateDoesNotTrim` |
| App.PdfFileName | src/App.tsx:66 | the file name is the person's name, or "resume" when it is empty, followed by ".pdf" |
| App.InitialResumeIsIncomplete | src/App.tsx:17-32 | the initial résumé keeps the download disabled, fails every check except the format check, and would be saved as "resume.pdf" |
| App.App.constructor | src/App.tsx:17-38 | the initial résumé, preview shown, no export or generation running, empty key, settings closed |
| App.App.Update | src/App.tsx:40-61 | an editor's change replaces one part of the résumé and nothing else |
| App.App.ToggleSettings | src/App.tsx:109 | the settings button flips the settings panel and nothing else |
| App.App.TogglePreview | src/App.tsx:116 | the preview buttons flip the preview and nothing else |
| App.App.EditApiKey | src/App.tsx:144 | the key input stores the typed key and nothing else |
| App.App.DownloadEnabled | src/App.tsx:123 | the download button is enabled exactly when the form passes `IsFormValid` and no export is running |
| App.App.AIGenerateOffered | src/App.tsx:168 | the summary editor gets its generate action exactly when an API key has been typed |
| App.App.HandleDownloadPdf | src/App.tsx:63-73 | the flag is set while the export runs and is false afterwards on both outcomes; the exported page is the interactive preview of the résumé, and there is none while the preview is hidden; success saves one file named by `PdfFileName`, laid out as the source's loop does (height / 295 + 1 pages); failure shows the alert |
| App.App.HandleGenerateSummary | src/App.tsx:75-93 | without a key it alerts, opens the settings, and never sets the flag or sends anything; otherwise the key is given to the service and the summary request is sent; only a reply replaces the summary; a failure alerts and keeps it; the flag ends false |

## Left out

- Rendering: JSX markup, styling, icons and animation delays. The previews are modelled as a content tree. Their two frames are reduced to a dark or light theme.
- Rasterizing and the PDF library: `html2canvas`, `jsPDF` and `downloadFile`. The export receives the image height, or the failure to rasterize, as a parameter. The model records each saved file as its name, height and page offsets.
- Pdf.PageOffsets and Pdf.PageOffsetsFixed: heights are whole millimetres, while the source computes `canvas.height * 210 / canvas.width` in floating point. The rounding of a fractional height is not modelled.
- The AI network call, the model's behaviour, and sampling: the reply, or a failed call, is a parameter. The request is returned as data: model, system and user messages, token limit and temperature.
- The DOM effects of the section walk: scrolling, focusing the first input, and the highlight class with its timers. Only the choice of the next section and the key filter are modelled.
- `alert` and `console.error`: the alerts are recorded in order on `App.App.alerts`, and console output is dropped.
- Asynchrony and React state batching: each handler runs as one sequential step. The `busy` results of the two handler methods report the flag while the outside call is pending.
- `formatDate` is not part of this model, and dates stay symbolic as `Formatted(raw)`. `generateId` is not part of this model either; the fresh id is a parameter.
- src/data/sampleData.ts is static data without logic. src/components/SummaryForm.tsx only passes values through; its one rule, disabling the button while generating, is presentation.
- ExperienceForm.UpdateAchievement and EducationForm.UpdateAchievement require an index of an existing line, which is what the form renders. JavaScript would grow the array with holes for a larger index. That case is not modelled.
- SkillsForm.LevelStars: a level equal to an `Object.prototype` key such as "toString" is not modelled. The selector cannot produce one.
- Text.IsWhitespace is a fixed list of ECMAScript WhiteSpace and LineTerminator code points. Later Unicode changes to the space-separator category are not tracked.
- EducationFormNew reuses the list operations of EducationForm. The two files define them with the same code.
- The tailoring and improvement operations are present in the AI service but not wired to a handler in the shown code. They are modelled as service methods only.
- Facts about the code that the model keeps as they are:
  - the page height is 295 mm, not the 297 mm of an A4 page;
  - the page count is floor(h / 295) + 1, not the ceiling (see Findings);
  - an empty AI reply sets the summary to '', so the old summary is lost;
  - the download handler has no guard of its own against a second click, and only the disabled button prevents one;
  - the export never calls `validateResumeData`, and the button checks only that name and email are non-empty;
  - only the education section variant has a completion rule.

## Findings

| source | as written | input that shows it | evidently intended | confidence | as-written member | corrected member |
|---|---|---|---|---|---|---|
| src/utils/pdf.ts:35 | `while (heightLeft >= 0)` adds one more page whenever the remaining height is exactly zero | an image exactly one page high (h = 295) gives 2 pages, and the second shows nothing | `while (heightLeft > 0)`: ceil(h / 295) pages, each showing content | not executed | Pdf.AsWrittenLastPageBlank | Pdf.FixedPagesShowAll |

The as-written loop is `Pdf.PageOffsets`, and `Pdf.AsWrittenOnePageExample` is the concrete
case. `Pdf.GeneratePdf` and `App.App.HandleDownloadPdf` run this loop, as the export does. The
corrected loop is `Pdf.PageOffsetsFixed`, whose count is `Pdf.PagesNeeded`;
`Pdf.FixedPagesShowAll` proves that every one of its pages shows content.
