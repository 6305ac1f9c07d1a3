/**
 * The export utilities: the e-mail check, the ordered validation report, and the pagination of
 * the rasterized preview into A4 pages. Heights are whole millimetres here; rasterizing,
 * the document library and the file download are outside the model.
 */
module Pdf {
  import opened Wrappers
  import opened Resume
  import Seqs
  import Text

  // ---------------------------------------------------------------- e-mail

  /** No character of s is whitespace. */
  predicate NoWhitespace(s: string) {
    forall i | 0 <= i < |s| :: !Text.IsWhitespace(s[i])
  }

  /** A run of the class `[^\s@]+`: non-empty, no whitespace, no '@'. */
  predicate Word(s: string) {
    s != [] && NoWhitespace(s) && '@' !in s
  }

  /** e reads `word@word.word` with the '@' at position a and the '.' at position p. */
  predicate SplitsAt(e: string, a: int, p: int) {
    && 0 <= a < p < |e|
    && Word(e[..a]) && e[a] == '@' && Word(e[a + 1..p]) && e[p] == '.' && Word(e[p + 1..])
  }

  /** The meaning of `/^[^\s@]+@[^\s@]+\.[^\s@]+$/.test(e)`. */
  ghost predicate MatchesEmailRegex(e: string) {
    exists a, p :: SplitsAt(e, a, p)
  }

  /** The domain has a '.' that is neither its first nor its last character. */
  predicate HasInnerDot(domain: string) {
    exists k | 1 <= k < |domain| - 1 :: domain[k] == '.'
  }

  /**
   * `isValidEmail`: no whitespace, exactly one '@' with something before it, and a domain
   * with an inner '.'. This is a decision procedure for the regular expression.
   */
  predicate IsValidEmail(e: string): (b: bool)
    ensures b ==> 5 <= |e| && e[0] != '@' && e[|e| - 1] != '@'
  {
    var at := Seqs.IndexOf(e, '@');
    at > 0 && NoWhitespace(e) && '@' !in e[at + 1..] && HasInnerDot(e[at + 1..])
  }

  /** A slice of a whitespace-free string is whitespace-free. */
  lemma NoWhitespaceSlice(s: string, i: nat, j: nat)
    requires NoWhitespace(s) && i <= j <= |s|
    ensures NoWhitespace(s[i..j])
  {
    assert forall k | 0 <= k < j - i :: s[i..j][k] == s[i + k];
  }

  /** A character missing from a string is missing from each of its slices. */
  lemma NotInSlice(s: string, c: char, i: nat, j: nat)
    requires c !in s && i <= j <= |s|
    ensures c !in s[i..j]
  {
    assert forall k | 0 <= k < j - i :: s[i..j][k] == s[i + k];
  }

  /** Every address the check accepts matches the regular expression. */
  lemma ValidEmailMatches(e: string)
    requires IsValidEmail(e)
    ensures MatchesEmailRegex(e)
  {
    var at := Seqs.IndexOf(e, '@');
    var domain := e[at + 1..];
    var k :| 1 <= k < |domain| - 1 && domain[k] == '.';
    var p := at + 1 + k;
    NoWhitespaceSlice(e, 0, at);
    NoWhitespaceSlice(e, at + 1, p);
    NoWhitespaceSlice(e, p + 1, |e|);
    assert e[at + 1..p] == domain[..k];
    NotInSlice(domain, '@', 0, k);
    assert e[p + 1..] == domain[k + 1..];
    NotInSlice(domain, '@', k + 1, |domain|);
    assert SplitsAt(e, at, p);
  }

  lemma NoWhitespaceConcat(x: string, y: string)
    requires NoWhitespace(x) && NoWhitespace(y)
    ensures NoWhitespace(x + y)
  {
    assert forall i | 0 <= i < |x + y| :: (x + y)[i] == if i < |x| then x[i] else y[i - |x|];
  }

  /** The parts of a match around the '@' and the '.'. */
  lemma MatchParts(e: string, a: int, p: int)
    requires SplitsAt(e, a, p)
    ensures e == e[..a] + ['@'] + (e[a + 1..p] + ['.'] + e[p + 1..])
    ensures e[a + 1..] == e[a + 1..p] + ['.'] + e[p + 1..]
  {
    assert e == e[..a] + [e[a]] + e[a + 1..];
    assert e[a + 1..] == e[a + 1..p] + [e[p]] + e[p + 1..];
  }

  /** Every address the regular expression matches passes the check. */
  lemma MatchingEmailValid(e: string)
    requires MatchesEmailRegex(e)
    ensures IsValidEmail(e)
  {
    var a, p :| SplitsAt(e, a, p);
    MatchParts(e, a, p);
    var left, mid, right := e[..a], e[a + 1..p], e[p + 1..];
    var domain := mid + ['.'] + right;
    assert !Text.IsWhitespace('@') && !Text.IsWhitespace('.');
    NoWhitespaceConcat(mid, ['.']);
    NoWhitespaceConcat(mid + ['.'], right);
    NoWhitespaceConcat(left, ['@']);
    NoWhitespaceConcat(left + ['@'], domain);
    assert e == left + ['@'] + domain;
    var at := Seqs.IndexOf(e, '@');
    assert at == a;
    assert e[at + 1..] == domain;
    assert '@' !in domain;
    assert domain[p - a - 1] == '.';
  }

  /** The check accepts exactly the addresses the regular expression matches. */
  lemma EmailRegexCharacterization(e: string)
    ensures IsValidEmail(e) <==> MatchesEmailRegex(e)
  {
    if IsValidEmail(e) {
      ValidEmailMatches(e);
    }
    if MatchesEmailRegex(e) {
      MatchingEmailValid(e);
    }
  }

  // ---------------------------------------------------------------- validation

  /** The checks of `validateResumeData`, in the order they run. */
  datatype Rule = NameRequired | EmailRequired | EmailFormat | SummaryRequired | ExperienceRequired | EducationRequired

  function Message(r: Rule): string {
    match r
    case NameRequired => "Name is required"
    case EmailRequired => "Email is required"
    case EmailFormat => "Please enter a valid email address"
    case SummaryRequired => "Professional summary is required"
    case ExperienceRequired => "At least one work experience entry is required"
    case EducationRequired => "At least one education entry is required"
  }

  /** Rule messages are pairwise different. */
  lemma MessagesDistinct(r1: Rule, r2: Rule)
    requires Message(r1) == Message(r2)
    ensures r1 == r2
  {
  }

  /**
   * When a rule fires. The required-field checks trim; the format check tests the untrimmed
   * address and only when it is non-empty.
   */
  predicate Violated(d: ResumeData, r: Rule) {
    match r
    case NameRequired => Text.Trim(d.personalInfo.name) == ""
    case EmailRequired => Text.Trim(d.personalInfo.email) == ""
    case EmailFormat => d.personalInfo.email != "" && !IsValidEmail(d.personalInfo.email)
    case SummaryRequired => Text.Trim(d.summary) == ""
    case ExperienceRequired => |d.experience| == 0
    case EducationRequired => |d.education| == 0
  }

  /** A rule's contribution to the report: its message when it fires, nothing otherwise. */
  function Flag(d: ResumeData, r: Rule): seq<string> {
    if Violated(d, r) then [Message(r)] else []
  }

  /** The report of `validateResumeData`: the messages of the rules that fire, in rule order. */
  function Errors(d: ResumeData): (r: seq<string>)
    ensures |r| <= 6
    ensures r == [] <==> forall rule: Rule :: !Violated(d, rule)
  {
    Flag(d, NameRequired) + Flag(d, EmailRequired) + Flag(d, EmailFormat) + Flag(d, SummaryRequired)
    + Flag(d, ExperienceRequired) + Flag(d, EducationRequired)
  }

  /** One `if (...) errors.push(message)` step of the validation. */
  method PushIf(errors: seq<string>, fails: bool, r: Rule) returns (updated: seq<string>)
    ensures updated == errors + if fails then [Message(r)] else []
  {
    updated := errors;
    if fails {
      updated := updated + [Message(r)];
    }
  }

  /** `validateResumeData`: runs the six checks in turn, pushing the message of each one that fires. */
  method ValidateResumeData(d: ResumeData) returns (errors: seq<string>)
    ensures errors == Errors(d)
  {
    var p := d.personalInfo;
    errors := [];
    errors := PushIf(errors, Text.Trim(p.name) == "", NameRequired);
    assert errors == Flag(d, NameRequired);
    errors := PushIf(errors, Text.Trim(p.email) == "", EmailRequired);
    assert errors == Flag(d, NameRequired) + Flag(d, EmailRequired);
    errors := PushIf(errors, p.email != "" && !IsValidEmail(p.email), EmailFormat);
    assert errors == Flag(d, NameRequired) + Flag(d, EmailRequired) + Flag(d, EmailFormat);
    errors := PushIf(errors, Text.Trim(d.summary) == "", SummaryRequired);
    assert errors == Flag(d, NameRequired) + Flag(d, EmailRequired) + Flag(d, EmailFormat) + Flag(d, SummaryRequired);
    errors := PushIf(errors, |d.experience| == 0, ExperienceRequired);
    errors := PushIf(errors, |d.education| == 0, EducationRequired);
  }

  /** A rule's contribution holds a message exactly when it is that rule's and the rule fires. */
  lemma InFlag(d: ResumeData, q: Rule, r: Rule)
    ensures Message(r) in Flag(d, q) <==> q == r && Violated(d, r)
  {
    if Message(r) in Flag(d, q) {
      MessagesDistinct(r, q);
    }
  }

  /** A rule's message is in the report exactly when the rule fires. */
  lemma ReportedIff(d: ResumeData, r: Rule)
    ensures Message(r) in Errors(d) <==> Violated(d, r)
  {
    InFlag(d, NameRequired, r);
    InFlag(d, EmailRequired, r);
    InFlag(d, EmailFormat, r);
    InFlag(d, SummaryRequired, r);
    InFlag(d, ExperienceRequired, r);
    InFlag(d, EducationRequired, r);
  }

  /** The checks in terms of the fields: no rule fires exactly when the fields are filled in and valid. */
  lemma NothingFiresIffValid(d: ResumeData)
    ensures (forall r: Rule :: !Violated(d, r)) <==>
      && !Text.Blank(d.personalInfo.name) && !Text.Blank(d.personalInfo.email)
      && IsValidEmail(d.personalInfo.email) && !Text.Blank(d.summary)
      && |d.experience| > 0 && |d.education| > 0
  {
    Text.TrimEmptyIffBlank(d.personalInfo.name);
    Text.TrimEmptyIffBlank(d.personalInfo.email);
    Text.TrimEmptyIffBlank(d.summary);
    if forall r: Rule :: !Violated(d, r) {
      assert !Violated(d, NameRequired) && !Violated(d, EmailRequired) && !Violated(d, EmailFormat);
      assert !Violated(d, SummaryRequired) && !Violated(d, ExperienceRequired);
      assert !Violated(d, EducationRequired);
    }
  }

  /** The report is empty exactly when every field the checks require is filled in and valid. */
  lemma ErrorsEmptyIffValid(d: ResumeData)
    ensures Errors(d) == [] <==>
      && !Text.Blank(d.personalInfo.name) && !Text.Blank(d.personalInfo.email)
      && IsValidEmail(d.personalInfo.email) && !Text.Blank(d.summary)
      && |d.experience| > 0 && |d.education| > 0
  {
    NothingFiresIffValid(d);
    forall r: Rule ensures Errors(d) == [] ==> !Violated(d, r) {
      ReportedIff(d, r);
    }
  }

  /** Appending a rule's contribution keeps a report duplicate-free when the rule's message is new. */
  lemma DistinctAppend(d: ResumeData, a: seq<string>, r: Rule)
    requires Seqs.Distinct(a) && Message(r) !in a
    ensures Seqs.Distinct(a + Flag(d, r))
  {
    var b := Flag(d, r);
    if b != [] {
      forall i, j | 0 <= i < j < |a + b| ensures (a + b)[i] != (a + b)[j] {
        if j == |a| {
          assert (a + b)[i] == a[i];
        }
      }
    } else {
      assert a + b == a;
    }
  }

  /** Each message appears at most once, so there are at most six. */
  lemma ErrorsDistinct(d: ResumeData)
    ensures Seqs.Distinct(Errors(d)) && |Errors(d)| <= 6
  {
    var p1 := Flag(d, NameRequired);
    var p2 := p1 + Flag(d, EmailRequired);
    var p3 := p2 + Flag(d, EmailFormat);
    var p4 := p3 + Flag(d, SummaryRequired);
    var p5 := p4 + Flag(d, ExperienceRequired);
    assert Message(EmailRequired) !in p1 by {
      InFlag(d, NameRequired, EmailRequired);
    }
    DistinctAppend(d, p1, EmailRequired);
    assert Message(EmailFormat) !in p2 by {
      InFlag(d, NameRequired, EmailFormat);
      InFlag(d, EmailRequired, EmailFormat);
    }
    DistinctAppend(d, p2, EmailFormat);
    assert Message(SummaryRequired) !in p3 by {
      InFlag(d, NameRequired, SummaryRequired);
      InFlag(d, EmailRequired, SummaryRequired);
      InFlag(d, EmailFormat, SummaryRequired);
    }
    DistinctAppend(d, p3, SummaryRequired);
    assert Message(ExperienceRequired) !in p4 by {
      InFlag(d, NameRequired, ExperienceRequired);
      InFlag(d, EmailRequired, ExperienceRequired);
      InFlag(d, EmailFormat, ExperienceRequired);
      InFlag(d, SummaryRequired, ExperienceRequired);
    }
    DistinctAppend(d, p4, ExperienceRequired);
    assert Message(EducationRequired) !in p5 by {
      InFlag(d, NameRequired, EducationRequired);
      InFlag(d, EmailRequired, EducationRequired);
      InFlag(d, EmailFormat, EducationRequired);
      InFlag(d, SummaryRequired, EducationRequired);
      InFlag(d, ExperienceRequired, EducationRequired);
    }
    DistinctAppend(d, p5, EducationRequired);
  }

  /** An empty address only reports the missing address, never the format. */
  lemma EmptyEmailReportsOnlyRequired(d: ResumeData)
    requires d.personalInfo.email == ""
    ensures Message(EmailRequired) in Errors(d)
    ensures Message(EmailFormat) !in Errors(d)
  {
    Text.TrimEmptyIffBlank(d.personalInfo.email);
    ReportedIff(d, EmailRequired);
    ReportedIff(d, EmailFormat);
  }

  /** An address of spaces alone is both missing and malformed: the format check does not trim. */
  lemma BlankEmailReportsBoth(d: ResumeData)
    requires d.personalInfo.email != "" && Text.Blank(d.personalInfo.email)
    ensures Message(EmailRequired) in Errors(d)
    ensures Message(EmailFormat) in Errors(d)
  {
    Text.TrimEmptyIffBlank(d.personalInfo.email);
    var e := d.personalInfo.email;
    assert !NoWhitespace(e) by {
      assert Text.IsWhitespace(e[0]);
    }
    ReportedIff(d, EmailRequired);
    ReportedIff(d, EmailFormat);
  }

  /** A filled-in address that fails the check reports only the format. */
  lemma InvalidEmailReportsFormat(d: ResumeData)
    requires !Text.Blank(d.personalInfo.email) && !IsValidEmail(d.personalInfo.email)
    ensures Message(EmailFormat) in Errors(d)
    ensures Message(EmailRequired) !in Errors(d)
  {
    Text.TrimEmptyIffBlank(d.personalInfo.email);
    ReportedIff(d, EmailRequired);
    ReportedIff(d, EmailFormat);
  }

  // ---------------------------------------------------------------- pagination

  /** A4 in millimetres as the export uses them. */
  const ImageWidth: nat := 210
  const PageHeight: nat := 295

  /** Page k of an image of height h shows some of the image: its slice starts above the bottom. */
  predicate ShowsContent(h: nat, k: nat) {
    k * PageHeight < h
  }

  /**
   * The page loop of `generatePDF` as written: page 0 at offset 0, then one more page while
   * `heightLeft >= 0`, each placing the image at `heightLeft - imgHeight`.
   */
  method PageOffsets(imgHeight: nat) returns (offsets: seq<int>)
    ensures |offsets| == imgHeight / PageHeight + 1
    ensures forall k | 0 <= k < |offsets| :: offsets[k] == -k * PageHeight
  {
    var heightLeft: int := imgHeight;
    var position: int := 0;
    offsets := [position];
    heightLeft := heightLeft - PageHeight;
    while heightLeft >= 0
      invariant |offsets| >= 1
      invariant heightLeft == imgHeight - |offsets| * PageHeight
      invariant |offsets| <= imgHeight / PageHeight + 1
      invariant forall k | 0 <= k < |offsets| :: offsets[k] == -k * PageHeight
      decreases heightLeft + PageHeight
    {
      position := heightLeft - imgHeight;
      offsets := offsets + [position];
      heightLeft := heightLeft - PageHeight;
    }
  }

  /** As written, the last page is blank exactly when the height is a positive multiple of a page. */
  lemma AsWrittenLastPageBlank(h: nat)
    requires h > 0
    ensures !ShowsContent(h, h / PageHeight) <==> h % PageHeight == 0
  {
  }

  /** One page of content (h = 295) comes out as two pages, the second one empty. */
  lemma AsWrittenOnePageExample()
    ensures 295 / PageHeight + 1 == 2 && !ShowsContent(295, 1)
  {
  }

  /** Pages needed for height h: one for an empty image, otherwise the ceiling of h / 295. */
  function PagesNeeded(h: nat): (n: nat)
    ensures n >= 1
    ensures h == 0 ==> n == 1
    ensures h > 0 ==> (n - 1) * PageHeight < h <= n * PageHeight
  {
    if h == 0 then 1 else (h + PageHeight - 1) / PageHeight
  }

  /**
   * The corrected loop (`heightLeft > 0`): it stops once the content is used up, so every page
   * after the first shows content and together they cover the whole image.
   */
  method PageOffsetsFixed(imgHeight: nat) returns (offsets: seq<int>)
    ensures |offsets| == PagesNeeded(imgHeight)
    ensures forall k | 0 <= k < |offsets| :: offsets[k] == -k * PageHeight
  {
    var heightLeft: int := imgHeight;
    var position: int := 0;
    offsets := [position];
    heightLeft := heightLeft - PageHeight;
    while heightLeft > 0
      invariant |offsets| >= 1
      invariant heightLeft == imgHeight - |offsets| * PageHeight
      invariant heightLeft > 0 ==> |offsets| < PagesNeeded(imgHeight)
      invariant |offsets| <= PagesNeeded(imgHeight)
      invariant forall k | 0 <= k < |offsets| :: offsets[k] == -k * PageHeight
      decreases heightLeft
    {
      position := heightLeft - imgHeight;
      offsets := offsets + [position];
      heightLeft := heightLeft - PageHeight;
    }
  }

  /** The slices of consecutive pages meet edge to edge: each page starts where the last ended. */
  lemma SlicesAdjacent(offsets: seq<int>, k: nat)
    requires forall j | 0 <= j < |offsets| :: offsets[j] == -j * PageHeight
    requires k + 1 < |offsets|
    ensures offsets[k] - offsets[k + 1] == PageHeight
  {
  }

  /** With the corrected count every page shows content, and no content is left out. */
  lemma FixedPagesShowAll(h: nat)
    requires h > 0
    ensures forall k | 0 <= k < PagesNeeded(h) :: ShowsContent(h, k)
    ensures h <= PagesNeeded(h) * PageHeight
  {
  }

  // ---------------------------------------------------------------- export

  /** The outcome of looking up and rasterizing the element, as the export sees it. */
  datatype Capture =
    | ElementMissing
      /** Rasterizing or assembling the document threw. */
    | RasterFailed
    | Rendered(imgHeight: nat)

  /** The document handed to the download: its name, the image height and each page's offset. */
  datatype PdfFile = PdfFile(filename: string, imgHeight: nat, offsets: seq<int>)

  const ExportFailed: string := "Failed to generate PDF. Please try again."

  /** The pages as the source's loop lays them out: h / 295 + 1 of them, page k at -k * 295. */
  predicate AsWrittenLayout(offsets: seq<int>, h: nat) {
    && |offsets| == h / PageHeight + 1
    && forall k | 0 <= k < |offsets| :: offsets[k] == -k * PageHeight
  }

  /**
   * `generatePDF`: any failure, including a missing element, surfaces as the one fixed error
   * and nothing is downloaded; otherwise the pages are laid out by the loop as written, so an
   * image a whole number of pages high gets one trailing empty page (see AsWrittenLastPageBlank).
   */
  method GeneratePdf(capture: Capture, filename: string) returns (r: Result<PdfFile, string>)
    ensures r.Success? <==> capture.Rendered?
    ensures r.Failure? ==> r.error == ExportFailed
    ensures r.Success? ==> r.value.filename == filename && r.value.imgHeight == capture.imgHeight
    ensures r.Success? ==> AsWrittenLayout(r.value.offsets, capture.imgHeight)
  {
    match capture
    case ElementMissing =>
      r := Failure(ExportFailed);
    case RasterFailed =>
      r := Failure(ExportFailed);
    case Rendered(h) =>
      var offsets := PageOffsets(h);
      r := Success(PdfFile(filename, h, offsets));
  }
}
