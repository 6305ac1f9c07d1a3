/**
 * The skills editor: add, update by id and remove by id; the two selectors and the level
 * display (stars and colour); and the grouping of skills into category buckets, which the
 * editor's summary panel and both previews share.
 */
module SkillsForm {
  import opened Wrappers
  import opened Resume
  import IdLists
  import Seqs

  /** The options of the category selector, in display order. */
  const SkillCategories: seq<string> := ["Technical", "Soft", "Language", "Other"]

  /** The options of the level selector, from lowest to highest. */
  const SkillLevels: seq<string> := ["Beginner", "Intermediate", "Advanced", "Expert"]

  /** A skill whose level and category are among the selector options. */
  predicate ValidSkill(s: Skill) {
    s.level in SkillLevels && s.category in SkillCategories
  }

  predicate AllValid(xs: seq<Skill>) {
    forall i | 0 <= i < |xs| :: ValidSkill(xs[i])
  }

  /** The keys of a Skill record. */
  datatype Field = Id | Name | Level | Category

  /** `skill[field]`. */
  function Get(s: Skill, f: Field): string {
    match f
    case Id => s.id
    case Name => s.name
    case Level => s.level
    case Category => s.category
  }

  /** A (field, value) pair the form passes to `updateSkill`; the id is never edited. */
  datatype Edit = SetName(name: string) | SetLevel(level: string) | SetCategory(category: string)

  function FieldOf(edit: Edit): Field {
    match edit
    case SetName(_) => Name
    case SetLevel(_) => Level
    case SetCategory(_) => Category
  }

  function NewValue(edit: Edit): string {
    match edit
    case SetName(s) => s
    case SetLevel(s) => s
    case SetCategory(s) => s
  }

  /** after is before with the edit's field set to the edit's value and every other field kept. */
  predicate Edited(before: Skill, after: Skill, edit: Edit) {
    && Get(after, FieldOf(edit)) == NewValue(edit)
    && forall f: Field | f != FieldOf(edit) :: Get(after, f) == Get(before, f)
  }

  /** `{ ...skill, [field]: value }`. */
  function Apply(s: Skill, edit: Edit): (r: Skill)
    ensures Edited(s, r, edit)
  {
    match edit
    case SetName(v) => s.(name := v)
    case SetLevel(v) => s.(level := v)
    case SetCategory(v) => s.(category := v)
  }

  /** An edit a selector or the name input can produce. */
  predicate OfferedEdit(edit: Edit) {
    match edit
    case SetName(_) => true
    case SetLevel(l) => l in SkillLevels
    case SetCategory(c) => c in SkillCategories
  }

  predicate UniqueIds(xs: seq<Skill>) {
    IdLists.UniqueKeys(xs, SkillId)
  }

  /** The record `addSkill` creates for a freshly generated id. */
  function NewSkill(id: string): Skill {
    Skill(id, "", "Intermediate", "Technical")
  }

  /** `addSkill`: one unnamed Intermediate Technical skill appended after the existing ones. */
  function AddSkill(xs: seq<Skill>, id: string): (r: seq<Skill>)
    ensures |r| == |xs| + 1 && r[..|xs|] == xs
    ensures r[|xs|].id == id && r[|xs|].name == ""
    ensures r[|xs|].level == "Intermediate" && r[|xs|].category == "Technical"
    ensures ValidSkill(r[|xs|])
  {
    xs + [NewSkill(id)]
  }

  /** `updateSkill(id, field, value)`: the skills with the id edited, the rest untouched. */
  function UpdateSkill(xs: seq<Skill>, id: string, edit: Edit): (r: seq<Skill>)
    ensures |r| == |xs|
    ensures forall i | 0 <= i < |xs| ::
      if xs[i].id == id then Edited(xs[i], r[i], edit) && r[i].id == id else r[i] == xs[i]
  {
    IdLists.UpdateWhere(xs, SkillId, id, s => Apply(s, edit))
  }

  /** `removeSkill(id)`: exactly the skills with another id survive. */
  function RemoveSkill(xs: seq<Skill>, id: string): (r: seq<Skill>)
    ensures forall i | 0 <= i < |r| :: r[i].id != id && r[i] in xs
    ensures forall i | 0 <= i < |xs| :: xs[i].id != id ==> xs[i] in r
  {
    IdLists.RemoveWhere(xs, SkillId, id)
  }

  /** Setting a field twice is setting it once. */
  lemma UpdateSkillTwice(xs: seq<Skill>, id: string, edit: Edit)
    ensures UpdateSkill(UpdateSkill(xs, id, edit), id, edit) == UpdateSkill(xs, id, edit)
  {
    IdLists.UpdateTwice(xs, SkillId, id, s => Apply(s, edit));
  }

  /** Removal keeps the surviving skills in order: it distributes over concatenation. */
  lemma RemoveSkillConcat(a: seq<Skill>, b: seq<Skill>, id: string)
    ensures RemoveSkill(a + b, id) == RemoveSkill(a, id) + RemoveSkill(b, id)
  {
    IdLists.RemoveConcat(a, b, SkillId, id);
  }

  /** Adding with a fresh id, editing and removing keep the ids unique. */
  lemma EditsKeepIdsUnique(xs: seq<Skill>, id: string, newId: string, edit: Edit)
    requires UniqueIds(xs) && IdLists.Absent(xs, SkillId, newId)
    ensures UniqueIds(AddSkill(xs, newId))
    ensures UniqueIds(UpdateSkill(xs, id, edit))
    ensures UniqueIds(RemoveSkill(xs, id))
  {
    IdLists.AppendKeepsUnique(xs, SkillId, NewSkill(newId));
    IdLists.UpdateKeepsUnique(xs, SkillId, id, s => Apply(s, edit));
    IdLists.RemoveKeepsUnique(xs, SkillId, id);
  }

  /** The editor's controls only ever produce skills with an offered level and category. */
  lemma EditsKeepValid(xs: seq<Skill>, id: string, newId: string, edit: Edit)
    requires AllValid(xs) && OfferedEdit(edit)
    ensures AllValid(AddSkill(xs, newId))
    ensures AllValid(UpdateSkill(xs, id, edit))
    ensures AllValid(RemoveSkill(xs, id))
  {
    var added := AddSkill(xs, newId);
    assert forall i | 0 <= i < |xs| :: added[i] == xs[i];
    var updated := UpdateSkill(xs, id, edit);
    forall i | 0 <= i < |xs| ensures ValidSkill(updated[i]) {
      if xs[i].id == id {
        assert Get(updated[i], Level) == updated[i].level && Get(updated[i], Category) == updated[i].category;
      }
    }
  }

  /** `getLevelStars`: the level's rank among the options, counting from 1; 2 for anything else. */
  function LevelStars(level: string): (n: nat)
    ensures 1 <= n <= 4
    ensures forall i | 0 <= i < |SkillLevels| :: level == SkillLevels[i] ==> n == i + 1
    ensures level !in SkillLevels ==> n == 2
  {
    match level
    case "Beginner" => 1
    case "Intermediate" => 2
    case "Advanced" => 3
    case "Expert" => 4
    case _ => 2
  }

  /** `getLevelColor`: one colour per level option, grey for anything else. */
  function LevelColor(level: string): (c: string)
    ensures c == "text-gray-400" <==> level !in SkillLevels
  {
    match level
    case "Beginner" => "text-yellow-400"
    case "Intermediate" => "text-blue-400"
    case "Advanced" => "text-green-400"
    case "Expert" => "text-violet-400"
    case _ => "text-gray-400"
  }

  /** Different levels get different colours. */
  lemma LevelColorsDistinct(i: nat, j: nat)
    requires i < |SkillLevels| && j < |SkillLevels|
    requires LevelColor(SkillLevels[i]) == LevelColor(SkillLevels[j])
    ensures i == j
  {
  }

  /** How one of the four stars is drawn. */
  datatype Star = Filled(color: string) | Hollow

  /** The star row: star k (from 1) is filled, in the level's colour, iff k <= LevelStars(level). */
  function StarRow(level: string): (r: seq<Star>)
    ensures |r| == 4
    ensures forall k | 0 <= k < 4 :: r[k].Filled? <==> k + 1 <= LevelStars(level)
    ensures forall k | 0 <= k < 4 :: r[k].Filled? ==> r[k].color == LevelColor(level)
  {
    Seqs.Map([1, 2, 3, 4], (star: int) => if star <= LevelStars(level) then Filled(LevelColor(level)) else Hollow)
  }

  /** The number of filled stars. */
  function FilledCount(row: seq<Star>): nat {
    if row == [] then 0 else (if row[0].Filled? then 1 else 0) + FilledCount(row[1..])
  }

  /** The filled stars come first, so their count is the level's rank. */
  lemma StarCountIsRank(level: string)
    ensures FilledCount(StarRow(level)) == LevelStars(level)
    ensures StarRow(level)[0].Filled?
  {
    var r := StarRow(level);
    assert r[1..][1..][1..][1..] == [];
    assert FilledCount(r[1..][1..][1..]) == if r[3].Filled? then 1 else 0;
  }

  /** `skills.filter(skill => skill.category === category)`. */
  function InCategory(skills: seq<Skill>, category: string): seq<Skill> {
    Seqs.Filter(skills, (s: Skill) => s.category == category)
  }

  /** One group of the category summary. */
  datatype Bucket = Bucket(category: string, skills: seq<Skill>)

  /** The categories among cats that some skill belongs to, in the order of cats. */
  function Occupied(cats: seq<string>, skills: seq<Skill>): seq<string> {
    Seqs.Filter(cats, (c: string) => InCategory(skills, c) != [])
  }

  /** The buckets over a list of categories: the non-empty ones, in the order of the list. */
  function BucketsOver(cats: seq<string>, skills: seq<Skill>): (r: seq<Bucket>)
    ensures Seqs.Map(r, (b: Bucket) => b.category) == Occupied(cats, skills)
    ensures forall j | 0 <= j < |r| :: r[j].skills == InCategory(skills, r[j].category) && r[j].skills != []
  {
    if cats == [] then []
    else
      var members := InCategory(skills, cats[0]);
      var head := if members != [] then [Bucket(cats[0], members)] else [];
      var rest := BucketsOver(cats[1..], skills);
      Seqs.MapConcat(head, rest, (b: Bucket) => b.category);
      head + rest
  }

  /**
   * `skillCategories.map(...)` with empty groups returning null: the headings are exactly the
   * occupied categories in the fixed order, and each bucket keeps its skills in list order.
   */
  function CategoryBuckets(skills: seq<Skill>): (r: seq<Bucket>)
    ensures Seqs.Map(r, (b: Bucket) => b.category) == Occupied(SkillCategories, skills)
    ensures forall j | 0 <= j < |r| :: r[j].skills == InCategory(skills, r[j].category) && r[j].skills != []
  {
    BucketsOver(SkillCategories, skills)
  }

  /**
   * The summary panel is rendered only when there is at least one skill; it then holds one
   * bucket per occupied category, in the fixed category order, with that category's skills.
   */
  function CategorySummary(skills: seq<Skill>): (r: Option<seq<Bucket>>)
    ensures r.Some? <==> skills != []
    ensures r.Some? ==> r.value == CategoryBuckets(skills)
    ensures r.Some? ==> Seqs.Map(r.value, (b: Bucket) => b.category) == Occupied(SkillCategories, skills)
    ensures r.Some? ==> forall j | 0 <= j < |r.value| ::
      r.value[j].skills == InCategory(skills, r.value[j].category) && r.value[j].skills != []
  {
    if skills != [] then Some(CategoryBuckets(skills)) else None
  }

  /** A skill with an offered category is listed in the bucket headed by its category. */
  lemma BucketsCoverValidSkills(skills: seq<Skill>, i: nat)
    requires i < |skills| && skills[i].category in SkillCategories
    ensures exists j | 0 <= j < |CategoryBuckets(skills)| ::
      CategoryBuckets(skills)[j].category == skills[i].category && skills[i] in CategoryBuckets(skills)[j].skills
  {
    var c := skills[i].category;
    var r := CategoryBuckets(skills);
    assert skills[i] in InCategory(skills, c);
    var k := Seqs.IndexOf(SkillCategories, c);
    assert c in Occupied(SkillCategories, skills);
    var heads := Seqs.Map(r, (b: Bucket) => b.category);
    var j := Seqs.IndexOf(heads, c);
    assert r[j].category == c;
  }
}
