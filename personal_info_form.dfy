/** The personal-details editor: each input replaces one field of the record. */
module PersonalInfoForm {
  import opened Wrappers
  import opened Resume

  /** The keys of the PersonalInfo record. */
  datatype Field = Name | Email | Phone | Location | LinkedIn | Github | Website

  /** `data[field]`. */
  function Get(p: PersonalInfo, f: Field): Value {
    match f
    case Name => Text(p.name)
    case Email => Text(p.email)
    case Phone => Text(p.phone)
    case Location => Text(p.location)
    case LinkedIn => OptionalText(p.linkedIn)
    case Github => OptionalText(p.github)
    case Website => OptionalText(p.website)
  }

  /** `handleChange(field, value)`: `{ ...data, [field]: value }`; every other field is kept. */
  function HandleChange(p: PersonalInfo, f: Field, value: string): (r: PersonalInfo)
    ensures Get(r, f) == Text(value)
    ensures forall g: Field | g != f :: Get(r, g) == Get(p, g)
  {
    match f
    case Name => p.(name := value)
    case Email => p.(email := value)
    case Phone => p.(phone := value)
    case Location => p.(location := value)
    case LinkedIn => p.(linkedIn := Some(value))
    case Github => p.(github := Some(value))
    case Website => p.(website := Some(value))
  }

  /** What the input for a field shows: the optional links read as `x || ''`. */
  function Shown(p: PersonalInfo, f: Field): (s: string)
    ensures Get(p, f).Text? ==> s == Get(p, f).text
    ensures Get(p, f) == Absent ==> s == ""
  {
    match f
    case Name => p.name
    case Email => p.email
    case Phone => p.phone
    case Location => p.location
    case LinkedIn => OrEmpty(p.linkedIn)
    case Github => OrEmpty(p.github)
    case Website => OrEmpty(p.website)
  }

  /** Typing into an input makes that input show what was typed, and leaves the others alone. */
  lemma ChangeThenShow(p: PersonalInfo, f: Field, value: string)
    ensures Shown(HandleChange(p, f, value), f) == value
    ensures forall g: Field | g != f :: Shown(HandleChange(p, f, value), g) == Shown(p, g)
  {
    var r := HandleChange(p, f, value);
    forall g: Field | g != f ensures Shown(r, g) == Shown(p, g) {
      assert Get(r, g) == Get(p, g);
    }
  }

  /** Making the same change twice is making it once. */
  lemma ChangeTwice(p: PersonalInfo, f: Field, value: string)
    ensures HandleChange(HandleChange(p, f, value), f, value) == HandleChange(p, f, value)
  {
  }

  /** Records that agree on every field are equal, so the two ensures of HandleChange pin it down. */
  lemma FieldsDetermineRecord(p: PersonalInfo, q: PersonalInfo)
    requires forall f: Field :: Get(p, f) == Get(q, f)
    ensures p == q
  {
    assert Get(p, Name) == Get(q, Name) && Get(p, Email) == Get(q, Email);
    assert Get(p, Phone) == Get(q, Phone) && Get(p, Location) == Get(q, Location);
    assert Get(p, LinkedIn) == Get(q, LinkedIn) && Get(p, Github) == Get(q, Github);
    assert Get(p, Website) == Get(q, Website);
  }
}
