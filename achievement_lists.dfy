/**
 * The sub-list edits of an achievements list, shared by the experience and education
 * editors: append a blank line, overwrite one line in a copy, drop one line by index.
 */
module AchievementLists {
  import opened Wrappers

  /** `[...a, '']`: one more, blank, line at the end. */
  function AppendBlank(a: seq<string>): (r: seq<string>)
    ensures |r| == |a| + 1 && r[..|a|] == a && r[|a|] == ""
  {
    a + [""]
  }

  /**
   * `a.filter((_, i) => i !== index)`: every line but the one at index, in order; an index past
   * the end removes nothing.
   */
  function RemoveAt(a: seq<string>, index: nat): (r: seq<string>)
    ensures index < |a| ==> |r| == |a| - 1
    ensures index < |a| ==> forall j | 0 <= j < |r| :: r[j] == if j < index then a[j] else a[j + 1]
    ensures index >= |a| ==> r == a
  {
    if index < |a| then a[..index] + a[index + 1..] else a
  }

  /** The per-line remove button is rendered only while there is more than one line. */
  predicate RemoveOffered(a: seq<string>) {
    |a| > 1
  }

  /**
   * The guarded removal: nothing is emitted unless more than one line exists, so a list
   * that starts with at least one line never drops below one.
   */
  function GuardedRemove(a: seq<string>, index: nat): (r: Option<seq<string>>)
    ensures r.Some? <==> RemoveOffered(a)
    ensures r.Some? ==> r.value == RemoveAt(a, index)
    ensures r.Some? ==> |r.value| >= 1
  {
    if RemoveOffered(a) then Some(RemoveAt(a, index)) else None
  }

  /**
   * `const copy = [...a]; copy[index] = value`: a fresh copy of the lines with one slot
   * overwritten in place.
   */
  method ReplaceAt(a: seq<string>, index: nat, value: string) returns (r: seq<string>)
    requires index < |a|
    ensures |r| == |a| && r[index] == value
    ensures forall j | 0 <= j < |a| && j != index :: r[j] == a[j]
  {
    var copy := new string[|a|](j requires 0 <= j < |a| => a[j]);
    copy[index] := value;
    r := copy[..];
  }
}
