/**
 * The copy-on-write list operations every editor performs on an id-keyed collection:
 * find the first entry with an id, replace the entries with an id, drop the entries with an id.
 */
module IdLists {
  import opened Wrappers
  import Seqs

  /** No two entries share a key. */
  predicate UniqueKeys<T>(xs: seq<T>, key: T -> string) {
    forall i, j | 0 <= i < j < |xs| :: key(xs[i]) != key(xs[j])
  }

  /** No entry has the key id. */
  predicate Absent<T>(xs: seq<T>, key: T -> string, id: string) {
    forall i | 0 <= i < |xs| :: key(xs[i]) != id
  }

  /** Position of the entry `find` returns (the first entry with key id), or -1 when there is none. */
  function FirstIndex<T>(xs: seq<T>, key: T -> string, id: string): (i: int)
    ensures -1 <= i < |xs|
    ensures i == -1 <==> Absent(xs, key, id)
    ensures 0 <= i ==> key(xs[i]) == id && Absent(xs[..i], key, id)
  {
    if xs == [] then -1
    else if key(xs[0]) == id then 0
    else
      var j := FirstIndex(xs[1..], key, id);
      if j == -1 then -1 else j + 1
  }

  /** `xs.find(x => key(x) === id)`. */
  function Find<T>(xs: seq<T>, key: T -> string, id: string): (r: Option<T>)
    ensures r.None? <==> Absent(xs, key, id)
    ensures r.Some? ==> key(r.value) == id && r.value == xs[FirstIndex(xs, key, id)]
  {
    var i := FirstIndex(xs, key, id);
    if i < 0 then None else Some(xs[i])
  }

  /** With unique keys, the entry found is the one at the given position. */
  lemma FindUnique<T>(xs: seq<T>, key: T -> string, k: nat)
    requires UniqueKeys(xs, key) && k < |xs|
    ensures Find(xs, key, key(xs[k])) == Some(xs[k])
  {
  }

  /** `xs.map(x => key(x) === id ? f(x) : x)`. */
  function UpdateWhere<T>(xs: seq<T>, key: T -> string, id: string, f: T -> T): (r: seq<T>)
    ensures |r| == |xs|
    ensures forall i | 0 <= i < |xs| :: r[i] == if key(xs[i]) == id then f(xs[i]) else xs[i]
  {
    Seqs.Map(xs, x => if key(x) == id then f(x) else x)
  }

  /** `xs.filter(x => key(x) !== id)`. */
  function RemoveWhere<T>(xs: seq<T>, key: T -> string, id: string): (r: seq<T>)
    ensures Absent(r, key, id)
    ensures forall i | 0 <= i < |r| :: r[i] in xs
    ensures forall i | 0 <= i < |xs| :: key(xs[i]) != id ==> xs[i] in r
  {
    Seqs.Filter(xs, x => key(x) != id)
  }

  /** Updating an id no entry has leaves the list as it was. */
  lemma UpdateAbsent<T>(xs: seq<T>, key: T -> string, id: string, f: T -> T)
    requires Absent(xs, key, id)
    ensures UpdateWhere(xs, key, id, f) == xs
  {
  }

  /** An update that keeps the key and is idempotent on one entry is idempotent on the list. */
  lemma UpdateTwice<T>(xs: seq<T>, key: T -> string, id: string, f: T -> T)
    requires forall i | 0 <= i < |xs| :: key(f(xs[i])) == key(xs[i]) && f(f(xs[i])) == f(xs[i])
    ensures UpdateWhere(UpdateWhere(xs, key, id, f), key, id, f) == UpdateWhere(xs, key, id, f)
  {
    var once := UpdateWhere(xs, key, id, f);
    var twice := UpdateWhere(once, key, id, f);
    forall i | 0 <= i < |xs| ensures twice[i] == once[i] {
      if key(xs[i]) == id {
        assert key(once[i]) == id;
      }
    }
  }

  /** An update that keeps the key keeps the keys unique. */
  lemma UpdateKeepsUnique<T>(xs: seq<T>, key: T -> string, id: string, f: T -> T)
    requires UniqueKeys(xs, key)
    requires forall i | 0 <= i < |xs| :: key(f(xs[i])) == key(xs[i])
    ensures UniqueKeys(UpdateWhere(xs, key, id, f), key)
  {
    var r := UpdateWhere(xs, key, id, f);
    assert forall i | 0 <= i < |xs| :: key(r[i]) == key(xs[i]);
  }

  /** Appending an entry with a fresh key keeps the keys unique. */
  lemma AppendKeepsUnique<T>(xs: seq<T>, key: T -> string, x: T)
    requires UniqueKeys(xs, key) && Absent(xs, key, key(x))
    ensures UniqueKeys(xs + [x], key)
  {
  }

  /** Removal keeps the keys unique. */
  lemma {:induction false} RemoveKeepsUnique<T>(xs: seq<T>, key: T -> string, id: string)
    requires UniqueKeys(xs, key)
    ensures UniqueKeys(RemoveWhere(xs, key, id), key)
  {
    if xs != [] {
      RemoveKeepsUnique(xs[1..], key, id);
      var tail := RemoveWhere(xs[1..], key, id);
      assert forall i | 0 <= i < |tail| :: key(tail[i]) != key(xs[0]) by {
        forall i | 0 <= i < |tail| ensures key(tail[i]) != key(xs[0]) {
          var k :| 0 <= k < |xs[1..]| && xs[1..][k] == tail[i];
          assert xs[k + 1] == tail[i];
        }
      }
    }
  }

  /** Removal distributes over concatenation: the entries kept keep their relative order. */
  lemma RemoveConcat<T>(a: seq<T>, b: seq<T>, key: T -> string, id: string)
    ensures RemoveWhere(a + b, key, id) == RemoveWhere(a, key, id) + RemoveWhere(b, key, id)
  {
    Seqs.FilterConcat(a, b, x => key(x) != id);
  }

  /** Removing an id no entry has leaves the list as it was. */
  lemma RemoveAbsent<T>(xs: seq<T>, key: T -> string, id: string)
    requires Absent(xs, key, id)
    ensures RemoveWhere(xs, key, id) == xs
  {
    Seqs.FilterKeepsAll(xs, x => key(x) != id);
  }

  /** Removing twice is removing once. */
  lemma RemoveTwice<T>(xs: seq<T>, key: T -> string, id: string)
    ensures RemoveWhere(RemoveWhere(xs, key, id), key, id) == RemoveWhere(xs, key, id)
  {
    RemoveAbsent(RemoveWhere(xs, key, id), key, id);
  }
}
