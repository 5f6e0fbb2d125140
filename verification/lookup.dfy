/**
 * How an index row finds its dataset among those a loaded entry offers:
 * the pointer is normalised, the exact `(entry, subentry, pointer)` key is
 * tried first and the first dataset of the same subentry second.
 */
module Lookup {
  import opened Wrappers
  import opened Text
  import opened Points

  /** The key the loader gives each dataset of an entry. */
  datatype DatasetKey = DatasetKey(entry: string, subent: string, pointer: string)

  /** The datasets of one entry, in the loader's (dictionary) order. */
  type DatasetMap = seq<(DatasetKey, Dataset)>

  /** A missing, empty or blank pointer becomes a single space; any other is stripped. */
  function NormalizePointer(p: Option<string>): (r: string)
    ensures |r| > 0
    ensures r == " " <==> p.None? || AllSpace(p.value)
    ensures r != " " ==> p.Some? && r == Strip(p.value)
  {
    var s := Strip(p.GetOr(" "));
    if s == [] then " " else s
  }

  /** The subentry id written to the store: the bare subentry for the blank pointer, `subent:pointer` otherwise. */
  function SubentryId(subent: string, pointer: string): (r: string)
    ensures pointer == " " ==> r == subent
    ensures pointer != " " ==> |r| == |subent| + 1 + |pointer| && r[..|subent|] == subent && r[|subent|] == ':' && r[|subent| + 1..] == pointer
  {
    if pointer == " " then subent else subent + ":" + pointer
  }

  /** Distinct subentry/pointer pairs give distinct ids, as long as neither subentry contains ':' (pointers may contain anything). */
  lemma SubentryIdInjective(s1: string, p1: string, s2: string, p2: string)
    requires ':' !in s1 && ':' !in s2
    requires SubentryId(s1, p1) == SubentryId(s2, p2)
    ensures s1 == s2
    ensures p1 == " " <==> p2 == " "
    ensures p1 != " " ==> p1 == p2
  {
    var r := SubentryId(s1, p1);
    assert forall k :: 0 <= k < |s1| ==> r[k] == s1[k];
    assert forall k :: 0 <= k < |s2| ==> r[k] == s2[k];
  }

  /** The position of the first key that `m` accepts. */
  function FirstKey(sets: DatasetMap, m: DatasetKey -> bool): (r: Option<nat>)
    ensures r.None? <==> forall k :: 0 <= k < |sets| ==> !m(sets[k].0)
    ensures r.Some? ==> r.value < |sets| && m(sets[r.value].0)
    ensures r.Some? ==> forall k :: 0 <= k < r.value ==> !m(sets[k].0)
  {
    if |sets| == 0 then None
    else if m(sets[0].0) then Some(0)
    else
      var rest := FirstKey(sets[1..], m);
      assert forall k :: 1 <= k < |sets| ==> sets[k] == sets[1..][k - 1];
      if rest.None? then None else Some(rest.value + 1)
  }

  predicate IsExactKey(key: DatasetKey, entry: string, subent: string, pointer: string) {
    key.entry == entry && key.subent == subent && key.pointer == pointer
  }

  /**
   * `dataset_map.get(key)`, falling back to the first dataset of the same
   * subentry. The lookup fails exactly when no dataset of that subentry exists.
   */
  function FindDataset(sets: DatasetMap, entry: string, subent: string, pointer: string): (r: Option<Dataset>)
    ensures r.None? <==> forall k :: 0 <= k < |sets| ==> sets[k].0.subent != subent
    ensures forall k :: 0 <= k < |sets| && IsExactKey(sets[k].0, entry, subent, pointer) ==>
      exists e :: 0 <= e <= k && IsExactKey(sets[e].0, entry, subent, pointer) && r == Some(sets[e].1)
    ensures (forall k :: 0 <= k < |sets| ==> !IsExactKey(sets[k].0, entry, subent, pointer)) && r.Some? ==>
      exists k :: 0 <= k < |sets| && sets[k].0.subent == subent && r == Some(sets[k].1)
        && forall k' :: 0 <= k' < k ==> sets[k'].0.subent != subent
  {
    var exact := FirstKey(sets, (key: DatasetKey) => IsExactKey(key, entry, subent, pointer));
    if exact.Some? then Some(sets[exact.value].1)
    else
      var same := FirstKey(sets, (key: DatasetKey) => key.subent == subent);
      if same.Some? then Some(sets[same.value].1) else None
  }
}
