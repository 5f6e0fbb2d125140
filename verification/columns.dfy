/**
 * Column resolution for a dataset's upper-cased label list: which column
 * holds the measured value, the incident energy, the temperature kT and the
 * uncertainty. Every role is resolved by an ordered candidate list in which
 * the earliest candidate present wins.
 */
module Columns {
  import opened Wrappers
  import opened Text
  import Lists

  /**
   * Position `i` is what a first-match-wins lookup must return: `labels[i]`
   * is candidate `j`, no earlier candidate occurs anywhere in `labels`, and
   * `i` is the first occurrence of candidate `j`.
   */
  predicate FirstMatch(labels: seq<string>, cands: seq<string>, j: nat, i: nat) {
    && j < |cands| && i < |labels|
    && labels[i] == cands[j]
    && (forall k :: 0 <= k < j ==> cands[k] !in labels)
    && cands[j] !in labels[..i]
  }

  /** `find_index`: the first occurrence of the earliest candidate that occurs at all. */
  function FindIndex(labels: seq<string>, cands: seq<string>): (r: Option<nat>)
    ensures r.None? <==> forall j :: 0 <= j < |cands| ==> cands[j] !in labels
    ensures r.Some? ==> exists j :: FirstMatch(labels, cands, j, r.value)
  {
    if |cands| == 0 then None
    else if cands[0] in labels then
      var r := Lists.IndexOf(labels, cands[0]);
      assert FirstMatch(labels, cands, 0, r.value);
      r
    else
      var rest := FindIndex(labels, cands[1..]);
      if rest.Some? then
        assert exists j :: FirstMatch(labels, cands, j, rest.value) by {
          var j: nat :| FirstMatch(labels, cands[1..], j, rest.value);
          assert FirstMatch(labels, cands, j + 1, rest.value);
        }
        rest
      else
        assert forall j :: 1 <= j < |cands| ==> cands[j] == cands[1..][j - 1];
        rest
  }

  /** The first-match position is unique, so `FindIndex` is the only sensible answer. */
  lemma FirstMatchUnique(labels: seq<string>, cands: seq<string>, j1: nat, i1: nat, j2: nat, i2: nat)
    requires FirstMatch(labels, cands, j1, i1) && FirstMatch(labels, cands, j2, i2)
    ensures j1 == j2 && i1 == i2
  {
    assert cands[j1] in labels && cands[j2] in labels;
    assert forall k :: 0 <= k < i2 ==> labels[..i2][k] == labels[k];
    assert forall k :: 0 <= k < i1 ==> labels[..i1][k] == labels[k];
  }

  /** Labels that mark energies or temperatures, never the measured value. */
  const EnergyLikeLabels: set<string> := {"EN", "ENERGY", "EN-LAB", "EN-CM", "EN-RSL", "KT", "KT-K"}

  const EnergyCandidates: seq<string> := ["EN", "ENERGY", "EN-LAB", "EN-CM", "EN-RSL", "E"]
  const KtCandidates: seq<string> := ["KT", "KT-K", "K-T"]
  const ErrorCandidates: seq<string> := ["DATA-ERR", "D(DATA)", "ERR", "ERR-T", "STAT-W G"]

  /** A label that cannot be the value column when there is no `DATA` column. */
  predicate NotValueLabel(name: string) {
    Contains(name, "ERR") || StartsWith(name, "D(") || name in EnergyLikeLabels
  }

  /** The first label that is neither an error column nor energy-like. */
  function FirstValueLabel(labels: seq<string>): (r: Option<nat>)
    ensures r.None? <==> forall k :: 0 <= k < |labels| ==> NotValueLabel(labels[k])
    ensures r.Some? ==> r.value < |labels| && !NotValueLabel(labels[r.value])
    ensures r.Some? ==> forall k :: 0 <= k < r.value ==> NotValueLabel(labels[k])
  {
    if |labels| == 0 then None
    else if !NotValueLabel(labels[0]) then Some(0)
    else
      var rest := FirstValueLabel(labels[1..]);
      if rest.None? then None else Some(rest.value + 1)
  }

  /** The value column: the first `DATA` label, otherwise the first label that is not an error or energy-like column. */
  function ValueColumn(labels: seq<string>): (r: Option<nat>)
    ensures r.Some? ==> r.value < |labels|
    ensures "DATA" in labels ==> r.Some? && labels[r.value] == "DATA" && "DATA" !in labels[..r.value]
    ensures "DATA" !in labels ==> r == FirstValueLabel(labels)
    ensures r.None? <==> forall k :: 0 <= k < |labels| ==> NotValueLabel(labels[k])
  {
    var d := FindIndex(labels, ["DATA"]);
    if d.Some? then
      var j: nat :| FirstMatch(labels, ["DATA"], j, d.value);
      assert !NotValueLabel(labels[d.value]) by {
        assert labels[d.value] == "DATA";
        assert "DATA"[..2] == "DA";
        AbsentHeadNotContained("DATA", "ERR");
      }
      d
    else
      assert ["DATA"][0] == "DATA";
      FirstValueLabel(labels)
  }

  /** The columns a dataset's rows are read through; every index is a position in the label list. */
  datatype Layout = Layout(
    value: nat,
    energy: Option<nat>,
    kt: Option<nat>,
    err: Option<nat>,
    errPlus: Option<nat>,
    errMinus: Option<nat>)

  predicate InRange(i: Option<nat>, n: nat) {
    i.Some? ==> i.value < n
  }

  /** All the column look-ups of `extract_points`, or `None` when no value column resolves. */
  function ResolveLayout(labels: seq<string>): (r: Option<Layout>)
    ensures r.None? <==> ValueColumn(labels).None?
    ensures r.Some? ==> r.value.value < |labels| && Some(r.value.value) == ValueColumn(labels)
    ensures r.Some? ==> InRange(r.value.energy, |labels|) && InRange(r.value.kt, |labels|)
    ensures r.Some? ==> InRange(r.value.err, |labels|) && InRange(r.value.errPlus, |labels|) && InRange(r.value.errMinus, |labels|)
    ensures r.Some? ==> r.value.energy == FindIndex(labels, EnergyCandidates) && r.value.kt == FindIndex(labels, KtCandidates)
    ensures r.Some? ==> r.value.err == FindIndex(labels, ErrorCandidates)
    ensures r.Some? ==> r.value.errPlus == FindIndex(labels, ["+DATA-ERR"]) && r.value.errMinus == FindIndex(labels, ["-DATA-ERR"])
  {
    match ValueColumn(labels)
    case None => None
    case Some(v) =>
      Some(Layout(
        v,
        FindIndex(labels, EnergyCandidates),
        FindIndex(labels, KtCandidates),
        FindIndex(labels, ErrorCandidates),
        FindIndex(labels, ["+DATA-ERR"]),
        FindIndex(labels, ["-DATA-ERR"])))
  }

  /** Candidate order beats label order: `DATA-ERR` is chosen over an earlier `ERR` column. */
  lemma CandidateOrderWins()
    ensures FindIndex(["ERR", "DATA-ERR"], ErrorCandidates) == Some(1)
  {
    var labels := ["ERR", "DATA-ERR"];
    assert ErrorCandidates[0] == "DATA-ERR";
    assert labels[1] == "DATA-ERR";
    var j: nat :| FirstMatch(labels, ErrorCandidates, j, FindIndex(labels, ErrorCandidates).value);
    FirstMatchUnique(labels, ErrorCandidates, j, FindIndex(labels, ErrorCandidates).value, 0, 1);
  }

  /**
   * `E` and `K-T` are energy and temperature candidates but are missing from
   * the value-column exclusion set: without a `DATA` column, a leading `E`
   * column is read as the value whenever it is also the energy column.
   */
  lemma LeadingEnergyColumnIsValueColumn(labels: seq<string>)
    requires |labels| > 0 && labels[0] == "E" && "DATA" !in labels
    requires forall k :: 0 <= k < 5 ==> EnergyCandidates[k] !in labels
    ensures ValueColumn(labels) == Some(0)
    ensures FindIndex(labels, EnergyCandidates) == Some(0)
  {
    assert !NotValueLabel(labels[0]) by {
      ShorterNotContained("E", "ERR");
    }
    LastCandidateFirst(labels, EnergyCandidates);
  }

  /** When only the last candidate occurs and it heads the labels, the lookup answers 0. */
  lemma LastCandidateFirst(labels: seq<string>, cands: seq<string>)
    requires |labels| > 0 && |cands| > 0 && labels[0] == cands[|cands| - 1]
    requires forall k :: 0 <= k < |cands| - 1 ==> cands[k] !in labels
    ensures FindIndex(labels, cands) == Some(0)
  {
    var j: nat :| FirstMatch(labels, cands, j, FindIndex(labels, cands).value);
    FirstMatchUnique(labels, cands, j, FindIndex(labels, cands).value, |cands| - 1, 0);
  }

  /** Example: with labels `E`, `CS`, column 0 is both the value and the energy column. */
  lemma EnergyColumnCanBeValueColumn()
    ensures ValueColumn(["E", "CS"]) == Some(0)
    ensures FindIndex(["E", "CS"], EnergyCandidates) == Some(0)
  {
    LeadingEnergyColumnIsValueColumn(["E", "CS"]);
  }

}
