/**
 * Unit conversion of energies to eV and of temperatures kT to keV. Values
 * are exact reals; the rounding of the floating-point products is not
 * modelled.
 */
module Units {
  import opened Wrappers
  import opened Text

  /** Boltzmann's constant in eV per kelvin, as the library writes it. */
  const BoltzmannEvPerK: real := 0.00008617333262

  /** The named energy units and their multipliers to eV (kelvin is handled separately). */
  function EnergyFactor(u: string): (f: Option<real>)
    ensures f.Some? ==> f.value > 0.0
  {
    if u == "EV" then Some(1.0)
    else if u == "KEV" then Some(1000.0)
    else if u == "MEV" then Some(1000000.0)
    else if u == "GEV" then Some(1000000000.0)
    else if u == "MILLI-EV" then Some(0.001)
    else if u == "UEV" then Some(0.000001)
    else if u == "NEV" then Some(0.000000001)
    else None
  }

  /** `(unit or '').upper().strip()`. */
  function NormalizeUnit(unit: Option<string>): (r: string)
    ensures unit.None? ==> r == ""
    ensures r == [] <==> AllSpace(unit.GetOr(""))
    ensures r != [] ==> !IsSpace(r[0]) && !IsSpace(r[|r| - 1])
    ensures forall k :: 0 <= k < |r| ==> !('a' <= r[k] <= 'z')
    ensures exists i, j :: 0 <= i <= j <= |unit.GetOr("")| && r == Upper(unit.GetOr("")[i..j])
  {
    var s := unit.GetOr("");
    var r := Strip(Upper(s));
    var i, j :| 0 <= i <= j <= |s| && r == Upper(s)[i..j];
    UpperSlice(s, i, j);
    UpperShape(s);
    UpperShape(s[i..j]);
    r
  }

  /** Normalising cuts only whitespace, from either end of the upper-cased unit. */
  lemma NormalizeUnitCutsBlanks(unit: Option<string>)
    ensures exists i, j :: (0 <= i <= j <= |unit.GetOr("")| && NormalizeUnit(unit) == Upper(unit.GetOr("")[i..j])
                            && AllSpace(unit.GetOr("")[..i]) && AllSpace(unit.GetOr("")[j..]))
  {
    var s := unit.GetOr("");
    var u := Upper(s);
    var i, j :| 0 <= i <= j <= |u| && Strip(u) == u[i..j] && AllSpace(u[..i]) && AllSpace(u[j..]);
    UpperSlice(s, i, j);
    UpperSlice(s, 0, i);
    UpperSlice(s, j, |s|);
    assert s[0..i] == s[..i] && s[j..|s|] == s[j..];
    assert u[0..i] == u[..i] && u[j..|s|] == u[j..];
    UpperShape(s[..i]);
    UpperShape(s[j..]);
  }

  /** An energy in the (already normalised) unit `u`, in eV. */
  function ScaleToEv(v: real, u: string): (r: real)
    ensures v >= 0.0 ==> r >= 0.0
    ensures v < 0.0 ==> r < 0.0
    ensures EnergyFactor(u).None? && u != "K" ==> r == v
    ensures u == "EV" ==> r == v
    ensures u == "KEV" ==> r == v * 1000.0
    ensures u == "MEV" ==> r == v * 1000000.0
    ensures u == "GEV" ==> r == v * 1000000000.0
    ensures u == "MILLI-EV" ==> r == v * 0.001
    ensures u == "UEV" ==> r == v * 0.000001
    ensures u == "NEV" ==> r == v * 0.000000001
    ensures u == "K" ==> r == v * 0.00008617333262
  {
    match EnergyFactor(u)
    case Some(f) => v * f
    case None => if u == "K" then v * BoltzmannEvPerK else v
  }

  /** `energy_to_ev`: named units are scaled to eV, kelvin through Boltzmann's constant, anything else passes through. */
  function EnergyToEv(value: Option<real>, unit: Option<string>): (r: Option<real>)
    ensures r.Some? <==> value.Some?
    ensures value.Some? && value.value >= 0.0 ==> r.value >= 0.0
    ensures value.Some? && value.value < 0.0 ==> r.value < 0.0
    ensures value.Some? && EnergyFactor(NormalizeUnit(unit)).None? && NormalizeUnit(unit) != "K" ==> r == value
    ensures value.Some? ==> r == Some(ScaleToEv(value.value, NormalizeUnit(unit)))
  {
    match value
    case None => None
    case Some(v) => Some(ScaleToEv(v, NormalizeUnit(unit)))
  }

  /** A temperature kT in the (already normalised) unit `u`, in keV. */
  function ScaleToKev(v: real, u: string): (r: real)
    ensures v >= 0.0 ==> r >= 0.0
    ensures v < 0.0 ==> r < 0.0
    ensures u !in {"KEV", "EV", "MEV", "GEV", "K"} ==> r == v
    ensures u == "KEV" ==> r == v
    ensures u == "EV" ==> r == v / 1000.0
    ensures u == "MEV" ==> r == v * 1000.0
    ensures u == "GEV" ==> r == v * 1000000.0
    ensures u == "K" ==> r == v * 0.00000008617333262
  {
    if u == "KEV" then v
    else if u == "EV" then v / 1000.0
    else if u == "MEV" then v * 1000.0
    else if u == "GEV" then v * 1000000.0
    else if u == "K" then v * 0.00000008617333262
    else v
  }

  /** `kt_to_kev`: keV is kept, eV, MeV, GeV and kelvin are scaled to keV, anything else passes through. */
  function KtToKev(value: Option<real>, unit: Option<string>): (r: Option<real>)
    ensures r.Some? <==> value.Some?
    ensures value.Some? && value.value >= 0.0 ==> r.value >= 0.0
    ensures value.Some? && value.value < 0.0 ==> r.value < 0.0
    ensures value.Some? && NormalizeUnit(unit) !in {"KEV", "EV", "MEV", "GEV", "K"} ==> r == value
    ensures value.Some? ==> r == Some(ScaleToKev(value.value, NormalizeUnit(unit)))
  {
    match value
    case None => None
    case Some(v) => Some(ScaleToKev(v, NormalizeUnit(unit)))
  }

  /**
   * The two converters agree, a factor of 1000 apart, on every unit both of
   * them know: an energy in eV is a thousand times the same energy in keV.
   */
  lemma ConvertersAgree(v: real, unit: Option<string>)
    requires NormalizeUnit(unit) in {"EV", "KEV", "MEV", "GEV", "K"}
    ensures EnergyToEv(Some(v), unit).value == 1000.0 * KtToKev(Some(v), unit).value
  {
  }

  /** Where they disagree: sub-eV units are scaled by the energy converter but passed through as keV by the kT one. */
  lemma SubElectronvoltUnitsOnlyConvertAsEnergy(v: real, unit: Option<string>)
    requires NormalizeUnit(unit) in {"MILLI-EV", "UEV", "NEV"}
    ensures KtToKev(Some(v), unit) == Some(v)
    ensures v != 0.0 ==> EnergyToEv(Some(v), unit) != Some(v)
  {
  }

  lemma UpperCharIdempotent(c: char)
    ensures UpperChar(UpperChar(c)) == UpperChar(c)
    ensures IsSpace(UpperChar(c)) <==> IsSpace(c)
  {
  }

  /** Normalising an already normalised unit changes nothing, so both converters ignore case and surrounding blanks. */
  lemma NormalizeUnitIdempotent(unit: Option<string>)
    ensures NormalizeUnit(Some(NormalizeUnit(unit))) == NormalizeUnit(unit)
  {
    var up := Upper(unit.GetOr(""));
    var n := Strip(up);
    var i, j :| 0 <= i <= j <= |up| && n == up[i..j];
    forall k | 0 <= k < |n|
      ensures UpperChar(n[k]) == n[k]
    {
      assert n[k] == up[i + k];
      UpperCharIdempotent(unit.GetOr("")[i + k]);
    }
    assert Upper(n) == n;
    StripIdempotent(up);
  }

  /** Unknown units pass through unchanged in both converters. */
  lemma UnknownUnitPassesThrough(v: real, unit: Option<string>)
    requires NormalizeUnit(unit) !in {"EV", "KEV", "MEV", "GEV", "MILLI-EV", "UEV", "NEV", "K"}
    ensures EnergyToEv(Some(v), unit) == Some(v)
    ensures KtToKev(Some(v), unit) == Some(v)
  {
  }

  /** A unit written in capitals and dashes, without surrounding blanks, is already normalised. */
  lemma PlainUnitIsNormal(u: string)
    requires forall k :: 0 <= k < |u| ==> 'A' <= u[k] <= 'Z' || u[k] == '-'
    ensures NormalizeUnit(Some(u)) == u
  {
    assert Upper(u) == u;
    if |u| > 0 {
      assert LeadingSpaces(u) == 0;
      assert TrailingSpaces(u) == 0;
    }
  }

  lemma EnergyExamples()
    ensures EnergyToEv(Some(1000.0), Some("KEV")) == Some(1000000.0)
    ensures EnergyToEv(Some(1.0), Some("K")) == Some(0.00008617333262)
    ensures EnergyToEv(None, Some("KEV")) == None
  {
    PlainUnitIsNormal("KEV");
    PlainUnitIsNormal("K");
  }

}
