/**
 * The fixed, ordered table of the 118 element symbols; a symbol's atomic
 * number is its position in the table plus one. The table is written in
 * slices of ten so that the verifier can index it cheaply.
 */
module Elements {
  import opened Wrappers
  import Lists

  const Z1To10: seq<string> := ["H", "HE", "LI", "BE", "B", "C", "N", "O", "F", "NE"]
  const Z11To20: seq<string> := ["NA", "MG", "AL", "SI", "P", "S", "CL", "AR", "K", "CA"]
  const Z21To30: seq<string> := ["SC", "TI", "V", "CR", "MN", "FE", "CO", "NI", "CU", "ZN"]
  const Z31To40: seq<string> := ["GA", "GE", "AS", "SE", "BR", "KR", "RB", "SR", "Y", "ZR"]
  const Z41To50: seq<string> := ["NB", "MO", "TC", "RU", "RH", "PD", "AG", "CD", "IN", "SN"]
  const Z51To60: seq<string> := ["SB", "TE", "I", "XE", "CS", "BA", "LA", "CE", "PR", "ND"]
  const Z61To70: seq<string> := ["PM", "SM", "EU", "GD", "TB", "DY", "HO", "ER", "TM", "YB"]
  const Z71To80: seq<string> := ["LU", "HF", "TA", "W", "RE", "OS", "IR", "PT", "AU", "HG"]
  const Z81To90: seq<string> := ["TL", "PB", "BI", "PO", "AT", "RN", "FR", "RA", "AC", "TH"]
  const Z91To100: seq<string> := ["PA", "U", "NP", "PU", "AM", "CM", "BK", "CF", "ES", "FM"]
  const Z101To110: seq<string> := ["MD", "NO", "LR", "RF", "DB", "SG", "BH", "HS", "MT", "DS"]
  const Z111To118: seq<string> := ["RG", "CN", "NH", "FL", "MC", "LV", "TS", "OG"]

  /**
   * `FromZn` is the table from atomic number n onwards. Positions in the
   * table are found by walking down this chain one slice at a time
   * (`IronIs26`, `UraniumIs92`): one lookup over the whole 118-entry literal
   * is far more expensive for the verifier.
   */
  const FromZ111: seq<string> := Z111To118
  const FromZ101: seq<string> := Z101To110 + FromZ111
  const FromZ91: seq<string> := Z91To100 + FromZ101
  const FromZ81: seq<string> := Z81To90 + FromZ91
  const FromZ71: seq<string> := Z71To80 + FromZ81
  const FromZ61: seq<string> := Z61To70 + FromZ71
  const FromZ51: seq<string> := Z51To60 + FromZ61
  const FromZ41: seq<string> := Z41To50 + FromZ51
  const FromZ31: seq<string> := Z31To40 + FromZ41
  const FromZ21: seq<string> := Z21To30 + FromZ31
  const FromZ11: seq<string> := Z11To20 + FromZ21

  const Symbols: seq<string> := Z1To10 + FromZ11

  /**
   * Python's `SYMBOL_TO_Z.get(symbol)`: one plus the position of `sym` in the
   * table, or `None` for a string that is not a known symbol (matching is
   * exact, so lower-case spellings are unknown).
   */
  function SymbolToZ(sym: string): (z: Option<nat>)
    ensures z.None? <==> sym !in Symbols
    ensures z.Some? ==> 1 <= z.value <= |Symbols| && Symbols[z.value - 1] == sym && sym !in Symbols[..z.value - 1]
  {
    match Lists.IndexOf(Symbols, sym)
    case None => None
    case Some(i) => Some(i + 1)
  }

  /** The table has 118 entries and hydrogen is number 1. */
  lemma TableSize()
    ensures |Symbols| == 118
    ensures SymbolToZ("H") == Some(1)
  {
  }

  /** Iron is element 26. */
  lemma IronIs26()
    ensures SymbolToZ("FE") == Some(26)
  {
    IronFromZ21();
    assert Lists.IndexOf(FromZ11, "FE") == Some(15) by { Lists.IndexOfAfter(Z11To20, FromZ21, "FE", 5); }
    assert Lists.IndexOf(Symbols, "FE") == Some(25) by { Lists.IndexOfAfter(Z1To10, FromZ11, "FE", 15); }
  }

  /** Iron is entry 5 of the table from element 21 on. */
  lemma IronFromZ21()
    ensures Lists.IndexOf(FromZ21, "FE") == Some(5)
  {
    assert FromZ21[..5] == ["SC", "TI", "V", "CR", "MN"];
    Lists.IndexOfAt(FromZ21, "FE", 5);
  }

  /** Uranium is entry 21 of the table from element 71 on. */
  lemma UraniumFromZ71()
    ensures Lists.IndexOf(FromZ71, "U") == Some(21)
  {
    assert Lists.IndexOf(FromZ91, "U") == Some(1) by { Lists.IndexOfAppend(Z91To100, FromZ101, "U"); }
    assert Lists.IndexOf(FromZ81, "U") == Some(11) by { Lists.IndexOfAfter(Z81To90, FromZ91, "U", 1); }
    Lists.IndexOfAfter(Z71To80, FromZ81, "U", 11);
  }

  /** Uranium is entry 51 of the table from element 41 on. */
  lemma UraniumFromZ41()
    ensures Lists.IndexOf(FromZ41, "U") == Some(51)
  {
    UraniumFromZ71();
    assert Lists.IndexOf(FromZ61, "U") == Some(31) by { Lists.IndexOfAfter(Z61To70, FromZ71, "U", 21); }
    assert Lists.IndexOf(FromZ51, "U") == Some(41) by { Lists.IndexOfAfter(Z51To60, FromZ61, "U", 31); }
    Lists.IndexOfAfter(Z41To50, FromZ51, "U", 41);
  }

  /** Uranium is entry 61 of the table from element 31 on. */
  lemma UraniumFromZ31()
    ensures Lists.IndexOf(FromZ31, "U") == Some(61)
  {
    UraniumFromZ41();
    Lists.IndexOfAfter(Z31To40, FromZ41, "U", 51);
  }

  /** Uranium is entry 81 of the table from element 11 on. */
  lemma UraniumFromZ11()
    ensures Lists.IndexOf(FromZ11, "U") == Some(81)
  {
    UraniumFromZ31();
    assert Lists.IndexOf(FromZ21, "U") == Some(71) by { Lists.IndexOfAfter(Z21To30, FromZ31, "U", 61); }
    Lists.IndexOfAfter(Z11To20, FromZ21, "U", 71);
  }

  /** Uranium is element 92. */
  lemma UraniumIs92()
    ensures SymbolToZ("U") == Some(92)
  {
    UraniumFromZ11();
    Lists.IndexOfAfter(Z1To10, FromZ11, "U", 81);
  }

  /** Every symbol in a slice is one or two upper-case letters. */
  predicate ShortUpper(rows: seq<string>) {
    forall i :: 0 <= i < |rows| ==> 1 <= |rows[i]| <= 2 && forall k :: 0 <= k < |rows[i]| ==> 'A' <= rows[i][k] <= 'Z'
  }

  // The table facts below are checked about a quarter of the table at a
  // time and then joined, which keeps every proof obligation small.

  lemma ShortUpperQuarter1()
    ensures ShortUpper(Z1To10) && ShortUpper(Z11To20) && ShortUpper(Z21To30)
  {
  }

  lemma ShortUpperQuarter2()
    ensures ShortUpper(Z31To40) && ShortUpper(Z41To50) && ShortUpper(Z51To60)
  {
  }

  lemma ShortUpperQuarter3()
    ensures ShortUpper(Z61To70) && ShortUpper(Z71To80) && ShortUpper(Z81To90)
  {
  }

  lemma ShortUpperQuarter4()
    ensures ShortUpper(Z91To100) && ShortUpper(Z101To110) && ShortUpper(Z111To118)
  {
  }

  lemma ShortUpperAppend(a: seq<string>, b: seq<string>)
    requires ShortUpper(a) && ShortUpper(b)
    ensures ShortUpper(a + b)
  {
    assert forall i :: |a| <= i < |a| + |b| ==> (a + b)[i] == b[i - |a|];
  }

  /** Every symbol of the table is one or two upper-case ASCII letters. */
  lemma SymbolsAreShortUpper()
    ensures ShortUpper(Symbols)
  {
    ShortUpperQuarter1();
    ShortUpperQuarter2();
    ShortUpperQuarter3();
    ShortUpperQuarter4();
    ShortUpperAppend(Z101To110, FromZ111);
    ShortUpperAppend(Z91To100, FromZ101);
    ShortUpperAppend(Z81To90, FromZ91);
    ShortUpperAppend(Z71To80, FromZ81);
    ShortUpperAppend(Z61To70, FromZ71);
    ShortUpperAppend(Z51To60, FromZ61);
    ShortUpperAppend(Z41To50, FromZ51);
    ShortUpperAppend(Z31To40, FromZ41);
    ShortUpperAppend(Z21To30, FromZ31);
    ShortUpperAppend(Z11To20, FromZ21);
    ShortUpperAppend(Z1To10, FromZ11);
  }

  /**
   * The target pattern admits three-letter symbols, but no element has one,
   * so a three-letter spelling never resolves.
   */
  lemma ThreeLettersUnknown(sym: string)
    requires |sym| == 3
    ensures SymbolToZ(sym) == None
  {
    SymbolsAreShortUpper();
  }

  /** Matching is case-sensitive: a spelling with a lower-case letter is unknown. */
  lemma LowerCaseUnknown(sym: string, k: nat)
    requires k < |sym| && 'a' <= sym[k] <= 'z'
    ensures SymbolToZ(sym) == None
  {
    SymbolsAreShortUpper();
    assert forall i :: 0 <= i < |Symbols| ==> Symbols[i] != sym;
  }

  // `XX` is looked for a quarter of the table at a time, for the same reason.

  lemma AbsentQuarter1()
    ensures "XX" !in Z1To10 && "XX" !in Z11To20 && "XX" !in Z21To30
  {
  }

  lemma AbsentQuarter2()
    ensures "XX" !in Z31To40 && "XX" !in Z41To50 && "XX" !in Z51To60
  {
  }

  lemma AbsentQuarter3()
    ensures "XX" !in Z61To70 && "XX" !in Z71To80 && "XX" !in Z81To90
  {
  }

  lemma AbsentQuarter4()
    ensures "XX" !in Z91To100 && "XX" !in Z101To110 && "XX" !in Z111To118
  {
  }

  /** An invented two-letter symbol is not in the table. */
  lemma UnknownSymbol()
    ensures SymbolToZ("XX") == None
  {
    AbsentQuarter1();
    AbsentQuarter2();
    AbsentQuarter3();
    AbsentQuarter4();
  }
}
