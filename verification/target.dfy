/**
 * The nuclide target parser: `SYMBOL-MASS`, optionally followed by `-M` and
 * an isomer number, read into (Z, A, isomer state). The accepted language is
 * the regular expression `^([A-Z]{1,3})-(\d+)(?:-M(\d*)?)?$`, written out
 * here as a hand-made scanner (`Split`) together with a declarative grammar
 * (`Parts`, `WellFormed`, `Spell`) that the scanner is proved to invert.
 */
module Target {
  import opened Wrappers
  import opened Text
  import Elements

  datatype Nuclide = Nuclide(z: nat, a: nat, state: nat)

  /** The three capture groups of the target pattern; `isomer` is `None` when there is no `-M` suffix. */
  datatype Parts = Parts(symbol: string, mass: string, isomer: Option<string>)

  predicate IsUpperLetter(c: char) {
    'A' <= c <= 'Z'
  }

  /** What the pattern's three groups may hold. */
  predicate WellFormed(p: Parts) {
    && 1 <= |p.symbol| <= 3
    && (forall k :: 0 <= k < |p.symbol| ==> IsUpperLetter(p.symbol[k]))
    && |p.mass| >= 1 && AllDigits(p.mass)
    && (p.isomer.Some? ==> AllDigits(p.isomer.value))
  }

  /** The one string that the groups `p` come from. */
  function Spell(p: Parts): string {
    p.symbol + "-" + p.mass + (if p.isomer.Some? then "-M" + p.isomer.value else "")
  }

  /** Isomer state: no suffix is the ground state, a bare `-M` is 1, `-Mn` is n. */
  function StateOf(p: Parts): nat
    requires WellFormed(p)
  {
    match p.isomer
    case None => 0
    case Some(n) => if n == "" then 1 else DigitsValue(n)
  }

  /** The nuclide named by well-formed groups, or `None` for a symbol outside the element table. */
  function Meaning(p: Parts): (r: Option<Nuclide>)
    requires WellFormed(p)
    ensures r.None? <==> p.symbol !in Elements.Symbols
    ensures r.Some? ==> 1 <= r.value.z <= 118 && Elements.Symbols[r.value.z - 1] == p.symbol
    ensures r.Some? ==> r.value.a == DigitsValue(p.mass) && r.value.state == StateOf(p)
  {
    match Elements.SymbolToZ(p.symbol)
    case None => None
    case Some(z) => Some(Nuclide(z, DigitsValue(p.mass), StateOf(p)))
  }

  /** Length of the run of upper-case ASCII letters at the front of `s`. */
  function UpperRun(s: string): (n: nat)
    ensures n <= |s|
    ensures forall k :: 0 <= k < n ==> IsUpperLetter(s[k])
    ensures n < |s| ==> !IsUpperLetter(s[n])
  {
    if |s| == 0 || !IsUpperLetter(s[0]) then 0 else 1 + UpperRun(s[1..])
  }

  /** Length of the run of ASCII digits at the front of `s`. */
  function DigitRun(s: string): (n: nat)
    ensures n <= |s|
    ensures AllDigits(s[..n])
    ensures n < |s| ==> !IsDigit(s[n])
  {
    if |s| == 0 || !IsDigit(s[0]) then 0
    else
      var n := 1 + DigitRun(s[1..]);
      assert s[..n] == [s[0]] + s[1..][..n - 1];
      n
  }

  /**
   * Matches `s` against the pattern (without its anchors) and returns the
   * three groups. The pattern cannot backtrack usefully: the symbol must be
   * the whole upper-case run before the first `-`, and the mass the whole
   * digit run after it.
   */
  function Split(s: string): (r: Option<Parts>)
    ensures r.Some? ==> WellFormed(r.value) && Spell(r.value) == s
  {
    var k := UpperRun(s);
    if k == 0 || k > 3 || k == |s| || s[k] != '-' then None
    else
      var rest := s[k + 1..];
      var d := DigitRun(rest);
      if d == 0 then None
      else
        var tail := rest[d..];
        if tail == [] then
          assert s == s[..k] + "-" + rest[..d];
          Some(Parts(s[..k], rest[..d], None))
        else if |tail| >= 2 && tail[0] == '-' && tail[1] == 'M' && AllDigits(tail[2..]) then
          assert tail == "-M" + tail[2..];
          assert s == s[..k] + "-" + rest[..d] + ("-M" + tail[2..]);
          Some(Parts(s[..k], rest[..d], Some(tail[2..])))
        else None
  }

  /** The upper-case run of `a + b` is all of `a` when `b` starts with something else. */
  lemma {:induction false} UpperRunOfAppend(a: string, b: string)
    requires forall k :: 0 <= k < |a| ==> IsUpperLetter(a[k])
    requires |b| > 0 && !IsUpperLetter(b[0])
    ensures UpperRun(a + b) == |a|
  {
    if |a| > 0 {
      assert (a + b)[1..] == a[1..] + b;
      UpperRunOfAppend(a[1..], b);
    } else {
      assert a + b == b;
    }
  }

  /** The digit run of `a + b` is all of `a` when `b` is empty or starts with a non-digit. */
  lemma {:induction false} DigitRunOfAppend(a: string, b: string)
    requires AllDigits(a)
    requires |b| > 0 ==> !IsDigit(b[0])
    ensures DigitRun(a + b) == |a|
  {
    if |a| > 0 {
      assert (a + b)[1..] == a[1..] + b;
      DigitRunOfAppend(a[1..], b);
    } else {
      assert a + b == b;
    }
  }

  /** Every well-formed spelling is recognised, and gives back exactly its groups. */
  lemma SplitSpell(p: Parts)
    requires WellFormed(p)
    ensures Split(Spell(p)) == Some(p)
  {
    var suffix := if p.isomer.Some? then "-M" + p.isomer.value else "";
    var s := Spell(p);
    var k := |p.symbol|;
    assert s == p.symbol + ("-" + p.mass + suffix);
    UpperRunOfAppend(p.symbol, "-" + p.mass + suffix);
    assert s[..k] == p.symbol;
    var rest := s[k + 1..];
    assert rest == p.mass + suffix;
    DigitRunOfAppend(p.mass, suffix);
    var d := |p.mass|;
    assert rest[..d] == p.mass;
    assert rest[d..] == suffix;
    if p.isomer.Some? {
      assert suffix[2..] == p.isomer.value;
    }
  }

  /** Python's `target or ''`, then `$` also matching just before one final newline. */
  function Body(raw: Option<string>): (r: string)
    ensures raw.None? ==> r == ""
    ensures raw.Some? ==> r == raw.value || r + "\n" == raw.value
    ensures raw.Some? && (|raw.value| == 0 || raw.value[|raw.value| - 1] != '\n') ==> r == raw.value
  {
    var s := raw.GetOr("");
    if |s| > 0 && s[|s| - 1] == '\n' then s[..|s| - 1] else s
  }

  /**
   * `parse_target`: the nuclide a raw target code names, or `None` when the
   * code does not match the pattern or its symbol is not an element.
   */
  function ParseTarget(raw: Option<string>): (r: Option<Nuclide>)
    ensures r.Some? ==> 1 <= r.value.z <= 118
    ensures r.Some? ==> exists p :: WellFormed(p) && Spell(p) == Body(raw) && Meaning(p) == r
  {
    match Split(Body(raw))
    case None => None
    case Some(p) => Meaning(p)
  }

  /**
   * Completeness: a well-formed code, with or without one trailing newline,
   * parses to the nuclide its groups name (or fails only for an unknown symbol).
   */
  lemma ParseTargetAccepts(p: Parts, newline: bool)
    requires WellFormed(p)
    ensures ParseTarget(Some(Spell(p) + (if newline then "\n" else ""))) == Meaning(p)
  {
    SplitSpell(p);
    var s := Spell(p) + (if newline then "\n" else "");
    assert Body(Some(s)) == Spell(p) by {
      if newline {
        assert s[..|s| - 1] == Spell(p);
      } else {
        assert s == Spell(p);
        EndsWithDigit(p);
      }
    }
  }

  /** A well-formed spelling ends in a digit or in `M`, never in a newline. */
  lemma EndsWithDigit(p: Parts)
    requires WellFormed(p)
    ensures Spell(p)[|Spell(p)| - 1] != '\n'
  {
    if p.isomer.Some? && p.isomer.value != "" {
      assert Spell(p)[|Spell(p)| - 1] == p.isomer.value[|p.isomer.value| - 1];
    } else if p.isomer.None? {
      assert Spell(p)[|Spell(p)| - 1] == p.mass[|p.mass| - 1];
    }
  }

  /** A well-formed code whose symbol is element `z` parses to `z`, its mass and its isomer state. */
  lemma ParseTargetOfElement(p: Parts, z: nat, a: nat, state: nat)
    requires WellFormed(p) && Elements.SymbolToZ(p.symbol) == Some(z)
    requires DigitsValue(p.mass) == a && StateOf(p) == state
    ensures ParseTarget(Some(Spell(p))) == Some(Nuclide(z, a, state))
  {
    assert Spell(p) + "" == Spell(p);
    ParseTargetAccepts(p, false);
  }

  /** Example: `FE-56` is iron-56 in its ground state. */
  lemma IronExample()
    ensures ParseTarget(Some("FE-56")) == Some(Nuclide(26, 56, 0))
  {
    var p := Parts("FE", "56", None);
    assert Spell(p) == "FE-56";
    Elements.IronIs26();
    assert DigitsValue(p.mass) == 56 by {
      assert "56"[..1] == "5" && "5"[..0] == "";
    }
    ParseTargetOfElement(p, 26, 56, 0);
  }

  /** Example: a bare `-M` suffix is isomer state 1. */
  lemma BareIsomerExample()
    ensures ParseTarget(Some("U-235-M")) == Some(Nuclide(92, 235, 1))
  {
    var p := Parts("U", "235", Some(""));
    assert Spell(p) == "U-235-M";
    Elements.UraniumIs92();
    assert DigitsValue(p.mass) == 235 by {
      assert "235"[..2] == "23" && "23"[..1] == "2" && "2"[..0] == "";
    }
    assert StateOf(p) == 1;
    ParseTargetOfElement(p, 92, 235, 1);
  }

  /** Example: `-M2` is isomer state 2. */
  lemma NumberedIsomerExample()
    ensures ParseTarget(Some("U-235-M2")) == Some(Nuclide(92, 235, 2))
  {
    var p := Parts("U", "235", Some("2"));
    assert Spell(p) == "U-235-M2";
    Elements.UraniumIs92();
    assert DigitsValue(p.mass) == 235 by {
      assert "235"[..2] == "23" && "23"[..1] == "2" && "2"[..0] == "";
    }
    assert StateOf(p) == 2 by { assert "2"[..0] == ""; }
    ParseTargetOfElement(p, 92, 235, 2);
  }

  /** Example: `-M0` is read as state 0, the ground state. */
  lemma ZeroIsomerExample()
    ensures ParseTarget(Some("U-235-M0")) == Some(Nuclide(92, 235, 0))
  {
    var p := Parts("U", "235", Some("0"));
    assert Spell(p) == "U-235-M0";
    Elements.UraniumIs92();
    assert DigitsValue(p.mass) == 235 by {
      assert "235"[..2] == "23" && "23"[..1] == "2" && "2"[..0] == "";
    }
    assert StateOf(p) == 0 by { assert "0"[..0] == ""; }
    ParseTargetOfElement(p, 92, 235, 0);
  }

  /** Examples: a missing dash, lower case and a missing code all fail. */
  lemma RejectedExamples()
    ensures ParseTarget(Some("FE56")) == None
    ensures ParseTarget(Some("fe-56")) == None
    ensures ParseTarget(None) == None
  {
    assert UpperRun("FE56") == 2;
    assert UpperRun("fe-56") == 0;
  }

  /** Example: a well-formed code with an unknown symbol fails. */
  lemma UnknownSymbolRejected()
    ensures ParseTarget(Some("XX-10")) == None
  {
    var p := Parts("XX", "10", None);
    assert Spell(p) + "" == "XX-10";
    ParseTargetAccepts(p, false);
    Elements.UnknownSymbol();
  }

  /**
   * The pattern admits one to three capitals, but no element symbol has
   * three letters, so such a code always fails at the symbol lookup.
   */
  lemma ThreeLetterSymbolRejected(p: Parts, newline: bool)
    requires WellFormed(p) && |p.symbol| == 3
    ensures ParseTarget(Some(Spell(p) + (if newline then "\n" else ""))) == None
  {
    ParseTargetAccepts(p, newline);
    Elements.ThreeLettersUnknown(p.symbol);
  }
}
