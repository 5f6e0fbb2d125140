/**
 * Numeric coercion of a dataset cell (`to_num`). Parsing of a numeric string
 * is not modelled: it is the parameter `parse`, standing for Python's
 * `float(text)` followed by the rejection of NaN and infinities.
 */
module Numbers {
  import opened Wrappers
  import opened Text

  /** A cell of a dataset row: Python `None`, a finite int/float, a NaN or infinite float, or text. */
  datatype Cell = Missing | Number(x: real) | NonFinite | Text(s: string)

  /** Placeholder texts that mean "no value". */
  const Sentinels: set<string> := {"-", "NA", "N/A"}

  /** `to_num`: a finite number, or `None` for missing, non-finite, blank, placeholder or unparsable input. */
  function ToNum(c: Cell, parse: string -> Option<real>): (r: Option<real>)
    ensures c.Missing? || c.NonFinite? ==> r.None?
    ensures c.Number? ==> r == Some(c.x)
    ensures c.Text? && (AllSpace(c.s) || Strip(c.s) in Sentinels) ==> r.None?
    ensures c.Text? && !AllSpace(c.s) && Strip(c.s) !in Sentinels ==> r == parse(Strip(c.s))
  {
    match c
    case Missing => None
    case Number(x) => Some(x)
    case NonFinite => None
    case Text(s) =>
      var t := Strip(s);
      if t == "" || t in Sentinels then None else parse(t)
  }

  /** Whatever the string parser does, the placeholders `-`, `NA` and `N/A` never become numbers. */
  lemma PlaceholdersAreNone(s: string, parse: string -> Option<real>)
    requires s in {"-", "NA", "N/A"}
    ensures ToNum(Text(s), parse) == None
  {
    assert LeadingSpaces(s) == 0;
    assert TrailingSpaces(s) == 0;
    assert Strip(s) == s;
  }

  /** A number converted once converts to itself again. */
  lemma ToNumStable(c: Cell, parse: string -> Option<real>)
    requires ToNum(c, parse).Some?
    ensures ToNum(Number(ToNum(c, parse).value), parse) == ToNum(c, parse)
  {
  }
}
