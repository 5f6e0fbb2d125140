/** Position lookups over sequences, standing in for Python's `list.index`. */
module Lists {
  import opened Wrappers

  /** Python's `s.index(x)` when `x in s`, and `None` otherwise: the first position holding `x`. */
  function IndexOf<T(==)>(s: seq<T>, x: T): (r: Option<nat>)
    ensures r.None? <==> x !in s
    ensures r.Some? ==> r.value < |s| && s[r.value] == x && x !in s[..r.value]
  {
    if |s| == 0 then None
    else if s[0] == x then Some(0)
    else
      var rest := IndexOf(s[1..], x);
      if rest.None? then None
      else
        assert s[..rest.value + 1] == [s[0]] + s[1..][..rest.value];
        Some(rest.value + 1)
  }

  /** Searching a concatenation searches the front part first, then the back part. */
  lemma {:induction false} IndexOfAppend<T>(a: seq<T>, b: seq<T>, x: T)
    ensures IndexOf(a + b, x) == if x in a then IndexOf(a, x)
                                 else if x in b then Some(|a| + IndexOf(b, x).value)
                                 else None
  {
    if |a| > 0 {
      assert (a + b)[1..] == a[1..] + b;
      IndexOfAppend(a[1..], b, x);
    } else {
      assert a + b == b;
    }
  }

  /** A value absent from `a` is found in `a + b` exactly `|a|` places later than in `b`. */
  lemma IndexOfAfter<T>(a: seq<T>, b: seq<T>, x: T, k: nat)
    requires x !in a && IndexOf(b, x) == Some(k)
    ensures IndexOf(a + b, x) == Some(|a| + k)
  {
    IndexOfAppend(a, b, x);
  }

  /** The first position holding `x` is the one `IndexOf` reports. */
  lemma IndexOfAt<T>(s: seq<T>, x: T, i: nat)
    requires i < |s| && s[i] == x && x !in s[..i]
    ensures IndexOf(s, x) == Some(i)
  {
    var j := IndexOf(s, x).value;
    assert forall k :: 0 <= k < i ==> s[..i][k] == s[k];
    assert forall k :: 0 <= k < j ==> s[..j][k] == s[k];
  }
}
