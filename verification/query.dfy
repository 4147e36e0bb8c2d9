/** The full-text search expression for a pair of phrases: each phrase in
    double quotes, joined by `AND`, with no escaping of quotes inside a phrase. */
module Query {
  import opened Results

  const Quote: char := '"'
  const Separator: string := "\" AND \""

  predicate QuoteFree(s: string) {
    forall i :: 0 <= i < |s| ==> s[i] != Quote
  }

  function BuildQuery(left: string, right: string): (q: string)
    ensures |q| == |left| + |right| + 9
    ensures q[0] == Quote && q[|q| - 1] == Quote
    ensures q[1..|left| + 1] == left
    ensures q[|left| + 1..|left| + 8] == Separator
    ensures q[|left| + 8..|q| - 1] == right
  {
    "\"" + left + Separator + right + "\""
  }

  /** Position of the first double quote in `s`, or `|s|` when there is none. */
  function FirstQuote(s: string): (i: nat)
    ensures i <= |s| && QuoteFree(s[..i])
    ensures i < |s| ==> s[i] == Quote
  {
    if |s| == 0 || s[0] == Quote then 0
    else
      var i := 1 + FirstQuote(s[1..]);
      assert s[..i] == [s[0]] + s[1..][..i - 1];
      i
  }

  /** Reads a pair of quote-free phrases back out of a search expression. */
  function ParseQuery(q: string): Option<(string, string)> {
    if |q| < 9 || q[0] != Quote || q[|q| - 1] != Quote then None
    else
      var inner := q[1..|q| - 1];
      var i := FirstQuote(inner);
      if i + 7 <= |inner| && inner[i..i + 7] == Separator && QuoteFree(inner[i + 7..])
      then Some((inner[..i], inner[i + 7..]))
      else None
  }

  /** Quote-free phrases survive the query unchanged: they can be read back exactly. */
  lemma QueryRoundTrip(left: string, right: string)
    requires QuoteFree(left) && QuoteFree(right)
    ensures ParseQuery(BuildQuery(left, right)) == Some((left, right))
  {
    var q := BuildQuery(left, right);
    var inner := q[1..|q| - 1];
    assert inner == left + Separator + right;
    var i := FirstQuote(inner);
    assert forall j :: 0 <= j < |left| ==> inner[j] == left[j];
    assert inner[|left|] == Quote;
    assert i == |left|;
    assert inner[..i] == left;
    assert inner[i..i + 7] == Separator;
    assert inner[i + 7..] == right;
  }

  /** Whatever the parser accepts is exactly the query of the phrases it returns. */
  lemma ParsedQueryRebuilds(q: string, left: string, right: string)
    requires ParseQuery(q) == Some((left, right))
    ensures QuoteFree(left) && QuoteFree(right)
    ensures BuildQuery(left, right) == q
  {
    var inner := q[1..|q| - 1];
    var i := FirstQuote(inner);
    assert inner == left + Separator + right;
    assert q == "\"" + inner + "\"";
  }

  /** Because quotes inside a phrase are not escaped, different pairs can
      produce the same query. */
  lemma QueryAmbiguous(x: string, y: string, z: string)
    ensures BuildQuery(x + Separator + y, z) == BuildQuery(x, y + Separator + z)
  {
    assert BuildQuery(x + Separator + y, z) == "\"" + x + Separator + y + Separator + z + "\"";
  }

  /** So the query does not determine the pair: the search cannot tell some
      pairs apart. */
  lemma QueryNotInjective()
    ensures exists l1, r1, l2, r2 :: l1 != l2 && BuildQuery(l1, r1) == BuildQuery(l2, r2)
  {
    var l1, r1 := "a" + Separator + "b", "c";
    var l2, r2 := "a", "b" + Separator + "c";
    QueryAmbiguous("a", "b", "c");
    assert |l1| != |l2|;
  }
}
