/** Python's `s.split(sep)[0]`, used by both scripts: the consumer takes the
    text before the first `/` of a temperature, the scraper the text before the
    first space of a page title. */
module Strings {

  /** The text before the first `sep` in `s`, or all of `s` when `sep` does not occur. */
  function Before(s: string, sep: char): (r: string)
    ensures r <= s
    ensures sep !in r
    ensures |r| < |s| ==> s[|r|] == sep
  {
    if s == [] || s[0] == sep then [] else [s[0]] + Before(s[1..], sep)
  }

  /** The three properties in the contract of `Before` single out its result. */
  lemma BeforeUnique(s: string, sep: char, r: string)
    requires r <= s && sep !in r && (|r| < |s| ==> s[|r|] == sep)
    ensures r == Before(s, sep)
  {
  }

  /** Splitting `a + [sep] + b` on `sep` gives back `a` when `a` holds no `sep`. */
  lemma {:induction false} BeforeJoin(a: string, sep: char, b: string)
    requires sep !in a
    ensures Before(a + [sep] + b, sep) == a
  {
    BeforeUnique(a + [sep] + b, sep, a);
  }

  /** Appending a `sep` and more text does not change the first field. */
  lemma {:induction false} BeforeAppend(a: string, sep: char, b: string)
    ensures Before(a + [sep] + b, sep) == Before(a, sep)
  {
    var s, r := a + [sep] + b, Before(a, sep);
    assert r <= s;
    BeforeUnique(s, sep, r);
  }
}
