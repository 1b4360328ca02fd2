/**
 * The few `java.lang` behaviours the navigator descriptors rely on:
 * `String.equalsIgnoreCase`, `Boolean.valueOf(String)` and the text that
 * string concatenation produces for a `null` reference.
 */
module JavaLang {
  import opened Wrappers

  function ToUpperAscii(c: char): (r: char)
  {
    if 'a' <= c <= 'z' then (c as int - 32) as char else c
  }

  function ToLowerAscii(c: char): (r: char)
  {
    if 'A' <= c <= 'Z' then (c as int + 32) as char else c
  }

  /** The per-character test of `String.regionMatches(true, ...)`. */
  predicate CharEqualsIgnoreCase(a: char, b: char)
  {
    a == b
    || ToUpperAscii(a) == ToUpperAscii(b)
    || ToLowerAscii(ToUpperAscii(a)) == ToLowerAscii(ToUpperAscii(b))
  }

  /**
   * `String.equalsIgnoreCase` with ASCII case folding only: same length, and
   * every pair of characters matches.
   */
  predicate EqualsIgnoreCase(s: string, t: string)
    ensures EqualsIgnoreCase(s, t) <==> |s| == |t| && forall i | 0 <= i < |s| :: CharEqualsIgnoreCase(s[i], t[i])
    decreases |s|
  {
    |s| == |t| && (s == [] || (CharEqualsIgnoreCase(s[0], t[0]) && EqualsIgnoreCase(s[1..], t[1..])))
  }

  /** The sixteen spellings of "true" in any mixture of cases. */
  predicate IsTrueSpelling(w: string)
  {
    |w| == 4
    && (w[0] == 't' || w[0] == 'T')
    && (w[1] == 'r' || w[1] == 'R')
    && (w[2] == 'u' || w[2] == 'U')
    && (w[3] == 'e' || w[3] == 'E')
  }

  /** The text that `"" + o` yields for a string reference `o`: the string itself, or "null". */
  function JavaString(o: Option<string>): (r: string)
    ensures o.Some? ==> r == o.value
    ensures o.None? ==> r == "null"
  {
    match o
    case Some(s) => s
    case None => "null"
  }

  /** A character matches a lower-case ASCII letter ignoring case exactly when it is that letter in either case. */
  lemma CharMatchesLetter(c: char, letter: char)
    requires 'a' <= letter <= 'z'
    ensures CharEqualsIgnoreCase(c, letter) <==> c == letter || c == ToUpperAscii(letter)
  {
  }

  /** A string equals "true" ignoring case exactly when it is one of its sixteen case spellings. */
  lemma EqualsTrueIgnoringCase(w: string)
    ensures EqualsIgnoreCase(w, "true") <==> IsTrueSpelling(w)
  {
    if |w| == 4 {
      CharMatchesLetter(w[0], 't');
      CharMatchesLetter(w[1], 'r');
      CharMatchesLetter(w[2], 'u');
      CharMatchesLetter(w[3], 'e');
    }
  }

  /**
   * `Boolean.valueOf(s).booleanValue()`, that is `Boolean.parseBoolean(s)`:
   * true exactly for a present value that spells "true" in any case.
   */
  predicate ParseBoolean(s: Option<string>)
    ensures ParseBoolean(s) <==> s.Some? && IsTrueSpelling(s.value)
  {
    match s
    case None => false
    case Some(v) => EqualsTrueIgnoringCase(v); EqualsIgnoreCase(v, "true")
  }
}
