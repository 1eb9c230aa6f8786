/** The pattern language of the Redis command KEYS, for keys that are not empty. */
module Glob {

  /** The members of a character class up to its closing bracket: whether `c` is among them, and the
      pattern after the class. */
  function Class(p: string, c: char): (r: (bool, string))
    ensures |r.1| <= |p|
  {
    if p == "" then (false, "")
    else if p[0] == '\\' && |p| >= 2 then
      var (hit, rest) := Class(p[2..], c);
      (hit || p[1] == c, rest)
    else if p[0] == ']' then (false, p[1..])
    else if |p| >= 3 && p[1] == '-' then
      var (hit, rest) := Class(p[3..], c);
      (hit || p[0] <= c <= p[2] || p[2] <= c <= p[0], rest)
    else
      var (hit, rest) := Class(p[1..], c);
      (hit || p[0] == c, rest)
  }

  predicate Matches(p: string, s: string)
    decreases |p| + |s|
  {
    if p == "" then s == ""
    else if p[0] == '*' then Matches(p[1..], s) || (s != "" && Matches(p, s[1..]))
    else if s == "" then false
    else
      match p[0]
      case '?' => Matches(p[1..], s[1..])
      case '[' =>
        var negated := |p| >= 2 && p[1] == '^';
        var (hit, rest) := Class(if negated then p[2..] else p[1..], s[0]);
        hit != negated && Matches(rest, s[1..])
      case '\\' =>
        if |p| >= 2 then p[1] == s[0] && Matches(p[2..], s[1..]) else p[0] == s[0] && Matches(p[1..], s[1..])
      case c => c == s[0] && Matches(p[1..], s[1..])
  }

  /** No character of the text has a meaning in patterns. */
  ghost predicate Plain(text: string) {
    forall i :: 0 <= i < |text| ==> text[i] !in "*?[\\"
  }

  predicate HasPrefix(s: string, p: string) {
    |p| <= |s| && s[..|p|] == p
  }

  lemma {:induction false} StarMatches(s: string)
    ensures Matches("*", s)
  {
    assert "*"[1..] == "";
    if s != "" {
      StarMatches(s[1..]);
    }
  }

  /** A star takes any beginning. */
  lemma {:induction false} StarSkips(p: string, skipped: string, s: string)
    requires Matches(p, s)
    ensures Matches("*" + p, skipped + s)
  {
    assert ("*" + p)[1..] == p;
    if skipped == "" {
      assert skipped + s == s;
    } else {
      StarSkips(p, skipped[1..], s);
      assert (skipped + s)[1..] == skipped[1..] + s;
    }
  }

  /** Plain text in a pattern stands for itself. */
  lemma {:induction false} PlainStrips(text: string, p: string, s: string)
    requires Plain(text)
    ensures Matches(text + p, s) <==> HasPrefix(s, text) && Matches(p, s[|text|..])
  {
    if text == "" {
      assert text + p == p && s[|text|..] == s;
    } else {
      assert text[0] !in "*?[\\";
      assert (text + p)[0] == text[0] && (text + p)[1..] == text[1..] + p;
      if s != "" {
        PlainStrips(text[1..], p, s[1..]);
        assert s == [s[0]] + s[1..] && text == [text[0]] + text[1..];
        assert HasPrefix(s, text) <==> s[0] == text[0] && HasPrefix(s[1..], text[1..]);
        if HasPrefix(s, text) {
          assert s[1..][|text| - 1..] == s[|text|..];
        }
      }
    }
  }

  /** Plain text followed by a star matches exactly what starts with the text. */
  lemma {:induction false} PlainThenStar(text: string, s: string)
    requires Plain(text)
    ensures Matches(text + "*", s) <==> HasPrefix(s, text)
  {
    PlainStrips(text, "*", s);
    if HasPrefix(s, text) {
      StarMatches(s[|text|..]);
    }
  }
}
