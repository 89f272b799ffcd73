/**
 * The wildcard matcher used for function and receiver patterns. The real
 * matcher is a third-party library that is not part of this model; this
 * module takes its semantics to be the usual ones: `*` matches any run of
 * characters (possibly empty) and every other character matches itself.
 */
module Glob {

  function Glob(pattern: string, subject: string): bool
    decreases |pattern| + |subject|
  {
    if pattern == [] then subject == []
    else if pattern[0] == '*' then
      Glob(pattern[1..], subject) || (subject != [] && Glob(pattern, subject[1..]))
    else
      subject != [] && subject[0] == pattern[0] && Glob(pattern[1..], subject[1..])
  }

  /** The number of characters of a pattern that are not `*`. */
  function LiteralCount(pattern: string): nat {
    if pattern == [] then 0 else (if pattern[0] == '*' then 0 else 1) + LiteralCount(pattern[1..])
  }

  /** Every character other than `*` consumes one character of the subject. */
  lemma {:induction false} MatchCoversLiterals(pattern: string, subject: string)
    requires Glob(pattern, subject)
    ensures |subject| >= LiteralCount(pattern)
    ensures '*' !in pattern ==> |subject| == |pattern|
    decreases |pattern| + |subject|
  {
    if pattern != [] {
      if pattern[0] == '*' {
        if Glob(pattern[1..], subject) {
          MatchCoversLiterals(pattern[1..], subject);
        } else {
          MatchCoversLiterals(pattern, subject[1..]);
        }
      } else {
        MatchCoversLiterals(pattern[1..], subject[1..]);
      }
    }
  }

  /** A lone `*` matches everything, the empty subject included. */
  lemma {:induction false} StarMatchesAll(subject: string)
    ensures Glob("*", subject)
    decreases |subject|
  {
    if subject != [] {
      StarMatchesAll(subject[1..]);
    } else {
      assert "*"[1..] == [];
    }
  }

  /** A pattern without `*` matches exactly the subject equal to it. */
  lemma {:induction false} LiteralMatchesItself(pattern: string, subject: string)
    requires '*' !in pattern
    ensures Glob(pattern, subject) <==> pattern == subject
    decreases |pattern|
  {
    if pattern != [] && subject != [] {
      LiteralMatchesItself(pattern[1..], subject[1..]);
      if pattern[0] == subject[0] && pattern[1..] == subject[1..] {
        assert pattern == [pattern[0]] + pattern[1..] && subject == [subject[0]] + subject[1..];
      }
    }
  }

  /** Matching is compositional: glued patterns match glued subjects. */
  lemma {:induction false} GlobConcat(p1: string, s1: string, p2: string, s2: string)
    requires Glob(p1, s1) && Glob(p2, s2)
    ensures Glob(p1 + p2, s1 + s2)
    decreases |p1| + |s1|
  {
    if p1 == [] {
      assert p1 + p2 == p2 && s1 + s2 == s2;
    } else if p1[0] == '*' {
      assert (p1 + p2)[1..] == p1[1..] + p2;
      if Glob(p1[1..], s1) {
        GlobConcat(p1[1..], s1, p2, s2);
      } else {
        assert (s1 + s2)[1..] == s1[1..] + s2;
        GlobConcat(p1, s1[1..], p2, s2);
      }
    } else {
      assert (p1 + p2)[1..] == p1[1..] + p2;
      assert (s1 + s2)[1..] == s1[1..] + s2;
      GlobConcat(p1[1..], s1[1..], p2, s2);
    }
  }

  /** `prefix*` matches every subject that starts with `prefix`. */
  lemma PrefixStarMatches(prefix: string, rest: string)
    requires '*' !in prefix
    ensures Glob(prefix + "*", prefix + rest)
  {
    LiteralMatchesItself(prefix, prefix);
    StarMatchesAll(rest);
    GlobConcat(prefix, prefix, "*", rest);
  }
}
