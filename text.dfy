/**
 * The parts of Go's `strings`, `strconv` and `fmt` packages that the core
 * relies on, over `string`. A Go string is a sequence of bytes; here each
 * byte is one `char`, so offsets into a source file are offsets into the
 * Dafny string.
 */
module Text {
  import opened Wrappers

  /** strings.HasPrefix */
  predicate HasPrefix<T(==)>(s: seq<T>, p: seq<T>) {
    |p| <= |s| && s[..|p|] == p
  }

  /** strings.TrimPrefix: removes one copy of `p` from the front of `s`, if it is there. */
  function TrimPrefix(s: string, p: string): (r: string)
    ensures HasPrefix(s, p) ==> p + r == s
    ensures !HasPrefix(s, p) ==> r == s
  {
    if HasPrefix(s, p) then
      assert s == s[..|p|] + s[|p|..];
      s[|p|..]
    else s
  }

  /**
   * strings.Cut (and strings.SplitN(s, sep, 2)) for a one-character
   * separator: the text before the FIRST `sep` and the text after it.
   */
  function Cut<T(==)>(s: seq<T>, sep: T): (r: Option<(seq<T>, seq<T>)>)
    ensures r.None? <==> sep !in s
    ensures r.Some? ==> s == r.value.0 + [sep] + r.value.1 && sep !in r.value.0
  {
    if |s| == 0 then None
    else if s[0] == sep then
      assert s == [] + [sep] + s[1..];
      Some(([], s[1..]))
    else
      match Cut(s[1..], sep)
      case None => None
      case Some((a, b)) =>
        assert s == [s[0]] + s[1..];
        assert [s[0]] + a + [sep] + b == [s[0]] + (a + [sep] + b);
        assert sep !in [s[0]] + a;
        Some(([s[0]] + a, b))
  }

  /** Cutting at a separator that the first part does not contain gives back both parts. */
  lemma {:induction false} CutOf<T>(a: seq<T>, sep: T, b: seq<T>)
    requires sep !in a
    ensures Cut(a + [sep] + b, sep) == Some((a, b))
  {
    var s := a + [sep] + b;
    if a == [] {
      assert s[0] == sep && s[1..] == b;
    } else {
      assert s[0] == a[0] != sep;
      assert s[1..] == a[1..] + [sep] + b;
      CutOf(a[1..], sep, b);
      assert [a[0]] + a[1..] == a;
    }
  }

  /** `sub` starts at index `i` of `s`. */
  predicate OccursAt<T(==)>(s: seq<T>, sub: seq<T>, i: int) {
    0 <= i && i + |sub| <= |s| && s[i..i + |sub|] == sub
  }

  lemma OccursAtTail<T>(s: seq<T>, sub: seq<T>, j: int)
    requires |s| > 0 && 0 <= j
    ensures OccursAt(s, sub, j + 1) <==> OccursAt(s[1..], sub, j)
  {
    if j + 1 + |sub| <= |s| {
      assert s[j + 1..j + 1 + |sub|] == s[1..][j..j + |sub|];
    }
  }

  /** strings.Index: the first index at which `sub` occurs in `s`, or -1. */
  function Index<T(==)>(s: seq<T>, sub: seq<T>): (r: int)
    ensures -1 <= r <= |s|
    ensures r >= 0 ==> OccursAt(s, sub, r) && forall j | 0 <= j < r :: !OccursAt(s, sub, j)
    ensures r == -1 ==> forall j | 0 <= j :: !OccursAt(s, sub, j)
    decreases |s|
  {
    if HasPrefix(s, sub) then 0
    else if |s| == 0 then -1
    else
      var k := Index(s[1..], sub);
      forall j | 1 <= j ensures OccursAt(s, sub, j) <==> OccursAt(s[1..], sub, j - 1) {
        OccursAtTail(s, sub, j - 1);
      }
      assert !OccursAt(s, sub, 0) by {
        if |sub| <= |s| { assert s[0..|sub|] == s[..|sub|]; }
      }
      if k < 0 then -1 else k + 1
  }

  /** The first occurrence of a one-element pattern is where Cut splits. */
  lemma IndexOfCut<T>(a: seq<T>, sep: T, b: seq<T>)
    requires sep !in a
    ensures Index(a + [sep] + b, [sep]) == |a|
  {
    var s := a + [sep] + b;
    assert OccursAt(s, [sep], |a|) by {
      assert s[|a|..|a| + 1] == [sep];
    }
    forall j | 0 <= j < |a| ensures !OccursAt(s, [sep], j) {
      assert s[j] == a[j] && s[j..j + 1] == [s[j]];
    }
  }

  /** A prefix is the first occurrence. */
  lemma IndexOfPrefix<T>(s: seq<T>, p: seq<T>)
    requires HasPrefix(s, p)
    ensures Index(s, p) == 0
  {
    assert OccursAt(s, p, 0) by {
      assert s[0..|p|] == s[..|p|];
    }
  }

  /** strings.Replace(s, pattern, replacement, 1): replaces the first occurrence of `pattern`, wherever it is. */
  function ReplaceFirst(s: string, pattern: string, replacement: string): (r: string)
    ensures Index(s, pattern) < 0 ==> r == s
    ensures Index(s, pattern) >= 0 ==>
      r == s[..Index(s, pattern)] + replacement + s[Index(s, pattern) + |pattern|..]
  {
    var i := Index(s, pattern);
    if i < 0 then s else s[..i] + replacement + s[i + |pattern|..]
  }

  /** strings.Split(s, sep) for a one-character separator. */
  function Split<T(==)>(s: seq<T>, sep: T): (parts: seq<seq<T>>)
    ensures |parts| >= 1
    ensures forall k | 0 <= k < |parts| :: sep !in parts[k]
    decreases |s|
  {
    match Cut(s, sep)
    case None => [s]
    case Some((a, b)) => [a] + Split(b, sep)
  }

  /** strings.Join(parts, sep). */
  function Join<T>(parts: seq<seq<T>>, sep: seq<T>): seq<T> {
    if |parts| == 0 then []
    else if |parts| == 1 then parts[0]
    else parts[0] + sep + Join(parts[1..], sep)
  }

  /** Concatenation is associative. */
  lemma ConcatAssociative<T>(x: seq<T>, y: seq<T>, z: seq<T>)
    ensures x + (y + z) == (x + y) + z
  {
  }

  /** Splitting and joining again gives back the text. */
  lemma {:induction false} JoinSplit<T>(s: seq<T>, sep: T)
    ensures Join(Split(s, sep), [sep]) == s
    decreases |s|
  {
    match Cut(s, sep)
    case None =>
    case Some((a, b)) =>
      JoinSplit(b, sep);
  }

  /** The ASCII white space that strings.TrimSpace removes. */
  predicate IsSpace(c: char) {
    c == ' ' || c == '\t' || c == '\n' || c == '\r' || c as int == 0x0B || c as int == 0x0C
  }

  /** The suffix of `s` after its leading white space. */
  function TrimLeftSpace(s: string): (r: string)
    ensures |r| <= |s|
    ensures r != [] ==> !IsSpace(r[0])
  {
    if |s| > 0 && IsSpace(s[0]) then TrimLeftSpace(s[1..]) else s
  }

  /** The prefix of `s` before its trailing white space. */
  function TrimRightSpace(s: string): (r: string)
    ensures |r| <= |s|
    ensures r != [] ==> !IsSpace(r[|r| - 1])
  {
    if |s| > 0 && IsSpace(s[|s| - 1]) then TrimRightSpace(s[..|s| - 1]) else s
  }

  /** TrimLeftSpace removes a prefix of white space. */
  lemma {:induction false} TrimLeftSpaceRemovesSpace(s: string)
    ensures TrimLeftSpace(s) == s[|s| - |TrimLeftSpace(s)|..]
    ensures forall i | 0 <= i < |s| - |TrimLeftSpace(s)| :: IsSpace(s[i])
  {
    if |s| > 0 && IsSpace(s[0]) {
      TrimLeftSpaceRemovesSpace(s[1..]);
      assert s[1..][|s| - 1 - |TrimLeftSpace(s)|..] == s[|s| - |TrimLeftSpace(s)|..];
      forall i | 0 <= i < |s| - |TrimLeftSpace(s)|
        ensures IsSpace(s[i])
      {
        if i > 0 {
          assert s[i] == s[1..][i - 1];
        }
      }
    }
  }

  /** TrimRightSpace removes a suffix of white space. */
  lemma {:induction false} TrimRightSpaceRemovesSpace(s: string)
    ensures TrimRightSpace(s) == s[..|TrimRightSpace(s)|]
    ensures forall i | |TrimRightSpace(s)| <= i < |s| :: IsSpace(s[i])
  {
    if |s| > 0 && IsSpace(s[|s| - 1]) {
      TrimRightSpaceRemovesSpace(s[..|s| - 1]);
      assert s[..|s| - 1][..|TrimRightSpace(s)|] == s[..|TrimRightSpace(s)|];
      forall i | |TrimRightSpace(s)| <= i < |s|
        ensures IsSpace(s[i])
      {
        if i < |s| - 1 {
          assert s[i] == s[..|s| - 1][i];
        }
      }
    }
  }

  /** strings.TrimSpace (ASCII white space only). */
  function TrimSpace(s: string): (r: string)
    ensures r != [] ==> !IsSpace(r[0]) && !IsSpace(r[|r| - 1])
  {
    TrimRightSpaceRemovesSpace(TrimLeftSpace(s));
    TrimRightSpace(TrimLeftSpace(s))
  }

  /** Trailing white space after a trimmed string is all that TrimSpace removes. */
  lemma {:induction false} TrimSpaceTrailing(s: string, w: string)
    requires s != [] ==> !IsSpace(s[0]) && !IsSpace(s[|s| - 1])
    requires forall i | 0 <= i < |w| :: IsSpace(w[i])
    ensures TrimSpace(s + w) == s
  {
    if s == [] {
      AllSpaceTrimsLeft(w);
      assert s + w == w;
    } else {
      assert TrimLeftSpace(s + w) == s + w;
      TrimRightAllSpace(s, w);
    }
  }

  lemma {:induction false} AllSpaceTrimsLeft(w: string)
    requires forall i | 0 <= i < |w| :: IsSpace(w[i])
    ensures TrimLeftSpace(w) == [] && TrimRightSpace([]) == []
  {
    if |w| > 0 { AllSpaceTrimsLeft(w[1..]); }
  }

  lemma {:induction false} TrimRightAllSpace(s: string, w: string)
    requires s != [] && !IsSpace(s[|s| - 1])
    requires forall i | 0 <= i < |w| :: IsSpace(w[i])
    ensures TrimRightSpace(s + w) == s
    decreases |w|
  {
    if |w| == 0 {
      assert s + w == s;
    } else {
      assert (s + w)[..|s + w| - 1] == s + w[..|w| - 1];
      TrimRightAllSpace(s, w[..|w| - 1]);
    }
  }

  function DigitChar(d: nat): (c: char)
    requires d < 10
    ensures '0' <= c <= '9' && c as int - '0' as int == d
  {
    ('0' as int + d) as char
  }

  predicate AllDigits(s: string) {
    forall i | 0 <= i < |s| :: '0' <= s[i] <= '9'
  }

  /** fmt's %d for a non-negative number: decimal digits, most significant first, no leading zero. */
  function NatToString(n: nat): (r: string)
    ensures |r| >= 1 && AllDigits(r)
    ensures r[0] == '0' ==> n == 0
  {
    if n < 10 then [DigitChar(n)] else NatToString(n / 10) + [DigitChar(n % 10)]
  }

  /** fmt's %d for any int. */
  function IntToString(i: int): (r: string)
    ensures |r| >= 1
    ensures i >= 0 ==> r == NatToString(i)
    ensures i < 0 ==> r == "-" + NatToString(-i)
  {
    if i < 0 then "-" + NatToString(-i) else NatToString(i)
  }

  /** The value of a string of decimal digits. */
  function DecimalValue(s: string): nat
    requires AllDigits(s)
  {
    if |s| == 0 then 0
    else DecimalValue(s[..|s| - 1]) * 10 + (s[|s| - 1] as int - '0' as int)
  }

  lemma {:induction false} DecimalValueOfNatToString(n: nat)
    ensures DecimalValue(NatToString(n)) == n
  {
    if n >= 10 {
      var s := NatToString(n);
      assert s[..|s| - 1] == NatToString(n / 10);
      DecimalValueOfNatToString(n / 10);
    }
  }

  const MaxInt64: int := 0x7fff_ffff_ffff_ffff
  const MinInt64: int := -0x8000_0000_0000_0000

  /**
   * strconv.Atoi on a 64-bit platform: an optional sign followed by one or
   * more decimal digits whose value fits in an int64; anything else is an
   * error (None).
   */
  function Atoi(s: string): (r: Option<int>)
    ensures r.Some? ==> MinInt64 <= r.value <= MaxInt64
    ensures r.Some? ==> |s| >= 1 && (AllDigits(s) || (AllDigits(s[1..]) && |s| >= 2 && (s[0] == '+' || s[0] == '-')))
    ensures r.Some? && AllDigits(s) ==> r.value == DecimalValue(s)
    ensures r.Some? && !AllDigits(s) ==> r.value == (if s[0] == '-' then -(DecimalValue(s[1..]) as int) else DecimalValue(s[1..]))
    ensures |s| >= 1 && AllDigits(s) && DecimalValue(s) <= MaxInt64 ==> r == Some(DecimalValue(s))
    ensures |s| >= 2 && s[0] == '+' && AllDigits(s[1..]) && DecimalValue(s[1..]) <= MaxInt64 ==>
              r == Some(DecimalValue(s[1..]) as int)
    ensures |s| >= 2 && s[0] == '-' && AllDigits(s[1..]) && DecimalValue(s[1..]) <= -MinInt64 ==>
              r == Some(-(DecimalValue(s[1..]) as int))
  {
    if |s| == 0 then None
    else
      var signed := s[0] == '+' || s[0] == '-';
      var digits := if signed then s[1..] else s;
      if |digits| == 0 || !AllDigits(digits) then None
      else
        var v: int := DecimalValue(digits);
        var x: int := if signed && s[0] == '-' then -v else v;
        if x < MinInt64 || x > MaxInt64 then None else Some(x)
  }

  lemma AtoiOfNegative(n: nat)
    requires 0 < n <= -MinInt64
    ensures Atoi("-" + NatToString(n)) == Some(-(n as int))
  {
    var digits := NatToString(n);
    var s := "-" + digits;
    assert s[0] == '-' && s[1..] == digits;
    DecimalValueOfNatToString(n);
  }

  lemma AtoiOfNatural(n: nat)
    requires n <= MaxInt64
    ensures Atoi(NatToString(n)) == Some(n)
  {
    var s := NatToString(n);
    assert '0' <= s[0] <= '9';
    DecimalValueOfNatToString(n);
  }

  /** Atoi reads back what %d wrote, for every int64. */
  lemma AtoiIntToString(i: int)
    requires MinInt64 <= i <= MaxInt64
    ensures Atoi(IntToString(i)) == Some(i)
  {
    if i < 0 {
      AtoiOfNegative(-i);
    } else {
      AtoiOfNatural(i);
    }
  }

  /** strings.Compare: byte-wise lexicographic order, -1, 0 or +1. */
  function Compare(a: string, b: string): (r: int)
    ensures -1 <= r <= 1
    ensures r == 0 <==> a == b
  {
    if |a| == 0 then (if |b| == 0 then 0 else -1)
    else if |b| == 0 then 1
    else if a[0] < b[0] then -1
    else if a[0] > b[0] then 1
    else
      var r := Compare(a[1..], b[1..]);
      assert a == [a[0]] + a[1..] && b == [b[0]] + b[1..];
      r
  }

  lemma {:induction false} CompareAntisymmetric(a: string, b: string)
    ensures Compare(a, b) == -Compare(b, a)
  {
    if |a| > 0 && |b| > 0 && a[0] == b[0] {
      CompareAntisymmetric(a[1..], b[1..]);
    }
  }

  lemma {:induction false} CompareTransitive(a: string, b: string, c: string)
    requires Compare(a, b) <= 0 && Compare(b, c) <= 0
    ensures Compare(a, c) <= 0
  {
    if |a| > 0 && |b| > 0 && |c| > 0 && a[0] == b[0] == c[0] {
      CompareTransitive(a[1..], b[1..], c[1..]);
    }
  }
}
