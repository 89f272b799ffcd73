/**
 * The base-protocol framing that the language-server client uses on its
 * pipes (pkg/gopls/gopls.go, sendMessage and readMessage): a block of
 * `Name: value` header lines ended by a blank line, then exactly
 * Content-Length bytes of payload.
 *
 * Streams are byte sequences. Header lines are read as text one character
 * per byte, which is what Go's string conversion of the bytes gives for
 * the ASCII headers that occur.
 */
module Framing {
  import opened Wrappers
  import opened Text

  newtype byte = b: int | 0 <= b < 256

  type Bytes = seq<byte>

  const LF: byte := 10
  const CR: byte := 13

  /** The text of a byte string, one character per byte. */
  function Chars(b: Bytes): string {
    seq(|b|, i requires 0 <= i < |b| => b[i] as int as char)
  }

  predicate IsByteText(s: string) {
    forall i | 0 <= i < |s| :: s[i] as int < 256
  }

  /** The bytes of a text whose characters all fit in a byte. */
  function Encode(s: string): (b: Bytes)
    requires IsByteText(s)
    ensures |b| == |s|
    ensures forall i | 0 <= i < |s| :: b[i] as int == s[i] as int
  {
    seq(|s|, i requires 0 <= i < |s| => s[i] as int as byte)
  }

  lemma CharsEncode(s: string)
    requires IsByteText(s)
    ensures Chars(Encode(s)) == s
  {
  }

  lemma EncodeConcat(s: string, t: string)
    requires IsByteText(s) && IsByteText(t)
    ensures IsByteText(s + t) && Encode(s + t) == Encode(s) + Encode(t)
  {
  }

  datatype FrameError =
      /** The stream ended before a complete header line or before the payload. */
    | Eof
    | InvalidHeaderLine(line: string)
    | MissingContentLength
    | InvalidContentLength(value: string)
      /** A negative length, on which the original allocation panics. */
    | NegativeContentLength(length: int)

  /** bufio.Reader.ReadString('\n'): the next line with its newline, or None when no newline is left. */
  function NextLine(input: Bytes): (r: Option<(Bytes, Bytes)>)
    ensures r.None? <==> LF !in input
    ensures r.Some? ==> input == r.value.0 + r.value.1 && |r.value.0| >= 1 &&
                        r.value.0[|r.value.0| - 1] == LF && LF !in r.value.0[..|r.value.0| - 1]
  {
    match Cut(input, LF)
    case None => None
    case Some((line, rest)) =>
      assert (line + [LF])[..|line|] == line;
      Some((line + [LF], rest))
  }

  /**
   * One header line after trimming: None for the blank line that ends the
   * headers, otherwise the name and value on either side of the first colon,
   * each trimmed.
   */
  function HeaderLine(line: string): (r: Result<Option<(string, string)>, FrameError>)
    ensures r.Ok? && r.value.None? <==> TrimSpace(line) == ""
    ensures r.Err? <==> TrimSpace(line) != "" && ':' !in TrimSpace(line)
    ensures r.Err? ==> r.error == InvalidHeaderLine(TrimSpace(line))
  {
    var t := TrimSpace(line);
    if t == "" then Ok(None)
    else match Cut(t, ':')
      case None => Err(InvalidHeaderLine(t))
      case Some((name, value)) => Ok(Some((TrimSpace(name), TrimSpace(value))))
  }

  /** The name and value of a header line are the trimmed text before and after its first colon. */
  lemma HeaderLineParts(line: string)
    requires TrimSpace(line) != "" && ':' in TrimSpace(line)
    ensures var t := TrimSpace(line);
            var i := Index(t, ":");
            0 <= i < |t| && t[i] == ':' && ':' !in t[..i] &&
            HeaderLine(line) == Ok(Some((TrimSpace(t[..i]), TrimSpace(t[i + 1..]))))
  {
    var t := TrimSpace(line);
    var (name, value) := Cut(t, ':').value;
    IndexOfCut(name, ':', value);
    assert t[..|name|] == name && t[|name| + 1..] == value;
  }

  /**
   * The header loop of readMessage: lines are read until the blank one,
   * each later header overriding an earlier one of the same name. Returns
   * the outcome and the input left unread.
   */
  function ReadHeaders(input: Bytes, headers: map<string, string>): (r: (Result<map<string, string>, FrameError>, Bytes))
    ensures |r.1| <= |input|
    ensures r.0.Ok? ==> |r.1| < |input|
    decreases |input|
  {
    match NextLine(input)
    case None => (Err(Eof), [])
    case Some((line, rest)) =>
      match HeaderLine(Chars(line))
      case Err(e) => (Err(e), rest)
      case Ok(None) => (Ok(headers), rest)
      case Ok(Some((name, value))) =>
        var r := ReadHeaders(rest, headers[name := value]);
        r
  }

  /** A line as NextLine returns it: ending in its only line feed. */
  predicate IsLine(l: Bytes) {
    |l| >= 1 && l[|l| - 1] == LF && LF !in l[..|l| - 1]
  }

  /** Lines back to back. */
  function Lines(ls: seq<Bytes>): Bytes {
    if ls == [] then [] else ls[0] + Lines(ls[1..])
  }

  /**
   * The header map after the pairs are stored in order: each name maps to
   * the value of its last pair, names without a pair keep their value.
   */
  function Override(h: map<string, string>, pairs: seq<(string, string)>): map<string, string>
    decreases |pairs|
  {
    if pairs == [] then h else Override(h[pairs[0].0 := pairs[0].1], pairs[1..])
  }

  lemma {:induction false} OverrideLastWins(h: map<string, string>, pairs: seq<(string, string)>)
    ensures var r := Override(h, pairs);
            (forall n :: n in r <==> n in h || Named(pairs, n)) &&
            (forall i | 0 <= i < |pairs| && (forall j | i < j < |pairs| :: pairs[j].0 != pairs[i].0) ::
               r[pairs[i].0] == pairs[i].1) &&
            (forall n | n in h && !Named(pairs, n) :: r[n] == h[n])
    decreases |pairs|
  {
    if pairs != [] {
      var rest := pairs[1..];
      OverrideLastWins(h[pairs[0].0 := pairs[0].1], rest);
      assert forall j | 1 <= j < |pairs| :: rest[j - 1] == pairs[j];
      forall n ensures Named(pairs, n) <==> n == pairs[0].0 || Named(rest, n) {
        if Named(pairs, n) && n != pairs[0].0 {
          var i :| 0 <= i < |pairs| && pairs[i].0 == n;
          assert rest[i - 1].0 == n;
        }
        if Named(rest, n) {
          var i :| 0 <= i < |rest| && rest[i].0 == n;
          assert pairs[i + 1].0 == n;
        }
        if n == pairs[0].0 {
          assert pairs[0].0 == n;
        }
      }
    }
  }

  /** Some pair has the name `n`. */
  ghost predicate Named(pairs: seq<(string, string)>, n: string) {
    exists i | 0 <= i < |pairs| :: pairs[i].0 == n
  }

  /**
   * The header loop over well-formed header lines: at the blank line it
   * returns the map of their pairs, later names overriding earlier ones; at
   * a line without a colon it fails with that line, wherever it comes.
   */
  lemma {:induction false} ReadHeadersOfLines(ls: seq<Bytes>, pairs: seq<(string, string)>, last: Bytes,
                                              rest: Bytes, h: map<string, string>)
    requires |ls| == |pairs|
    requires forall i | 0 <= i < |ls| :: IsLine(ls[i]) && HeaderLine(Chars(ls[i])) == Ok(Some(pairs[i]))
    requires IsLine(last)
    ensures HeaderLine(Chars(last)) == Ok(None) ==>
              ReadHeaders(Lines(ls) + last + rest, h) == (Ok(Override(h, pairs)), rest)
    ensures HeaderLine(Chars(last)).Err? ==>
              ReadHeaders(Lines(ls) + last + rest, h) == (Err(HeaderLine(Chars(last)).error), rest)
    decreases |ls|
  {
    if ls == [] {
      assert Lines(ls) + last + rest == last + rest;
      ReadHeadersStep(last, rest, h);
    } else {
      var l, more := ls[0], Lines(ls[1..]);
      assert Lines(ls) == l + more;
      ConcatAssociative(l, more, last);
      ConcatAssociative(l, more + last, rest);
      ReadHeadersStep(l, more + last + rest, h);
      forall i | 0 <= i < |ls[1..]|
        ensures IsLine(ls[1..][i]) && HeaderLine(Chars(ls[1..][i])) == Ok(Some(pairs[1..][i]))
      {
        assert ls[1..][i] == ls[i + 1] && pairs[1..][i] == pairs[i + 1];
      }
      ReadHeadersOfLines(ls[1..], pairs[1..], last, rest, h[pairs[0].0 := pairs[0].1]);
    }
  }

  const ContentLengthName: string := "Content-Length"

  /**
   * readMessage after the header loop: the Content-Length header is
   * required, must parse as an int64 and be non-negative, and that many
   * bytes must follow.
   */
  function ReadBody(headers: map<string, string>, rest: Bytes): (r: (Result<Bytes, FrameError>, Bytes))
    ensures |r.1| <= |rest|
    ensures r.0.Ok? ==> |r.1| + |r.0.value| == |rest| && rest == r.0.value + r.1
    ensures r.0.Ok? <==> ContentLengthName in headers && Atoi(headers[ContentLengthName]).Some? &&
                         0 <= Atoi(headers[ContentLengthName]).value <= |rest|
    ensures r.0.Ok? ==> |r.0.value| == Atoi(headers[ContentLengthName]).value
    ensures ContentLengthName in headers && Atoi(headers[ContentLengthName]).Some? &&
            Atoi(headers[ContentLengthName]).value < 0 ==>
              r.0 == Err(NegativeContentLength(Atoi(headers[ContentLengthName]).value))
  {
    if ContentLengthName !in headers then (Err(MissingContentLength), rest)
    else
      var text := headers[ContentLengthName];
      match Atoi(text)
      case None => (Err(InvalidContentLength(text)), rest)
      case Some(n) =>
        if n < 0 then (Err(NegativeContentLength(n)), rest)
        else if |rest| < n then (Err(Eof), [])
        else
          assert rest == rest[..n] + rest[n..];
          (Ok(rest[..n]), rest[n..])
  }

  /** readMessage up to the decoding of the payload: the payload bytes and the input left unread. */
  function ReadFrame(input: Bytes): (r: (Result<Bytes, FrameError>, Bytes))
    ensures |r.1| <= |input|
    ensures r.0.Ok? ==> |r.1| + |r.0.value| < |input|
  {
    var (headers, rest) := ReadHeaders(input, map[]);
    if headers.Err? then (Err(headers.error), rest)
    else ReadBody(headers.value, rest)
  }

  /** What sendMessage writes before the decimal length. */
  const HeaderPrefix: string := "Content-Length: "

  lemma HeaderPrefixParts()
    ensures HeaderPrefix == ContentLengthName + [':'] + " "
    ensures IsByteText(HeaderPrefix) && '\n' !in HeaderPrefix && ':' !in ContentLengthName
    ensures !IsSpace(HeaderPrefix[0])
    ensures TrimSpace(ContentLengthName) == ContentLengthName
  {
    TrimSpaceTrailing(ContentLengthName, "");
    assert ContentLengthName + "" == ContentLengthName;
  }

  lemma DigitsText(digits: string)
    requires AllDigits(digits)
    ensures IsByteText(digits) && '\n' !in digits
    ensures forall i | 0 <= i < |digits| :: !IsSpace(digits[i])
  {
  }

  /** The header line sendMessage writes: `Content-Length: `, the length in decimal, CR LF. */
  function LengthLine(length: nat): (b: Bytes)
    ensures |b| >= 2 && b[|b| - 1] == LF
  {
    HeaderPrefixParts();
    DigitsText(NatToString(length));
    Encode(HeaderPrefix) + Encode(NatToString(length)) + [CR, LF]
  }

  /** sendMessage: the length line, an empty line, then exactly the payload bytes. */
  function Frame(payload: Bytes): (b: Bytes)
    ensures |b| > |payload| && b[|b| - |payload|..] == payload
  {
    var h := LengthLine(|payload|) + [CR, LF];
    assert (h + payload)[|h|..] == payload;
    h + payload
  }

  lemma CharsConcat(a: Bytes, b: Bytes)
    ensures Chars(a + b) == Chars(a) + Chars(b)
  {
  }

  lemma NoNewlineByte(s: string)
    requires IsByteText(s) && '\n' !in s
    ensures LF !in Encode(s)
  {
  }

  /** A space followed by digits trims to the digits. */
  lemma TrimmedDigits(digits: string)
    requires |digits| >= 1 && AllDigits(digits)
    ensures TrimSpace(" " + digits) == digits
  {
    var s := " " + digits;
    var first, last := digits[0], digits[|digits| - 1];
    assert '0' <= first <= '9' && '0' <= last <= '9';
    assert !IsSpace(first) && !IsSpace(last);
    assert IsSpace(s[0]) && s[1..] == digits;
    assert TrimLeftSpace(digits) == digits;
    assert TrimLeftSpace(s) == TrimLeftSpace(digits);
    assert TrimRightSpace(digits) == digits;
  }

  /** The header line a frame starts with reads back as the pair (Content-Length, digits). */
  lemma ContentLengthLine(digits: string)
    requires |digits| >= 1 && AllDigits(digits)
    ensures HeaderLine(HeaderPrefix + digits + "\r\n") == Ok(Some((ContentLengthName, digits)))
  {
    HeaderPrefixParts();
    DigitsText(digits);
    var t := HeaderPrefix + digits;
    assert t[0] == HeaderPrefix[0];
    assert t[|t| - 1] == digits[|digits| - 1];
    TrimSpaceTrailing(t, "\r\n");
    assert t == ContentLengthName + [':'] + (" " + digits);
    CutOf(ContentLengthName, ':', " " + digits);
    TrimmedDigits(digits);
  }

  /** A blank line ends the headers. */
  lemma BlankLine()
    ensures HeaderLine(Chars([CR, LF])) == Ok(None)
  {
    var s := Chars([CR, LF]);
    assert s == "\r\n";
    AllSpaceTrimsLeft(s);
  }

  /** The header loop on a whole line: that line's verdict, then the rest. */
  lemma ReadHeadersStep(l: Bytes, tail: Bytes, h: map<string, string>)
    requires IsLine(l)
    ensures var v := HeaderLine(Chars(l));
            ReadHeaders(l + tail, h) ==
              if v.Err? then (Err(v.error), tail)
              else if v.value.None? then (Ok(h), tail)
              else ReadHeaders(tail, h[v.value.value.0 := v.value.value.1])
  {
    NextLineOfLine(l, tail);
  }

  /** A whole line is read as it is. */
  lemma NextLineOfLine(l: Bytes, tail: Bytes)
    requires IsLine(l)
    ensures NextLine(l + tail) == Some((l, tail))
  {
    var body := l[..|l| - 1];
    assert l == body + [LF];
    NextLineOf(body, tail);
  }

  /** A line is read up to and including the first line feed. */
  lemma NextLineOf(line: Bytes, rest: Bytes)
    requires LF !in line
    ensures NextLine(line + [LF] + rest) == Some((line + [LF], rest))
  {
    CutOf(line, LF, rest);
  }

  /** The first line of a frame is its length line. */
  lemma FirstLineOfFrame(payload: Bytes, rest: Bytes)
    ensures NextLine(Frame(payload) + rest) == Some((LengthLine(|payload|), [CR, LF] + payload + rest))
  {
    var digits := NatToString(|payload|);
    HeaderPrefixParts();
    DigitsText(digits);
    var p, d := Encode(HeaderPrefix), Encode(digits);
    NoNewlineByte(HeaderPrefix);
    NoNewlineByte(digits);
    var a := p + d + [CR];
    assert LF !in a;
    var tail := [CR, LF] + payload + rest;
    assert Frame(payload) + rest == a + [LF] + tail;
    NextLineOf(a, tail);
    assert a + [LF] == LengthLine(|payload|);
  }

  /** Its text, one character per byte. */
  lemma LengthLineText(length: nat)
    ensures Chars(LengthLine(length)) == HeaderPrefix + NatToString(length) + "\r\n"
  {
    var digits := NatToString(length);
    HeaderPrefixParts();
    DigitsText(digits);
    var p, d := Encode(HeaderPrefix), Encode(digits);
    CharsConcat(p + d, [CR, LF]);
    CharsConcat(p, d);
    CharsEncode(HeaderPrefix);
    CharsEncode(digits);
    assert Chars([CR, LF]) == "\r\n";
  }

  /** The second line of a frame is blank. */
  lemma SecondLineOfFrame(tail: Bytes)
    ensures NextLine([CR, LF] + tail) == Some(([CR, LF], tail))
  {
    assert [CR, LF] + tail == [CR] + [LF] + tail;
    NextLineOf([CR], tail);
    assert [CR] + [LF] == [CR, LF];
  }

  /**
   * Round trip: reading a frame that sendMessage wrote gives back exactly
   * its payload, and leaves exactly the bytes that followed it.
   */
  lemma ReadFrameOfFrame(payload: Bytes, rest: Bytes)
    requires |payload| <= MaxInt64
    ensures ReadFrame(Frame(payload) + rest) == (Ok(payload), rest)
  {
    var digits := NatToString(|payload|);
    var input := Frame(payload) + rest;
    var tail := payload + rest;
    FirstLineOfFrame(payload, rest);
    LengthLineText(|payload|);
    ContentLengthLine(digits);
    assert [CR, LF] + payload + rest == [CR, LF] + tail;
    SecondLineOfFrame(tail);
    BlankLine();
    var headers := map[ContentLengthName := digits];
    assert ReadHeaders([CR, LF] + tail, headers) == (Ok(headers), tail);
    assert ReadHeaders(input, map[]) == (Ok(headers), tail);
    AtoiIntToString(|payload|);
    assert tail[..|payload|] == payload;
    assert tail[|payload|..] == rest;
  }

  /** Frames written one after another read back one after another. */
  lemma ReadFrames(first: Bytes, second: Bytes, rest: Bytes)
    requires |first| <= MaxInt64 && |second| <= MaxInt64
    ensures ReadFrame(Frame(first) + Frame(second) + rest) == (Ok(first), Frame(second) + rest)
    ensures ReadFrame(ReadFrame(Frame(first) + Frame(second) + rest).1) == (Ok(second), rest)
  {
    assert Frame(first) + Frame(second) + rest == Frame(first) + (Frame(second) + rest);
    ReadFrameOfFrame(first, Frame(second) + rest);
    ReadFrameOfFrame(second, rest);
  }

  /** A header line without a colon is refused, after any number of well-formed ones. */
  lemma HeaderWithoutColon(ls: seq<Bytes>, pairs: seq<(string, string)>, last: Bytes, rest: Bytes)
    requires |ls| == |pairs|
    requires forall i | 0 <= i < |ls| :: IsLine(ls[i]) && HeaderLine(Chars(ls[i])) == Ok(Some(pairs[i]))
    requires IsLine(last)
    requires var t := TrimSpace(Chars(last)); t != "" && ':' !in t
    ensures ReadFrame(Lines(ls) + last + rest) == (Err(InvalidHeaderLine(TrimSpace(Chars(last)))), rest)
  {
    ReadHeadersOfLines(ls, pairs, last, rest, map[]);
  }

  /** Well-formed header lines and a blank line: the body is read with the headers they give. */
  lemma ReadFrameOfLines(ls: seq<Bytes>, pairs: seq<(string, string)>, last: Bytes, rest: Bytes)
    requires |ls| == |pairs|
    requires forall i | 0 <= i < |ls| :: IsLine(ls[i]) && HeaderLine(Chars(ls[i])) == Ok(Some(pairs[i]))
    requires IsLine(last) && TrimSpace(Chars(last)) == ""
    ensures ReadFrame(Lines(ls) + last + rest) == ReadBody(Override(map[], pairs), rest)
  {
    ReadHeadersOfLines(ls, pairs, last, rest, map[]);
  }

  /** Headers without Content-Length, or with a non-numeric one, are refused. */
  lemma ContentLengthRequired(input: Bytes)
    requires ReadHeaders(input, map[]).0.Ok?
    ensures ContentLengthName !in ReadHeaders(input, map[]).0.value ==> ReadFrame(input).0 == Err(MissingContentLength)
    ensures ContentLengthName in ReadHeaders(input, map[]).0.value &&
            Atoi(ReadHeaders(input, map[]).0.value[ContentLengthName]).None? ==>
            ReadFrame(input).0 == Err(InvalidContentLength(ReadHeaders(input, map[]).0.value[ContentLengthName]))
  {
  }
}
