/**
 * Model of the orchestrator (pkg/plsdo/plsdo.go): the match entries it
 * accumulates from definitions and their references, their stable sort by
 * file and line, and the grouped listing PrettyPrint writes.
 */
module Plsdo {
  import opened Wrappers
  import opened Text
  import opened Ast
  import opened Gopls
  import opened Framing

  // ---------------------------------------------------------------------
  // Entries

  /** One reference to a matched function, with the function that encloses it. */
  datatype MatchEntry = MatchEntry(filename: string, line: int, encRecvType: string, encRecvName: string,
                                   encFuncName: string, orgSource: string, prettySource: string)
  {
    /** fmtEnc: the enclosing function as `(name type) f(...)`, `(type) f(...)` or `f(...)`. */
    function FmtEnc(): (r: string)
      ensures encRecvType == "" ==> r == encFuncName + "(...)"
      ensures encRecvType != "" && encRecvName == "" ==> r == "(" + encRecvType + ") " + encFuncName + "(...)"
      ensures encRecvType != "" && encRecvName != "" ==>
                r == "(" + encRecvName + " " + encRecvType + ") " + encFuncName + "(...)"
    {
      if encRecvType != "" then
        if encRecvName != "" then "(" + encRecvName + " " + encRecvType + ") " + encFuncName + "(...)"
        else "(" + encRecvType + ") " + encFuncName + "(...)"
      else encFuncName + "(...)"
    }
  }

  /** fmtEnc renders an enclosing function the way Match.MethodName renders a definition. */
  lemma FmtEncAgreesWithMethodName(e: MatchEntry, pkg: string, filename: string, line: int, col: int)
    ensures e.FmtEnc() == Match(pkg, e.encRecvType, e.encRecvName, e.encFuncName, filename, line, col).MethodName()
  {
  }

  /** The header always ends in `(...)`, so it is never empty. */
  lemma FmtEncEndsWithEllipsis(e: MatchEntry)
    ensures |e.FmtEnc()| >= 5 && e.FmtEnc()[|e.FmtEnc()| - 5..] == "(...)"
  {
  }

  /** Two entries with the same enclosing function have the same header. */
  lemma FmtEncOfFunction(e: MatchEntry, f: MatchEntry)
    requires e.encRecvType == f.encRecvType && e.encRecvName == f.encRecvName && e.encFuncName == f.encFuncName
    ensures e.FmtEnc() == f.FmtEnc()
  {
  }

  // ---------------------------------------------------------------------
  // The sort

  /** The comparator of sort: file names byte-wise, then line numbers. */
  function CompareEntries(a: MatchEntry, b: MatchEntry): (r: int)
    ensures -1 <= r <= 1
    ensures r == 0 <==> a.filename == b.filename && a.line == b.line
    ensures a.filename != b.filename ==> r == Compare(a.filename, b.filename)
    ensures a.filename == b.filename ==> (r < 0 <==> a.line < b.line) && (r > 0 <==> a.line > b.line)
  {
    var v := Compare(a.filename, b.filename);
    if v != 0 then v
    else if a.line < b.line then -1
    else if a.line > b.line then 1
    else 0
  }

  lemma CompareEntriesAntisymmetric(a: MatchEntry, b: MatchEntry)
    ensures CompareEntries(a, b) == -CompareEntries(b, a)
  {
    CompareAntisymmetric(a.filename, b.filename);
  }

  lemma CompareEntriesTransitive(a: MatchEntry, b: MatchEntry, c: MatchEntry)
    requires CompareEntries(a, b) <= 0 && CompareEntries(b, c) <= 0
    ensures CompareEntries(a, c) <= 0
  {
    CompareTransitive(a.filename, b.filename, c.filename);
    CompareAntisymmetric(a.filename, c.filename);
    if a.filename == c.filename && a.filename != b.filename {
      CompareAntisymmetric(a.filename, b.filename);
    }
  }

  /** Ordered by (filename, line). */
  predicate Sorted(s: seq<MatchEntry>) {
    forall i, j | 0 <= i < j < |s| :: CompareEntries(s[i], s[j]) <= 0
  }

  /** The entries of `s` with the same key as `k`, in their order in `s`. */
  function SameKey(s: seq<MatchEntry>, k: MatchEntry): (r: seq<MatchEntry>)
    ensures |r| <= |s|
  {
    if s == [] then []
    else (if CompareEntries(s[0], k) == 0 then [s[0]] else []) + SameKey(s[1..], k)
  }

  /** Places `x` before the first entry that does not sort strictly before it. */
  function Insert(x: MatchEntry, t: seq<MatchEntry>): (r: seq<MatchEntry>)
    ensures multiset(r) == multiset([x] + t)
  {
    if t == [] || CompareEntries(x, t[0]) <= 0 then [x] + t
    else
      assert [x] + t == [x] + [t[0]] + t[1..] && t == [t[0]] + t[1..];
      [t[0]] + Insert(x, t[1..])
  }

  /** slices.SortStableFunc with the comparator of sort, as an insertion sort. */
  function SortEntries(s: seq<MatchEntry>): (r: seq<MatchEntry>)
    ensures multiset(r) == multiset(s)
  {
    if s == [] then []
    else
      assert s == [s[0]] + s[1..];
      Insert(s[0], SortEntries(s[1..]))
  }

  /** An entry that sorts no later than the head of a sorted sequence can go in front of it. */
  lemma ConsSorted(x: MatchEntry, t: seq<MatchEntry>)
    requires Sorted(t)
    requires t != [] ==> CompareEntries(x, t[0]) <= 0
    ensures Sorted([x] + t)
  {
    var r := [x] + t;
    forall i, j | 0 <= i < j < |r|
      ensures CompareEntries(r[i], r[j]) <= 0
    {
      if i == 0 && j > 1 {
        CompareEntriesTransitive(x, t[0], t[j - 1]);
      }
    }
  }

  lemma {:induction false} InsertSorted(x: MatchEntry, t: seq<MatchEntry>)
    requires Sorted(t)
    ensures Sorted(Insert(x, t))
  {
    if t == [] || CompareEntries(x, t[0]) <= 0 {
      ConsSorted(x, t);
    } else {
      var rest := Insert(x, t[1..]);
      InsertSorted(x, t[1..]);
      CompareEntriesAntisymmetric(x, t[0]);
      assert rest != [] && (rest[0] == x || rest[0] in t[1..]) by {
        assert rest[0] in multiset([x] + t[1..]);
      }
      ConsSorted(t[0], rest);
    }
  }

  lemma {:induction false} SortEntriesSorted(s: seq<MatchEntry>)
    ensures Sorted(SortEntries(s))
  {
    if s != [] {
      SortEntriesSorted(s[1..]);
      InsertSorted(s[0], SortEntries(s[1..]));
    }
  }

  /** Inserting keeps the relative order of the entries that share a key. */
  lemma SameKeyCons(e: MatchEntry, s: seq<MatchEntry>, k: MatchEntry)
    ensures SameKey([e] + s, k) == (if CompareEntries(e, k) == 0 then [e] else []) + SameKey(s, k)
  {
    assert ([e] + s)[1..] == s;
  }

  lemma {:induction false} InsertSameKey(x: MatchEntry, t: seq<MatchEntry>, k: MatchEntry)
    ensures SameKey(Insert(x, t), k) == SameKey([x] + t, k)
  {
    if t != [] && CompareEntries(x, t[0]) > 0 {
      var t0, u := t[0], t[1..];
      InsertSameKey(x, u, k);
      assert t == [t0] + u;
      assert Insert(x, t) == [t0] + Insert(x, u);
      SameKeyCons(t0, Insert(x, u), k);
      SameKeyCons(x, u, k);
      SameKeyCons(x, t, k);
      SameKeyCons(t0, u, k);
      var fx := if CompareEntries(x, k) == 0 then [x] else [];
      var f0 := if CompareEntries(t0, k) == 0 then [t0] else [];
      assert fx == [] || f0 == [];
      if fx == [] {
        assert SameKey([x] + u, k) == SameKey(u, k);
        assert SameKey([x] + t, k) == SameKey(t, k);
      } else {
        assert SameKey([t0] + u, k) == SameKey(u, k);
        assert SameKey(Insert(x, t), k) == SameKey(Insert(x, u), k);
      }
    }
  }

  /** Stability: among entries with one key, the sorted order is the original order. */
  lemma {:induction false} SortEntriesStable(s: seq<MatchEntry>, k: MatchEntry)
    ensures SameKey(SortEntries(s), k) == SameKey(s, k)
  {
    if s != [] {
      SortEntriesStable(s[1..], k);
      InsertSameKey(s[0], SortEntries(s[1..]), k);
      assert ([s[0]] + SortEntries(s[1..]))[1..] == SortEntries(s[1..]);
    }
  }

  lemma SortedTail(s: seq<MatchEntry>)
    requires Sorted(s) && s != []
    ensures Sorted(s[1..])
    ensures |s| > 1 ==> CompareEntries(s[0], s[1]) <= 0
  {
    var t := s[1..];
    forall i, j | 0 <= i < j < |t|
      ensures CompareEntries(t[i], t[j]) <= 0
    {
      assert t[i] == s[i + 1] && t[j] == s[j + 1];
    }
  }

  /** A sorted sequence is left as it is. */
  lemma {:induction false} SortEntriesOfSorted(s: seq<MatchEntry>)
    requires Sorted(s)
    ensures SortEntries(s) == s
  {
    if s != [] {
      var t := s[1..];
      SortedTail(s);
      SortEntriesOfSorted(t);
      assert SortEntries(s) == Insert(s[0], t);
      assert s == [s[0]] + t;
    }
  }

  /** Sorting twice is sorting once. */
  lemma SortEntriesIdempotent(s: seq<MatchEntry>)
    ensures SortEntries(SortEntries(s)) == SortEntries(s)
  {
    SortEntriesSorted(s);
    SortEntriesOfSorted(SortEntries(s));
  }

  // ---------------------------------------------------------------------
  // PrettyPrint

  /** fmt's %5d: the decimal text right-aligned in five columns. */
  function PadLeft(s: string, width: nat): (r: string)
    ensures |r| == if |s| >= width then |s| else width
    ensures r[|r| - |s|..] == s
    ensures forall k | 0 <= k < |r| - |s| :: r[k] == ' '
  {
    if |s| >= width then s else seq(width - |s|, _ => ' ') + s
  }

  /** One line of the listing: `%5d  %s` and a newline. */
  function NumberedLine(number: int, line: string): string {
    PadLeft(IntToString(number), 5) + "  " + line + "\n"
  }

  /** Lines rendered one by one by `number`, the first with number `first`, the next with first + 1. */
  function Listing(number: (int, string) -> string, lines: seq<string>, first: int): string {
    if lines == [] then ""
    else number(first, lines[0]) + Listing(number, lines[1..], first + 1)
  }

  /** The numbered listing of one entry's lines, the first numbered `first`. */
  function NumberedLines(lines: seq<string>, first: int): string {
    Listing(NumberedLine, lines, first)
  }

  lemma {:induction false} ListingConcat(number: (int, string) -> string, a: seq<string>, b: seq<string>, first: int)
    ensures Listing(number, a + b, first) == Listing(number, a, first) + Listing(number, b, first + |a|)
  {
    if a == [] {
      assert a + b == b;
    } else {
      ListingConcat(number, a[1..], b, first + 1);
      assert (a + b)[1..] == a[1..] + b;
    }
  }

  /** Numbering runs on across a split of the lines: the k-th line is numbered first + k. */
  lemma NumberedLinesConcat(a: seq<string>, b: seq<string>, first: int)
    ensures NumberedLines(a + b, first) == NumberedLines(a, first) + NumberedLines(b, first + |a|)
  {
    ListingConcat(NumberedLine, a, b, first);
  }

  /** A single line is numbered with the number given. */
  lemma NumberedLinesSingle(line: string, number: int)
    ensures NumberedLines([line], number) == PadLeft(IntToString(number), 5) + "  " + line + "\n"
  {
    assert [line][1..] == [];
    assert NumberedLines([line], number) == NumberedLine(number, line) + Listing(NumberedLine, [], number + 1);
  }

  lemma ListingSnoc(number: (int, string) -> string, lines: seq<string>, k: nat, first: int)
    requires k < |lines|
    ensures Listing(number, lines[..k + 1], first) == Listing(number, lines[..k], first) + number(first + k, lines[k])
  {
    assert lines[..k + 1] == lines[..k] + [lines[k]];
    ListingConcat(number, lines[..k], [lines[k]], first);
    assert [lines[k]][1..] == [];
  }

  /** The listing grows one numbered line at a time. */
  lemma NumberedLinesSnoc(lines: seq<string>, k: nat, first: int)
    requires k < |lines|
    ensures NumberedLines(lines[..k + 1], first) == NumberedLines(lines[..k], first) + NumberedLine(first + k, lines[k])
  {
    ListingSnoc(NumberedLine, lines, k, first);
  }

  /**
   * The lines printed for an entry: its pretty source, or the highlighted
   * text when a colour style is chosen and highlighting succeeds.
   */
  function SourceLines(e: MatchEntry, style: string, highlight: (string, string) -> Option<string>): seq<string> {
    if style != "" && style != "none" && highlight(style, e.prettySource).Some? then
      Split(highlight(style, e.prettySource).value, '\n')
    else Split(e.prettySource, '\n')
  }

  /** The file header, printed when the file name differs from the previous entry's. */
  function FileHeader(e: MatchEntry, lastFilename: string): string {
    if e.filename != lastFilename then "\n+++ " + e.filename + ":" + IntToString(e.line) + "\n" else ""
  }

  /** The enclosing-function header, or `...` when it is the one last printed. */
  function EncHeader(enc: string, lastEnc: string): string {
    if lastEnc != enc then "\n" + enc + "\n" else "...\n"
  }

  /** The file name of the previous entry, "" before the first. */
  function LastFilename(prev: Option<MatchEntry>): string {
    if prev.Some? then prev.value.filename else ""
  }

  /** The header last printed: the previous entry's, unless a new file reset it. */
  function LastEnc(e: MatchEntry, prev: Option<MatchEntry>): string {
    if prev.Some? && prev.value.filename == e.filename then prev.value.FmtEnc() else ""
  }

  /** What one loop iteration of PrettyPrint writes for `e`, after the entry `prev`. */
  function Block(e: MatchEntry, prev: Option<MatchEntry>, style: string,
                 highlight: (string, string) -> Option<string>): (r: string)
    ensures var lines := NumberedLines(SourceLines(e, style, highlight), e.line);
            |r| >= |lines| && r[|r| - |lines|..] == lines
    ensures e.filename != LastFilename(prev) ==> HasPrefix(r, "\n+++ " + e.filename + ":")
  {
    var head := FileHeader(e, LastFilename(prev)) + EncHeader(e.FmtEnc(), LastEnc(e, prev));
    var lines := NumberedLines(SourceLines(e, style, highlight), e.line);
    assert (head + lines)[|head|..] == lines;
    assert e.filename != LastFilename(prev) ==> (head + lines)[..|"\n+++ " + e.filename + ":"|] == "\n+++ " + e.filename + ":";
    head + lines
  }

  /** Blocks written one entry after another, each given the entry before it. */
  function Chain(block: (MatchEntry, Option<MatchEntry>) -> string, es: seq<MatchEntry>, prev: Option<MatchEntry>)
    : string
  {
    if es == [] then ""
    else block(es[0], prev) + Chain(block, es[1..], Some(es[0]))
  }

  lemma {:induction false} ChainConcat(block: (MatchEntry, Option<MatchEntry>) -> string, a: seq<MatchEntry>,
                                       b: seq<MatchEntry>, prev: Option<MatchEntry>)
    requires a != []
    ensures Chain(block, a + b, prev) == Chain(block, a, prev) + Chain(block, b, Some(a[|a| - 1]))
  {
    assert (a + b)[0] == a[0] && (a + b)[1..] == a[1..] + b;
    if |a| == 1 {
      assert a[1..] + b == b;
    } else {
      ChainConcat(block, a[1..], b, Some(a[0]));
      assert a[1..][|a[1..]| - 1] == a[|a| - 1];
      ConcatAssociative(block(a[0], prev), Chain(block, a[1..], Some(a[0])), Chain(block, b, Some(a[|a| - 1])));
    }
  }

  /** The blocks of PrettyPrint for one style. */
  function Blocks(style: string, highlight: (string, string) -> Option<string>)
    : (MatchEntry, Option<MatchEntry>) -> string
  {
    (e, prev) => Block(e, prev, style, highlight)
  }

  /** PrettyPrint's listing of entries already sorted. */
  function Render(es: seq<MatchEntry>, style: string, highlight: (string, string) -> Option<string>): (r: string)
    ensures es == [] ==> r == ""
    ensures es != [] ==> HasPrefix(r, Block(es[0], None, style, highlight))
  {
    var r := Chain(Blocks(style, highlight), es, None);
    if es == [] then r
    else
      var first := Block(es[0], None, style, highlight);
      assert r == first + Chain(Blocks(style, highlight), es[1..], Some(es[0]));
      assert r[..|first|] == first;
      r
  }

  /** Each block depends only on its entry and the entry before it. */
  lemma RenderConcat(a: seq<MatchEntry>, b: seq<MatchEntry>, style: string,
                     highlight: (string, string) -> Option<string>)
    requires a != []
    ensures Render(a + b, style, highlight) ==
            Render(a, style, highlight) + Chain(Blocks(style, highlight), b, Some(a[|a| - 1]))
  {
    ChainConcat(Blocks(style, highlight), a, b, None);
  }

  /** A new file: its header, then always the enclosing header (fmtEnc is never empty). */
  lemma NewFileBlock(e: MatchEntry, prev: Option<MatchEntry>, style: string,
                     highlight: (string, string) -> Option<string>)
    requires e.filename != LastFilename(prev)
    ensures Block(e, prev, style, highlight) ==
            ("\n+++ " + e.filename + ":" + IntToString(e.line) + "\n") + ("\n" + e.FmtEnc() + "\n") +
            NumberedLines(SourceLines(e, style, highlight), e.line)
  {
    FmtEncEndsWithEllipsis(e);
  }

  /** The same file and the same enclosing function as the entry before: just `...` and the lines. */
  lemma SameFunctionBlock(e: MatchEntry, prev: MatchEntry, style: string,
                          highlight: (string, string) -> Option<string>)
    requires prev.filename == e.filename && prev.FmtEnc() == e.FmtEnc()
    ensures Block(e, Some(prev), style, highlight) == "...\n" + NumberedLines(SourceLines(e, style, highlight), e.line)
  {
    assert FileHeader(e, LastFilename(Some(prev))) == "";
    assert EncHeader(e.FmtEnc(), LastEnc(e, Some(prev))) == "...\n";
    assert "" + "...\n" == "...\n";
  }

  /** The same file, another enclosing function: its header, without a file header. */
  lemma NewFunctionBlock(e: MatchEntry, prev: MatchEntry, style: string,
                         highlight: (string, string) -> Option<string>)
    requires prev.filename == e.filename && prev.FmtEnc() != e.FmtEnc()
    ensures Block(e, Some(prev), style, highlight) ==
            "\n" + e.FmtEnc() + "\n" + NumberedLines(SourceLines(e, style, highlight), e.line)
  {
    var enc := e.FmtEnc();
    assert FileHeader(e, LastFilename(Some(prev))) == "";
    assert EncHeader(enc, LastEnc(e, Some(prev))) == "\n" + enc + "\n";
    assert "" + ("\n" + enc + "\n") == "\n" + enc + "\n";
  }

  /** Without colour the lines are the pretty source split at newlines. */
  lemma PlainSourceLines(e: MatchEntry, highlight: (string, string) -> Option<string>)
    ensures SourceLines(e, "none", highlight) == SourceLines(e, "", highlight) == Split(e.prettySource, '\n')
  {
  }


  /** Blocks chained one after another grow one block at a time. */
  lemma ChainSnoc(block: (MatchEntry, Option<MatchEntry>) -> string, es: seq<MatchEntry>, i: nat)
    requires i < |es|
    ensures Chain(block, es[..i + 1], None) ==
            Chain(block, es[..i], None) + block(es[i], if i == 0 then None else Some(es[i - 1]))
  {
    assert [es[i]][1..] == [];
    if i == 0 {
      assert es[..1] == [es[0]];
    } else {
      assert es[..i + 1] == es[..i] + [es[i]];
      ChainConcat(block, es[..i], [es[i]], None);
    }
  }

  /** The listing grows one block at a time, each after the entry before it. */
  lemma RenderSnoc(es: seq<MatchEntry>, i: nat, style: string, highlight: (string, string) -> Option<string>)
    requires i < |es|
    ensures Render(es[..i + 1], style, highlight) ==
            Render(es[..i], style, highlight) + Blocks(style, highlight)(es[i], if i == 0 then None else Some(es[i - 1]))
  {
    ChainSnoc(Blocks(style, highlight), es, i);
  }

  // ---------------------------------------------------------------------
  // FindFuncReferences

  /** In the order of the references, the entries each yields, up to the first error. */
  function Gather<L, E, X>(entry: L -> Result<Option<E>, X>, locs: seq<L>): (r: (Outcome<X>, seq<E>))
    ensures |r.1| <= |locs|
  {
    if locs == [] then (Pass, [])
    else
      var (o, es) := Gather(entry, locs[..|locs| - 1]);
      if o.Fail? then (o, es)
      else match entry(locs[|locs| - 1])
        case Err(e) => (Fail(e), es)
        case Ok(None) => (Pass, es)
        case Ok(Some(x)) => (Pass, es + [x])
  }

  lemma {:induction false} GatherStopped<L, E, X>(entry: L -> Result<Option<E>, X>, locs: seq<L>, i: nat)
    requires i <= |locs|
    requires Gather(entry, locs[..i]).0.Fail?
    ensures Gather(entry, locs) == Gather(entry, locs[..i])
    decreases |locs| - i
  {
    if i < |locs| {
      assert locs[..i + 1][..i] == locs[..i];
      GatherStopped(entry, locs, i + 1);
    } else {
      assert locs[..i] == locs;
    }
  }

  /** One more location, after a prefix that gathered without failing. */
  lemma GatherNext<L, E, X>(entry: L -> Result<Option<E>, X>, locs: seq<L>, j: nat, found: seq<E>)
    requires j < |locs| && Gather(entry, locs[..j]) == (Pass, found)
    ensures Gather(entry, locs[..j + 1]) ==
            match entry(locs[j])
            case Err(e) => (Fail(e), found)
            case Ok(None) => (Pass, found)
            case Ok(Some(x)) => (Pass, found + [x])
  {
    assert locs[..j + 1][..j] == locs[..j];
  }

  /** Gathering a concatenation: the first part, then, unless it failed, the second. */
  lemma {:induction false} GatherConcat<L, E, X>(entry: L -> Result<Option<E>, X>, a: seq<L>, b: seq<L>)
    ensures Gather(entry, a + b) ==
            if Gather(entry, a).0.Fail? then Gather(entry, a)
            else (Gather(entry, b).0, Gather(entry, a).1 + Gather(entry, b).1)
    decreases |b|
  {
    if b == [] {
      assert a + b == a;
      assert Gather(entry, a).1 + [] == Gather(entry, a).1;
    } else {
      var init := b[..|b| - 1];
      assert (a + b)[..|a + b| - 1] == a + init && (a + b)[|a + b| - 1] == b[|b| - 1];
      GatherConcat(entry, a, init);
      var last := entry(b[|b| - 1]);
      if !Gather(entry, a).0.Fail? && !Gather(entry, init).0.Fail? && last.Ok? && last.value.Some? {
        ConcatAssociative(Gather(entry, a).1, Gather(entry, init).1, [last.value.value]);
      }
    }
  }

  /** Gathering fails exactly when some reference's entry is an error. */
  lemma {:induction false} GatherFails<L, E, X>(entry: L -> Result<Option<E>, X>, locs: seq<L>)
    ensures Gather(entry, locs).0.Fail? <==> exists i | 0 <= i < |locs| :: entry(locs[i]).Err?
  {
    if locs != [] {
      var init := locs[..|locs| - 1];
      GatherFails(entry, init);
      var last := |locs| - 1;
      if entry(locs[last]).Err? {
        assert 0 <= last < |locs| && entry(locs[last]).Err?;
      }
      if exists i | 0 <= i < |init| :: entry(init[i]).Err? {
        var i :| 0 <= i < |init| && entry(init[i]).Err?;
        assert locs[i] == init[i];
      }
      if exists i | 0 <= i < |locs| :: entry(locs[i]).Err? {
        var i :| 0 <= i < |locs| && entry(locs[i]).Err?;
        if i < |init| {
          assert init[i] == locs[i];
        }
      }
    }
  }

  /** Every entry gathered is the entry of one of the references. */
  lemma {:induction false} GatherFrom<L, E, X>(entry: L -> Result<Option<E>, X>, locs: seq<L>)
    ensures forall k | 0 <= k < |Gather(entry, locs).1| ::
              exists i | 0 <= i < |locs| :: entry(locs[i]) == Ok(Some(Gather(entry, locs).1[k]))
  {
    if locs != [] {
      var init := locs[..|locs| - 1];
      GatherFrom(entry, init);
      var es := Gather(entry, locs).1;
      var before := Gather(entry, init).1;
      var last := entry(locs[|locs| - 1]);
      var grows := Gather(entry, init).0.Pass? && last.Ok? && last.value.Some?;
      assert grows ==> es == before + [last.value.value];
      assert !grows ==> es == before;
      forall k | 0 <= k < |es|
        ensures exists i | 0 <= i < |locs| :: entry(locs[i]) == Ok(Some(es[k]))
      {
        if k < |before| {
          assert es[k] == before[k];
          var i :| 0 <= i < |init| && entry(init[i]) == Ok(Some(before[k]));
          assert locs[i] == init[i];
          assert 0 <= i < |locs| && entry(locs[i]) == Ok(Some(es[k]));
        } else {
          var j := |locs| - 1;
          assert 0 <= j < |locs| && entry(locs[j]) == Ok(Some(es[k]));
        }
      }
    } else {
      assert Gather(entry, locs).1 == [];
    }
  }

  /** A reference that yields no entry and no error contributes nothing, wherever it is. */
  lemma GatherSkips<L, E, X>(entry: L -> Result<Option<E>, X>, a: seq<L>, loc: L, b: seq<L>)
    requires entry(loc) == Ok(None)
    ensures Gather(entry, a + [loc] + b) == Gather(entry, a + b)
  {
    GatherConcat(entry, a, [loc]);
    assert [loc][..0] == [];
    GatherConcat(entry, a + [loc], b);
    GatherConcat(entry, a, b);
  }

  /**
   * For each definition, the references a step finds (threading the step's
   * state), then the entries gathered from them, up to the first error.
   */
  function Sweep<D, L, E, X, S>(step: (S, D) -> (Result<seq<L>, X>, S), entry: L -> Result<Option<E>, X>,
                                defs: seq<D>, s: S): (r: (Outcome<X>, seq<E>, S))
    ensures defs == [] ==> r == (Pass, [], s)
  {
    if defs == [] then (Pass, [], s)
    else
      var (o, es, s1) := Sweep(step, entry, defs[..|defs| - 1], s);
      if o.Fail? then (o, es, s1)
      else
        var (locs, s2) := step(s1, defs[|defs| - 1]);
        if locs.Err? then (Fail(locs.error), es, s2)
        else
          var (o2, es2) := Gather(entry, locs.value);
          (o2, es + es2, s2)
  }

  lemma {:induction false} SweepStopped<D, L, E, X, S>(step: (S, D) -> (Result<seq<L>, X>, S),
                                                       entry: L -> Result<Option<E>, X>,
                                                       defs: seq<D>, s: S, i: nat)
    requires i <= |defs|
    requires Sweep(step, entry, defs[..i], s).0.Fail?
    ensures Sweep(step, entry, defs, s) == Sweep(step, entry, defs[..i], s)
    decreases |defs| - i
  {
    if i < |defs| {
      assert defs[..i + 1][..i] == defs[..i];
      SweepStopped(step, entry, defs, s, i + 1);
    } else {
      assert defs[..i] == defs;
    }
  }

  /** Every entry swept is one an entry function gave for some reference. */
  lemma {:induction false} SweepFrom<D, L, E, X, S>(step: (S, D) -> (Result<seq<L>, X>, S),
                                                    entry: L -> Result<Option<E>, X>,
                                                    defs: seq<D>, s: S, P: E -> bool)
    requires forall l :: entry(l).Ok? && entry(l).value.Some? ==> P(entry(l).value.value)
    ensures forall k | 0 <= k < |Sweep(step, entry, defs, s).1| :: P(Sweep(step, entry, defs, s).1[k])
  {
    if defs != [] {
      var init := defs[..|defs| - 1];
      SweepFrom(step, entry, init, s, P);
      var (o, es, s1) := Sweep(step, entry, init, s);
      if o.Pass? && step(s1, defs[|defs| - 1]).0.Ok? {
        var locs := step(s1, defs[|defs| - 1]).0.value;
        GatherFrom(entry, locs);
        var es2 := Gather(entry, locs).1;
        forall k | 0 <= k < |es2|
          ensures P(es2[k])
        {
          var i :| 0 <= i < |locs| && entry(locs[i]) == Ok(Some(es2[k]));
        }
      }
    }
  }

  /** The references the step returns for the i-th definition, from the state the sweep reached before it. */
  function StepRefs<D, L, E, X, S>(step: (S, D) -> (Result<seq<L>, X>, S), entry: L -> Result<Option<E>, X>,
                                   defs: seq<D>, s: S, i: nat): Result<seq<L>, X>
    requires i < |defs|
  {
    step(Sweep(step, entry, defs[..i], s).2, defs[i]).0
  }

  /** `R` relates `e` to one of the references that a step of the sweep returned. */
  ghost predicate FromStep<D, L, E, X, S>(step: (S, D) -> (Result<seq<L>, X>, S), entry: L -> Result<Option<E>, X>,
                                          defs: seq<D>, s: S, R: (L, E) -> bool, e: E)
  {
    exists i, j | 0 <= i < |defs| && StepRefs(step, entry, defs, s, i).Ok? &&
                  0 <= j < |StepRefs(step, entry, defs, s, i).value| ::
      R(StepRefs(step, entry, defs, s, i).value[j], e)
  }

  /** A reference returned while sweeping a prefix of the definitions was returned while sweeping them all. */
  lemma FromStepPrefix<D, L, E, X, S>(step: (S, D) -> (Result<seq<L>, X>, S), entry: L -> Result<Option<E>, X>,
                                      defs: seq<D>, s: S, R: (L, E) -> bool, n: nat, e: E)
    requires n <= |defs| && FromStep(step, entry, defs[..n], s, R, e)
    ensures FromStep(step, entry, defs, s, R, e)
  {
    var init := defs[..n];
    var i, j :| 0 <= i < |init| && StepRefs(step, entry, init, s, i).Ok? &&
                0 <= j < |StepRefs(step, entry, init, s, i).value| &&
                R(StepRefs(step, entry, init, s, i).value[j], e);
    assert defs[..i] == init[..i] && defs[i] == init[i];
    assert StepRefs(step, entry, defs, s, i) == StepRefs(step, entry, init, s, i);
  }

  /**
   * Whatever `R` holds between a reference and the entry built from it
   * holds between every entry swept and one of the references that a step
   * of the sweep returned.
   */
  lemma {:induction false} SweepFromRefs<D, L, E, X, S>(step: (S, D) -> (Result<seq<L>, X>, S),
                                                        entry: L -> Result<Option<E>, X>, defs: seq<D>, s: S,
                                                        R: (L, E) -> bool)
    requires forall l | entry(l).Ok? && entry(l).value.Some? :: R(l, entry(l).value.value)
    ensures forall k | 0 <= k < |Sweep(step, entry, defs, s).1| ::
              FromStep(step, entry, defs, s, R, Sweep(step, entry, defs, s).1[k])
  {
    if defs != [] {
      var n := |defs| - 1;
      var init := defs[..n];
      var o, before, s1 := Sweep(step, entry, init, s).0, Sweep(step, entry, init, s).1, Sweep(step, entry, init, s).2;
      var es := Sweep(step, entry, defs, s).1;
      var grows := o.Pass? && step(s1, defs[n]).0.Ok?;
      var added := if grows then Gather(entry, step(s1, defs[n]).0.value).1 else [];
      assert es == before + added;
      forall k | 0 <= k < |es| ensures FromStep(step, entry, defs, s, R, es[k]) {
        if k < |before| {
          assert es[k] == before[k];
          SweepFromRefs(step, entry, init, s, R);
          assert FromStep(step, entry, init, s, R, before[k]);
          FromStepPrefix(step, entry, defs, s, R, n, before[k]);
        } else {
          var locs := step(s1, defs[n]).0.value;
          assert StepRefs(step, entry, defs, s, n) == Ok(locs);
          GatherFrom(entry, locs);
          var x := added[k - |before|];
          var j :| 0 <= j < |locs| && entry(locs[j]) == Ok(Some(x));
          assert R(locs[j], x);
          assert es[k] == x;
          assert StepRefs(step, entry, defs, s, n).value[j] == locs[j];
        }
      }
    }
  }

  datatype PlsdoError = AstFailed(astCause: AstError) | GoplsFailed(goplsCause: GoplsError)

  /**
   * What FindFuncReferences reads besides the client: the files and their
   * parses, the packages, the pretty-printer, and the working directory
   * that filepath.Abs(".") gives.
   */
  datatype Env = Env(disk: map<string, Option<SourceFile>>, packages: map<string, Package>,
                     reprint: string -> Option<string>, pwd: string)

  /** The client's state: the last id handed out, the server's unread output, what was written to it. */
  datatype Session = Session(lastSeq: int, input: Bytes, output: Bytes)

  /** The entry built from a reference and what the analyzer reports at its start. */
  ghost predicate EntryFrom(env: Env, loc: Location, e: MatchEntry) {
    e.filename == loc.filename && e.line == loc.startLine &&
    EnclosingIn(env.disk, loc.filename, loc.startLine, loc.startCharacter) ==
      Ok(Enclosing(e.encFuncName, e.encRecvType, e.encRecvName)) &&
    CallIn(env.disk, loc.filename, loc.startLine, loc.startCharacter) == Ok(e.orgSource) &&
    e.prettySource == Format(env.reprint, e.orgSource)
  }

  /** One reference: skipped outside the workspace, else its entry or the analyzer's error. */
  function EntryFor(env: Env, loc: Location): (r: Result<Option<MatchEntry>, PlsdoError>)
    ensures !HasPrefix(loc.filename, env.pwd) <==> r == Ok(None)
    ensures r.Ok? && r.value.Some? ==> EntryFrom(env, loc, r.value.value)
    ensures r.Err? <==> HasPrefix(loc.filename, env.pwd) &&
                        (EnclosingIn(env.disk, loc.filename, loc.startLine, loc.startCharacter).Err? ||
                         CallIn(env.disk, loc.filename, loc.startLine, loc.startCharacter).Err?)
  {
    if !HasPrefix(loc.filename, env.pwd) then Ok(None)
    else match EnclosingIn(env.disk, loc.filename, loc.startLine, loc.startCharacter)
      case Err(e) => Err(AstFailed(e))
      case Ok(enc) =>
        match CallIn(env.disk, loc.filename, loc.startLine, loc.startCharacter)
        case Err(e) => Err(AstFailed(e))
        case Ok(src) =>
          Ok(Some(MatchEntry(loc.filename, loc.startLine, enc.recvType, enc.recvName, enc.funcName,
                             src, Format(env.reprint, src))))
  }

  /** Inside the workspace, the entry built for a reference is exactly the one that fits what the analyzer reports. */
  lemma EntryForIsEntryFrom(env: Env, loc: Location, e: MatchEntry)
    ensures EntryFor(env, loc) == Ok(Some(e)) <==> HasPrefix(loc.filename, env.pwd) && EntryFrom(env, loc, e)
  {
  }

  /** The entry function of one workspace. */
  function Entries(env: Env): Location -> Result<Option<MatchEntry>, PlsdoError> {
    loc => EntryFor(env, loc)
  }

  /** The request frame for the references of `def`, with id `id`. */
  function RequestFrame(codec: Codec, id: int, def: Match): Bytes {
    Frame(codec.encode(ReferencesRequest(id, def.filename, def.offsetLine, def.offsetCol)))
  }

  /** One references request: the next id, the request written, replies read up to its own. */
  function ReferencesStep(codec: Codec, s: Session, def: Match): (r: (Result<seq<Location>, PlsdoError>, Session))
    ensures r.1.lastSeq == s.lastSeq + 1 && r.1.output == s.output + RequestFrame(codec, s.lastSeq + 1, def)
  {
    var id := s.lastSeq + 1;
    var (found, rest) := ReferencesReply(codec, s.input, id);
    (if found.Err? then Err(GoplsFailed(found.error)) else Ok(found.value),
     Session(id, rest, s.output + RequestFrame(codec, id, def)))
  }

  /** The references steps of one client. */
  function Steps(codec: Codec): (Session, Match) -> (Result<seq<Location>, PlsdoError>, Session) {
    (s, def) => ReferencesStep(codec, s, def)
  }

  /** FindFuncReferences: the definitions, then for each the entries of its references. */
  function Collected(env: Env, codec: Codec, pkgName: string, patterns: seq<string>, s: Session)
    : (r: (Outcome<PlsdoError>, seq<MatchEntry>, Session))
    ensures Definitions(env.disk, env.packages, pkgName, patterns).Err? ==>
              r == (Fail(AstFailed(Definitions(env.disk, env.packages, pkgName, patterns).error)), [], s)
  {
    match Definitions(env.disk, env.packages, pkgName, patterns)
    case Err(e) => (Fail(AstFailed(e)), [], s)
    case Ok(defs) => Sweep(Steps(codec), Entries(env), defs, s)
  }

  /** Collection fails exactly when the analyzer fails on some reference inside the workspace. */
  lemma CollectEntriesFails(env: Env, locs: seq<Location>)
    ensures Gather(Entries(env), locs).0.Fail? <==>
            exists i | 0 <= i < |locs| ::
              HasPrefix(locs[i].filename, env.pwd) &&
              (EnclosingIn(env.disk, locs[i].filename, locs[i].startLine, locs[i].startCharacter).Err? ||
               CallIn(env.disk, locs[i].filename, locs[i].startLine, locs[i].startCharacter).Err?)
  {
    GatherFails(Entries(env), locs);
  }

  /** A reference outside the workspace contributes nothing, wherever it is. */
  lemma OutsideWorkspaceSkipped(env: Env, a: seq<Location>, loc: Location, b: seq<Location>)
    requires !HasPrefix(loc.filename, env.pwd)
    ensures Gather(Entries(env), a + [loc] + b) == Gather(Entries(env), a + b)
  {
    GatherSkips(Entries(env), a, loc, b);
  }

  /** The entry lies in the workspace and is built from the reference as the analyzer reports it. */
  ghost function BuiltFrom(env: Env): (Location, MatchEntry) -> bool {
    (loc: Location, e: MatchEntry) => HasPrefix(e.filename, env.pwd) && EntryFrom(env, loc, e)
  }

  /** What an entry of the workspace is built from. */
  lemma EntriesBuiltFrom(env: Env, loc: Location, e: MatchEntry)
    requires Entries(env)(loc) == Ok(Some(e))
    ensures BuiltFrom(env)(loc, e)
  {
    EntryForIsEntryFrom(env, loc, e);
  }

  /**
   * Every entry collected lies in the workspace and is built, as the
   * analyzer reports it, from one of the references that a references step
   * of the run returned for one of the definitions.
   */
  lemma CollectedInWorkspace(env: Env, codec: Codec, pkgName: string, patterns: seq<string>, s: Session)
    requires Definitions(env.disk, env.packages, pkgName, patterns).Ok?
    ensures var defs := Definitions(env.disk, env.packages, pkgName, patterns).value;
            var es := Collected(env, codec, pkgName, patterns, s).1;
            forall k | 0 <= k < |es| :: FromStep(Steps(codec), Entries(env), defs, s, BuiltFrom(env), es[k])
  {
    var defs := Definitions(env.disk, env.packages, pkgName, patterns).value;
    assert Collected(env, codec, pkgName, patterns, s) == Sweep(Steps(codec), Entries(env), defs, s);
    forall l | Entries(env)(l).Ok? && Entries(env)(l).value.Some?
      ensures BuiltFrom(env)(l, Entries(env)(l).value.value)
    {
      EntriesBuiltFrom(env, l, Entries(env)(l).value.value);
    }
    SweepFromRefs(Steps(codec), Entries(env), defs, s, BuiltFrom(env));
  }

  /** What a run emits for each definition, the k-th with number first + k. */
  function Emits<D, B>(emit: (int, D) -> seq<B>, defs: seq<D>, first: int): seq<B> {
    if defs == [] then []
    else Emits(emit, defs[..|defs| - 1], first) + emit(first + |defs| - 1, defs[|defs| - 1])
  }

  /**
   * A step that takes the next id and writes what it emits under that id:
   * a sweep takes one id per definition it handled, all of them unless it
   * failed, and its output has grown by their emissions in order.
   */
  lemma {:induction false} SweepLog<D, L, E, X>(step: (Session, D) -> (Result<seq<L>, X>, Session),
                                                entry: L -> Result<Option<E>, X>, defs: seq<D>, s: Session,
                                                emit: (int, D) -> Bytes)
    requires forall s1, d :: step(s1, d).1.lastSeq == s1.lastSeq + 1 &&
                             step(s1, d).1.output == s1.output + emit(s1.lastSeq + 1, d)
    ensures var s2 := Sweep(step, entry, defs, s).2;
            s.lastSeq <= s2.lastSeq <= s.lastSeq + |defs| &&
            s2.output == s.output + Emits(emit, defs[..s2.lastSeq - s.lastSeq], s.lastSeq + 1)
    ensures Sweep(step, entry, defs, s).0.Pass? ==> Sweep(step, entry, defs, s).2.lastSeq == s.lastSeq + |defs|
  {
    if defs == [] {
      assert s.output + [] == s.output;
    } else {
      var init := defs[..|defs| - 1];
      SweepLog(step, entry, init, s, emit);
      var (o, es, s1) := Sweep(step, entry, init, s);
      var n := s1.lastSeq - s.lastSeq;
      assert defs[..n] == init[..n];
      if o.Pass? {
        assert n == |init| && init[..n] == init;
        assert defs[..n + 1][..n] == init && defs[..n + 1] == defs;
        ConcatAssociative(s.output, Emits(emit, init, s.lastSeq + 1), emit(s1.lastSeq + 1, defs[|defs| - 1]));
      }
    }
  }

  /** The request frame of each definition, by id. */
  function RequestFrames(codec: Codec): (int, Match) -> Bytes {
    (id, def) => RequestFrame(codec, id, def)
  }

  /**
   * The references step takes the next id and writes its request under
   * that id, so SweepLog applies to it: a run of FindFuncReferences that
   * succeeds sends one request per definition, in order, with the ids
   * counting up, and one that fails has sent those of the definitions it
   * reached.
   */
  lemma StepAdvances(codec: Codec, s: Session, def: Match)
    ensures Steps(codec)(s, def).1.lastSeq == s.lastSeq + 1 &&
            Steps(codec)(s, def).1.output == s.output + RequestFrames(codec)(s.lastSeq + 1, def)
  {
    var s2 := ReferencesStep(codec, s, def).1;
    assert s2.lastSeq == s.lastSeq + 1 && s2.output == s.output + RequestFrame(codec, s.lastSeq + 1, def);
  }

  /** One more definition: its step, then the entries of what it found, if the sweep has not failed. */
  lemma SweepNext<D, L, E, X, S>(step: (S, D) -> (Result<seq<L>, X>, S), entry: L -> Result<Option<E>, X>,
                                 defs: seq<D>, s: S, i: nat)
    requires i < |defs|
    requires Sweep(step, entry, defs[..i], s).0.Pass?
    ensures var (_, es, s1) := Sweep(step, entry, defs[..i], s);
            var (locs, s2) := step(s1, defs[i]);
            Sweep(step, entry, defs[..i + 1], s) ==
              if locs.Err? then (Fail(locs.error), es, s2)
              else (Gather(entry, locs.value).0, es + Gather(entry, locs.value).1, s2)
  {
    assert defs[..i + 1][..i] == defs[..i];
  }

  lemma StepOfCall(codec: Codec, s: Session, def: Match, found: Result<seq<Location>, GoplsError>, s2: Session)
    requires s2.lastSeq == s.lastSeq + 1
    requires s2.output == s.output + Frame(codec.encode(ReferencesRequest(s2.lastSeq, def.filename, def.offsetLine, def.offsetCol)))
    requires (found, s2.input) == ReferencesReply(codec, s.input, s2.lastSeq)
    ensures ReferencesStep(codec, s, def) == (if found.Err? then Err(GoplsFailed(found.error)) else Ok(found.value), s2)
  {
  }

  /** FindReferences on one definition, as the step of the sweep. */
  method FindReferencesOf(client: Client, def: Match) returns (r: Result<seq<Location>, PlsdoError>)
    modifies client
    ensures (r, Session(client.lastSeq, client.input, client.output)) ==
            ReferencesStep(client.codec, Session(old(client.lastSeq), old(client.input), old(client.output)), def)
  {
    ghost var s := Session(client.lastSeq, client.input, client.output);
    var found := client.FindReferences(def.filename, def.offsetLine, def.offsetCol);
    StepOfCall(client.codec, s, def, found, Session(client.lastSeq, client.input, client.output));
    r := if found.Err? then Err(GoplsFailed(found.error)) else Ok(found.value);
  }

  // ---------------------------------------------------------------------
  // The matcher

  /** Matcher: the entries found so far, and the client that finds references. */
  class Matcher {
    var refs: seq<MatchEntry>
    var pls: Client?
    const disk: map<string, Option<SourceFile>>
    const packages: map<string, Package>
    const reprint: string -> Option<string>

    constructor(pls: Client, disk: map<string, Option<SourceFile>>, packages: map<string, Package>,
                reprint: string -> Option<string>)
      ensures refs == [] && this.pls == pls
      ensures this.disk == disk && this.packages == packages && this.reprint == reprint
    {
      refs := [];
      this.pls := pls;
      this.disk := disk;
      this.packages := packages;
      this.reprint := reprint;
    }

    /** The loop over the references of one definition. */
    method AddEntries(ap: ASTProcessor, pwd: string, locs: seq<Location>) returns (r: Outcome<PlsdoError>)
      requires ap.Valid() && ap.disk == disk
      modifies this, ap
      ensures ap.Valid() && pls == old(pls)
      ensures var (o, added) := Gather(Entries(Env(disk, packages, reprint, pwd)), locs);
              r == o && refs == old(refs) + added
    {
      ghost var entry := Entries(Env(disk, packages, reprint, pwd));
      ghost var added: seq<MatchEntry> := [];
      for j := 0 to |locs|
        invariant ap.Valid() && pls == old(pls)
        invariant Gather(entry, locs[..j]) == (Pass, added)
        invariant refs == old(refs) + added
      {
        var loc := locs[j];
        GatherNext(entry, locs, j, added);
        if !HasPrefix(loc.filename, pwd) {
          continue;
        }
        var enc := ap.GetEnclosingFunctionName(loc.filename, loc.startLine, loc.startCharacter);
        if enc.Err? {
          GatherStopped(entry, locs, j + 1);
          return Fail(AstFailed(enc.error));
        }
        var src := ap.ExtractFullCall(loc.filename, loc.startLine, loc.startCharacter);
        if src.Err? {
          GatherStopped(entry, locs, j + 1);
          return Fail(AstFailed(src.error));
        }
        var me := MatchEntry(loc.filename, loc.startLine, enc.value.recvType, enc.value.recvName,
                             enc.value.funcName, src.value, Format(reprint, src.value));
        refs := refs + [me];
        added := added + [me];
      }
      assert locs[..|locs|] == locs;
      return Pass;
    }

    /** FindFuncReferences, in the workspace `pwd`. */
    method FindFuncReferences(pwd: string, pkgName: string, patterns: seq<string>) returns (r: Outcome<PlsdoError>)
      requires pls != null
      modifies this, pls
      ensures pls == old(pls)
      ensures var (o, added, s) := Collected(Env(disk, packages, reprint, pwd), pls.codec, pkgName, patterns,
                                             Session(old(pls.lastSeq), old(pls.input), old(pls.output)));
              r == o && refs == old(refs) + added &&
              pls.lastSeq == s.lastSeq && pls.input == s.input && pls.output == s.output
    {
      var ap := new ASTProcessor(disk, packages);
      var defs := ap.FindFuncDefinitions(pkgName, patterns);
      if defs.Err? {
        return Fail(AstFailed(defs.error));
      }
      r := AddReferences(ap, pwd, defs.value);
    }

    /** The loop over the definitions, each sent to the client for its references. */
    method AddReferences(ap: ASTProcessor, pwd: string, ds: seq<Match>) returns (r: Outcome<PlsdoError>)
      requires pls != null && ap.Valid() && ap.disk == disk
      modifies this, pls, ap
      ensures pls == old(pls)
      ensures var (o, added, s) := Sweep(Steps(pls.codec), Entries(Env(disk, packages, reprint, pwd)), ds,
                                         Session(old(pls.lastSeq), old(pls.input), old(pls.output)));
              r == o && refs == old(refs) + added &&
              pls.lastSeq == s.lastSeq && pls.input == s.input && pls.output == s.output
    {
      ghost var entry := Entries(Env(disk, packages, reprint, pwd));
      ghost var s0 := Session(pls.lastSeq, pls.input, pls.output);
      ghost var added: seq<MatchEntry> := [];
      var client := pls;
      ghost var step := Steps(client.codec);
      for i := 0 to |ds|
        invariant ap.Valid() && pls == client
        invariant Sweep(step, entry, ds[..i], s0) == (Pass, added, Session(client.lastSeq, client.input, client.output))
        invariant refs == old(refs) + added
      {
        SweepNext(step, entry, ds, s0, i);
        var found := FindReferencesOf(client, ds[i]);
        if found.Err? {
          SweepStopped(step, entry, ds, s0, i + 1);
          return Fail(found.error);
        }
        ghost var before := refs;
        var o := AddEntries(ap, pwd, found.value);
        ConcatAssociative(old(refs), added, Gather(entry, found.value).1);
        assert refs == before + Gather(entry, found.value).1;
        added := added + Gather(entry, found.value).1;
        if o.Fail? {
          SweepStopped(step, entry, ds, s0, i + 1);
          return o;
        }
      }
      assert ds[..|ds|] == ds;
      return Pass;
    }

    /** sort: stable, by file name and then line. */
    method Sort()
      modifies this
      ensures refs == SortEntries(old(refs)) && pls == old(pls)
      ensures Sorted(refs) && multiset(refs) == multiset(old(refs))
    {
      SortEntriesSorted(refs);
      refs := SortEntries(refs);
    }

    /** PrettyPrint: sort, then write each entry under its file and enclosing headers. */
    method PrettyPrint(style: string, highlight: (string, string) -> Option<string>) returns (out: string)
      modifies this
      ensures refs == SortEntries(old(refs)) && pls == old(pls)
      ensures out == Render(refs, style, highlight)
    {
      Sort();
      out := WriteAll(refs, style, highlight);
    }

    /** Close: close the client if there is one, and drop it. */
    method Close()
      modifies this, pls
      ensures pls == null && refs == old(refs)
      ensures old(pls) != null ==>
                old(pls).lastSeq == old(pls.lastSeq) + 1 &&
                HasPrefix(old(pls).output, old(pls.output) + Frame(old(pls).codec.encode(ShutdownRequest(old(pls.lastSeq) + 1))))
    {
      if pls != null {
        var _ := pls.Close();
      }
      pls := null;
    }
  }

  /** PrettyPrint's loop over the sorted entries, remembering the last file and enclosing header. */
  method WriteAll(sorted: seq<MatchEntry>, style: string, highlight: (string, string) -> Option<string>)
    returns (out: string)
    ensures out == Render(sorted, style, highlight)
  {
    var lastFilename := "";
    var lastEnc := "";
    out := "";
    for i := 0 to |sorted|
      invariant lastFilename == LastFilename(if i == 0 then None else Some(sorted[i - 1]))
      invariant lastEnc == if i == 0 then "" else sorted[i - 1].FmtEnc()
      invariant out == Render(sorted[..i], style, highlight)
    {
      ghost var prev := if i == 0 then None else Some(sorted[i - 1]);
      var block;
      block, lastFilename, lastEnc := WriteEntry(sorted[i], prev, lastFilename, lastEnc, style, highlight);
      RenderSnoc(sorted, i, style, highlight);
      out := out + block;
    }
    assert sorted[..|sorted|] == sorted;
  }

  /** One iteration of PrettyPrint's loop: the headers that are due, then the numbered lines. */
  method WriteEntry(ref: MatchEntry, ghost prev: Option<MatchEntry>, lastFilename: string, lastEnc: string,
                    style: string, highlight: (string, string) -> Option<string>)
    returns (out: string, newFilename: string, newEnc: string)
    requires lastFilename == LastFilename(prev)
    requires lastEnc == if prev.Some? then prev.value.FmtEnc() else ""
    ensures out == Block(ref, prev, style, highlight)
    ensures newFilename == ref.filename && newEnc == ref.FmtEnc()
  {
    var header, enc := WriteHeaders(ref, prev, lastFilename, lastEnc);
    var formattedLines := Split(ref.prettySource, '\n');
    if style != "" && style != "none" {
      var colored := highlight(style, ref.prettySource);
      if colored.Some? {
        formattedLines := Split(colored.value, '\n');
      }
    }
    var lines := WriteLines(formattedLines, ref.line);
    out := header + lines;
    newFilename, newEnc := ref.filename, enc;
  }

  /** The file header when the file changes, and the enclosing header or `...`. */
  method WriteHeaders(ref: MatchEntry, ghost prev: Option<MatchEntry>, lastFilename: string, lastEnc: string)
    returns (out: string, enc: string)
    requires lastFilename == LastFilename(prev)
    requires lastEnc == if prev.Some? then prev.value.FmtEnc() else ""
    ensures out == FileHeader(ref, LastFilename(prev)) + EncHeader(ref.FmtEnc(), LastEnc(ref, prev))
    ensures enc == ref.FmtEnc()
  {
    var last := lastEnc;
    out := "";
    if ref.filename != lastFilename {
      out := "\n+++ " + ref.filename + ":" + IntToString(ref.line) + "\n";
      last := "";
    }
    enc := ref.FmtEnc();
    if last != enc {
      out := out + ("\n" + enc + "\n");
    } else {
      out := out + "...\n";
    }
  }

  /** The loop printing each line with its number. */
  method WriteLines(lines: seq<string>, first: int) returns (out: string)
    ensures out == NumberedLines(lines, first)
  {
    out := "";
    for k := 0 to |lines|
      invariant out == NumberedLines(lines[..k], first)
    {
      NumberedLinesSnoc(lines, k, first);
      out := out + NumberedLine(first + k, lines[k]);
    }
    assert lines[..|lines|] == lines;
  }

  /**
   * NewMatcher, with the server's output and the codec standing for the
   * started gopls process and `abs` for filepath.Abs: a client rooted at the
   * absolute form of ".", initialized.
   */
  method NewMatcher(abs: string -> Option<string>, serverOutput: Bytes, codec: Codec,
                    disk: map<string, Option<SourceFile>>, packages: map<string, Package>,
                    reprint: string -> Option<string>)
    returns (r: Result<Matcher, GoplsError>)
    ensures abs(".").None? ==> r == Err(AbsFailed("."))
    ensures abs(".").Some? ==> (r.Err? <==> ReceiveMessage(codec, serverOutput).0.Err?)
    ensures r.Ok? ==> fresh(r.value) && r.value.refs == [] && r.value.pls != null && abs(".").Some? &&
                      r.value.disk == disk && r.value.packages == packages && r.value.reprint == reprint &&
                      r.value.pls.lastSeq == 1 && r.value.pls.codec == codec &&
                      r.value.pls.input == ReceiveMessage(codec, serverOutput).1 &&
                      r.value.pls.output == Frame(codec.encode(InitializeRequest(1, abs(".").value))) +
                                            Frame(codec.encode(InitializedNotification)) +
                                            Frame(codec.encode(DidChangeConfigurationNotification))
  {
    var pls := NewClient(".", abs, serverOutput, codec);
    if pls.Err? {
      return Err(pls.error);
    }
    var m := new Matcher(pls.value, disk, packages, reprint);
    return Ok(m);
  }
}
