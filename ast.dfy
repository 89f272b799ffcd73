/**
 * Model of the syntax-tree analyzer (pkg/ast/ast.go): the parse cache, the
 * pattern matcher and definition scan, the stringifiers, line/column to
 * offset conversion, and the two positional searches over a parsed file.
 *
 * A parsed file is given as data (`SourceFile`): its text, the offsets at
 * which its lines start, its top-level declarations and its syntax tree.
 * Reading from disk and running Go's parser are replaced by the constant
 * `disk` of an `ASTProcessor`, which says for each path whether it can be
 * read and parsed and, if so, what the parse produced.
 */
module Ast {
  import opened Wrappers
  import opened Text
  import Glob

  // ---------------------------------------------------------------------
  // Syntax

  /** The type expressions that exprToString distinguishes. */
  datatype Expr =
    | Ident(name: string)
    | StarExpr(x: Expr)
    | SelectorExpr(x: Expr, sel: string)
    | IndexExpr(x: Expr, index: Expr)
    | IndexListExpr(x: Expr, indices: seq<Expr>)
    | ArrayType(elt: Expr)
    | MapType(key: Expr, value: Expr)
    | FuncType
    | InterfaceType
    | StructType
      /** Any other expression; exprToString prints its Go type name (`%T`). */
    | OtherExpr(goType: string)

  /** One field of a parameter or receiver list: its names and its type. */
  datatype Field = Field(names: seq<string>, typ: Expr)

  /**
   * A function or method declaration. `namePos` is the offset of the name
   * identifier; `recv` is None for a plain function (a nil receiver list).
   */
  datatype FuncDecl = FuncDecl(name: string, namePos: int, recv: Option<seq<Field>>)

  /** A top-level declaration: a function/method, or anything else. */
  datatype Decl = FuncDeclaration(fn: FuncDecl) | GenDecl

  datatype NodeKind = CallExpr | FuncDeclNode(decl: FuncDecl) | FuncLit | OtherNode

  /** A syntax-tree node with its [pos, end] span (offsets) and its children in source order. */
  datatype Node = Node(kind: NodeKind, pos: int, end: int, children: seq<Node>)

  /** A parsed file: its text, the offset of each line start, its declarations and its tree. */
  datatype SourceFile = SourceFile(src: string, lineStarts: seq<int>, decls: seq<Decl>, root: Node)

  /** What go/build reports for an import path: its directory and its Go files. */
  datatype Package = Package(dir: string, goFiles: seq<string>)

  datatype AstError =
    | ReadError(path: string)
    | ParseError(path: string)
    | ResolutionError(pkgPath: string)
    | InvalidPosition
    | NoCallExpression
    | InvalidCallPositions

  /** A function definition found by FindFuncDefinitions. */
  datatype Match = Match(pkg: string, recvType: string, recvName: string, funcName: string,
                         filename: string, offsetLine: int, offsetCol: int)
  {
    /** Match.MethodName: `(name type) f(...)`, `(type) f(...)` or `f(...)`. */
    function MethodName(): (r: string)
      ensures recvType == "" ==> r == funcName + "(...)"
      ensures recvType != "" && recvName == "" ==> r == "(" + recvType + ") " + funcName + "(...)"
      ensures recvType != "" && recvName != "" ==> r == "(" + recvName + " " + recvType + ") " + funcName + "(...)"
    {
      if recvType != "" then
        if recvName != "" then "(" + recvName + " " + recvType + ") " + funcName + "(...)"
        else "(" + recvType + ") " + funcName + "(...)"
      else funcName + "(...)"
    }
  }

  // ---------------------------------------------------------------------
  // Stringifiers

  /** exprToString: Go's spelling of each type form. */
  function ExprToString(e: Expr): string {
    match e
    case Ident(name) => name
    case StarExpr(x) => "*" + ExprToString(x)
    case SelectorExpr(x, sel) => ExprToString(x) + "." + sel
    case IndexExpr(x, index) => ExprToString(x) + "[" + ExprToString(index) + "]"
    case IndexListExpr(x, indices) =>
      ExprToString(x) + "[" + Join(seq(|indices|, k requires 0 <= k < |indices| => ExprToString(indices[k])), ", ") + "]"
    case ArrayType(elt) => "[]" + ExprToString(elt)
    case MapType(key, value) => "map[" + ExprToString(key) + "]" + ExprToString(value)
    case FuncType => "func"
    case InterfaceType => "interface"
    case StructType => "struct"
    case OtherExpr(goType) => goType
  }

  /** Each composite type form is recognisable by how its text starts or ends. */
  lemma ExprToStringForms(e: Expr)
    ensures var r := ExprToString(e);
            (e.StarExpr? ==> HasPrefix(r, "*")) &&
            (e.ArrayType? ==> HasPrefix(r, "[]")) &&
            (e.MapType? ==> HasPrefix(r, "map[")) &&
            (e.SelectorExpr? ==> |r| > |e.sel| && r[|r| - |e.sel| - 1..] == "." + e.sel) &&
            (e.IndexExpr? || e.IndexListExpr? ==> |r| >= 2 && r[|r| - 1] == ']')
  {
    var r := ExprToString(e);
    match e
    case StarExpr(x) => assert r[..1] == "*";
    case ArrayType(x) => assert r[..2] == "[]";
    case MapType(k, v) => assert r == "map[" + ExprToString(k) + "]" + ExprToString(v) && r[..4] == "map[";
    case SelectorExpr(x, sel) => assert r == ExprToString(x) + ("." + sel);
    case _ =>
  }

  /** A pointer type prints as `*` followed by its element type, which TrimPrefix takes off again. */
  lemma PointerPrefixStripped(x: Expr)
    ensures HasPrefix(ExprToString(StarExpr(x)), "*")
    ensures TrimPrefix(ExprToString(StarExpr(x)), "*") == ExprToString(x)
  {
    assert ("*" + ExprToString(x))[..1] == "*";
  }

  /**
   * extractRecvType: the receiver's type and first name, but only when the
   * receiver list has exactly one field; ("", "") otherwise.
   */
  function ExtractRecvType(d: FuncDecl): (r: (string, string))
    ensures (d.recv.None? || |d.recv.value| != 1) ==> r == ("", "")
    ensures d.recv.Some? && |d.recv.value| == 1 ==>
      r.0 == ExprToString(d.recv.value[0].typ) &&
      r.1 == (if |d.recv.value[0].names| > 0 then d.recv.value[0].names[0] else "")
  {
    match d.recv
    case None => ("", "")
    case Some(list) =>
      if |list| != 1 then ("", "")
      else (ExprToString(list[0].typ), if |list[0].names| > 0 then list[0].names[0] else "")
  }

  /** Format: the printer's rendering of a snippet, or the snippet itself when it does not parse. */
  function Format(reprint: string -> Option<string>, source: string): (r: string)
    ensures reprint(source).None? ==> r == source
    ensures reprint(source).Some? ==> r == reprint(source).value
  {
    match reprint(source)
    case None => source
    case Some(pretty) => pretty
  }

  // ---------------------------------------------------------------------
  // Pattern matching

  /**
   * One pattern against a receiver type (pointer already stripped) and a
   * function name: `Recv.Method` is cut at its first dot and both halves
   * must match; a pattern without a dot is matched against the name alone.
   */
  predicate PatternMatches(pattern: string, recvType: string, funcName: string) {
    match Cut(pattern, '.')
    case Some((structName, methodName)) => Glob.Glob(structName, recvType) && Glob.Glob(methodName, funcName)
    case None => Glob.Glob(pattern, funcName)
  }

  /** The receiver type isFuncMatch compares against: extractRecvType's, one leading `*` removed. */
  function MatchedRecvType(d: FuncDecl): string {
    TrimPrefix(ExtractRecvType(d).0, "*")
  }

  /** isFuncMatch's answer: some pattern matches. */
  predicate FuncMatches(d: FuncDecl, patterns: seq<string>) {
    exists i | 0 <= i < |patterns| :: PatternMatches(patterns[i], MatchedRecvType(d), d.name)
  }

  /** isFuncMatch: tries the patterns in order and stops at the first that matches. */
  method IsFuncMatch(d: FuncDecl, patterns: seq<string>) returns (b: bool)
    ensures b <==> FuncMatches(d, patterns)
  {
    var recvType := TrimPrefix(ExtractRecvType(d).0, "*");
    var i := 0;
    while i < |patterns|
      invariant 0 <= i <= |patterns|
      invariant forall j | 0 <= j < i :: !PatternMatches(patterns[j], recvType, d.name)
    {
      var pattern := patterns[i];
      var matchFunc := pattern;
      var cut := Cut(pattern, '.');
      if cut.Some? {
        if !Glob.Glob(cut.value.0, recvType) {
          i := i + 1;
          continue;
        }
        matchFunc := cut.value.1;
      }
      if Glob.Glob(matchFunc, d.name) {
        return true;
      }
      i := i + 1;
    }
    return false;
  }

  /** `T.M` with a literal, non-empty T never matches a function without a receiver. */
  lemma PlainFunctionMissesLiteralReceiver(d: FuncDecl, structName: string, methodName: string)
    requires d.recv.None?
    requires structName != [] && '*' !in structName && '.' !in structName
    ensures !PatternMatches(structName + "." + methodName, MatchedRecvType(d), d.name)
  {
    assert structName + "." + methodName == structName + ['.'] + methodName;
    CutOf(structName, '.', methodName);
    Glob.LiteralMatchesItself(structName, "");
  }

  /** But `*.M` does match a plain function named M: its receiver type "" matches `*`. */
  lemma PlainFunctionMatchesStarReceiver(d: FuncDecl)
    requires d.recv.None?
    requires '*' !in d.name
    ensures FuncMatches(d, ["*." + d.name])
  {
    assert "*." + d.name == "*" + ['.'] + d.name;
    CutOf("*", '.', d.name);
    Glob.StarMatchesAll("");
    Glob.LiteralMatchesItself(d.name, d.name);
    assert PatternMatches(["*." + d.name][0], MatchedRecvType(d), d.name);
  }

  /** A method on `*T` and a method on `T` are matched alike (when T's text has no leading `*`). */
  lemma PointerReceiverMatchesLikeValue(d: FuncDecl, names: seq<string>, t: Expr, patterns: seq<string>)
    requires d.recv == Some([Field(names, StarExpr(t))])
    requires !HasPrefix(ExprToString(t), "*")
    ensures FuncMatches(d, patterns) <==> FuncMatches(d.(recv := Some([Field(names, t)])), patterns)
  {
    PointerPrefixStripped(t);
    assert MatchedRecvType(d) == ExprToString(t);
    assert MatchedRecvType(d.(recv := Some([Field(names, t)]))) == ExprToString(t);
  }

  // ---------------------------------------------------------------------
  // Positions

  /**
   * getPosition: the offset of 1-based (line, character), or None (NoPos)
   * when the line is outside the file. The column is not checked.
   */
  function GetPosition(lineStarts: seq<int>, line: int, character: int): (p: Option<int>)
    ensures p.None? <==> line < 1 || line > |lineStarts|
  {
    if line < 1 || line > |lineStarts| then None
    else Some(lineStarts[line - 1] + (character - 1))
  }

  /** NoPos exactly outside the file's lines; inside, each further character moves the offset by one, with no bound. */
  lemma GetPositionUnchecked(lineStarts: seq<int>, line: int, character: int)
    ensures GetPosition(lineStarts, line, character).None? <==> line < 1 || line > |lineStarts|
    ensures GetPosition(lineStarts, line, character).Some? ==>
              GetPosition(lineStarts, line, character + 1) == Some(GetPosition(lineStarts, line, character).value + 1)
    ensures 1 <= line <= |lineStarts| ==> GetPosition(lineStarts, line, 1) == Some(lineStarts[line - 1])
  {
  }

  /** The index of the LAST line start at or before `offset`; -1 when there is none. */
  function LineIndex(lineStarts: seq<int>, offset: int): (i: int)
    ensures -1 <= i < |lineStarts|
    ensures i >= 0 ==> lineStarts[i] <= offset
    ensures forall j | i < j < |lineStarts| :: lineStarts[j] > offset
  {
    if |lineStarts| == 0 then -1
    else if lineStarts[|lineStarts| - 1] <= offset then |lineStarts| - 1
    else LineIndex(lineStarts[..|lineStarts| - 1], offset)
  }

  datatype LineCol = LineCol(line: int, column: int)

  /** FileSet.Position: the 1-based line and column of an offset ((0, 0) before the first line). */
  function OffsetPosition(lineStarts: seq<int>, offset: int): LineCol {
    var i := LineIndex(lineStarts, offset);
    if i < 0 then LineCol(0, 0) else LineCol(i + 1, offset - lineStarts[i] + 1)
  }

  /** The line table of a real file: the first line starts at 0 and starts strictly increase. */
  ghost predicate WellFormedLines(lineStarts: seq<int>) {
    |lineStarts| >= 1 && lineStarts[0] == 0 &&
    forall j, k | 0 <= j < k < |lineStarts| :: lineStarts[j] < lineStarts[k]
  }

  /** Offset -> (line, column) -> offset is the identity. */
  lemma PositionOfOffset(lineStarts: seq<int>, offset: int)
    requires WellFormedLines(lineStarts) && offset >= 0
    ensures OffsetPosition(lineStarts, offset).line >= 1
    ensures GetPosition(lineStarts, OffsetPosition(lineStarts, offset).line,
                        OffsetPosition(lineStarts, offset).column) == Some(offset)
  {
    assert lineStarts[0] <= offset;
  }

  /** (line, column) -> offset -> (line, column) is the identity for a column inside its line. */
  lemma OffsetOfPosition(lineStarts: seq<int>, line: int, column: int)
    requires WellFormedLines(lineStarts)
    requires 1 <= line <= |lineStarts| && column >= 1
    requires line < |lineStarts| ==> lineStarts[line - 1] + column - 1 < lineStarts[line]
    ensures GetPosition(lineStarts, line, column).Some?
    ensures OffsetPosition(lineStarts, GetPosition(lineStarts, line, column).value) == LineCol(line, column)
  {
    var offset := lineStarts[line - 1] + column - 1;
    var i := LineIndex(lineStarts, offset);
  }

  // ---------------------------------------------------------------------
  // Tree traversal

  /** The order in which ast.Inspect visits nodes: a node, then each child's subtree in turn. */
  function PreOrder(n: Node): (r: seq<Node>)
    ensures |r| >= 1 && r[0] == n
    decreases n, 1
  {
    [n] + PreOrderAll(n.children)
  }

  function PreOrderAll(cs: seq<Node>): seq<Node>
    decreases cs, 0
  {
    if cs == [] then [] else PreOrder(cs[0]) + PreOrderAll(cs[1..])
  }

  /** In the traversal, every node is followed immediately by the traversal of its own subtree. */
  lemma {:induction false} SubtreeBlock(n: Node, i: nat)
    requires i < |PreOrder(n)|
    ensures i + |PreOrder(PreOrder(n)[i])| <= |PreOrder(n)|
    ensures PreOrder(n)[i..i + |PreOrder(PreOrder(n)[i])|] == PreOrder(PreOrder(n)[i])
    decreases n, 1
  {
    if i > 0 {
      var rest := PreOrderAll(n.children);
      SubtreeBlockAll(n.children, i - 1);
      SliceRight([n], rest, i, |PreOrder(rest[i - 1])|);
    }
  }

  lemma {:induction false} SubtreeBlockAll(cs: seq<Node>, j: nat)
    requires j < |PreOrderAll(cs)|
    ensures j + |PreOrder(PreOrderAll(cs)[j])| <= |PreOrderAll(cs)|
    ensures PreOrderAll(cs)[j..j + |PreOrder(PreOrderAll(cs)[j])|] == PreOrder(PreOrderAll(cs)[j])
    decreases cs, 0
  {
    var h := PreOrder(cs[0]);
    var t := PreOrderAll(cs[1..]);
    if j < |h| {
      SubtreeBlock(cs[0], j);
      SliceLeft(h, t, j, |PreOrder(h[j])|);
    } else {
      SubtreeBlockAll(cs[1..], j - |h|);
      SliceRight(h, t, j, |PreOrder(t[j - |h|])|);
    }
  }

  /** A slice within the first part of a concatenation. */
  lemma SliceLeft<T>(h: seq<T>, t: seq<T>, j: nat, len: nat)
    requires j < |h| && j + len <= |h|
    ensures (h + t)[j] == h[j] && (h + t)[j..j + len] == h[j..j + len]
  {
  }

  /** A slice within the second part of a concatenation. */
  lemma SliceRight<T>(h: seq<T>, t: seq<T>, j: nat, len: nat)
    requires |h| <= j < |h| + |t| && j + len <= |h| + |t|
    ensures (h + t)[j] == t[j - |h|] && (h + t)[j..j + len] == t[j - |h|..j - |h| + len]
  {
    assert (h + t)[j..j + len] == t[j - |h|..j - |h| + len];
  }

  /** The traversal of a list of siblings, split around the k-th. */
  lemma {:induction false} PreOrderAllSplit(cs: seq<Node>, k: nat)
    requires k < |cs|
    ensures PreOrderAll(cs) == PreOrderAll(cs[..k]) + PreOrder(cs[k]) + PreOrderAll(cs[k + 1..])
  {
    if k > 0 {
      PreOrderAllSplit(cs[1..], k - 1);
      assert cs[..k][1..] == cs[1..][..k - 1];
      assert cs[1..][k..] == cs[k + 1..];
      assert cs[..k] != [];
    } else {
      assert cs[..0] == [];
    }
  }

  predicate Contains(n: Node, position: int) {
    n.pos <= position <= n.end
  }

  /** The test ExtractFullCall applies to each node. */
  predicate IsCallAt(n: Node, position: int) {
    n.kind.CallExpr? && Contains(n, position)
  }

  /** The test GetEnclosingFunctionName applies to each node. */
  predicate IsFuncAt(n: Node, position: int) {
    (n.kind.FuncDeclNode? || n.kind.FuncLit?) && Contains(n, position)
  }

  /** The index of the LAST node of `ns` that is a call containing the position. */
  function LastCallIndex(ns: seq<Node>, position: int): (r: Option<nat>)
    ensures r.Some? ==> r.value < |ns| && IsCallAt(ns[r.value], position)
    ensures r.Some? ==> forall j | r.value < j < |ns| :: !IsCallAt(ns[j], position)
    ensures r.None? ==> forall j | 0 <= j < |ns| :: !IsCallAt(ns[j], position)
  {
    if |ns| == 0 then None
    else if IsCallAt(ns[|ns| - 1], position) then Some(|ns| - 1)
    else LastCallIndex(ns[..|ns| - 1], position)
  }

  /** The index of the FIRST node of `ns` that is a function declaration or literal containing the position. */
  function FirstFuncIndex(ns: seq<Node>, position: int): (r: Option<nat>)
    ensures r.Some? ==> r.value < |ns| && IsFuncAt(ns[r.value], position)
    ensures r.Some? ==> forall j | 0 <= j < r.value :: !IsFuncAt(ns[j], position)
    ensures r.None? ==> forall j | 0 <= j < |ns| :: !IsFuncAt(ns[j], position)
  {
    if |ns| == 0 then None
    else if IsFuncAt(ns[0], position) then Some(0)
    else match FirstFuncIndex(ns[1..], position)
      case None => None
      case Some(k) => Some(k + 1)
  }

  /**
   * The walk of ExtractFullCall: every node is visited and the variable
   * `targetCallExpr` is overwritten by each call that contains the position.
   */
  method FindCall(ns: seq<Node>, position: int) returns (target: Option<nat>)
    ensures target == LastCallIndex(ns, position)
  {
    target := None;
    var i := 0;
    while i < |ns|
      invariant 0 <= i <= |ns|
      invariant target == LastCallIndex(ns[..i], position)
    {
      assert ns[..i + 1][..i] == ns[..i];
      if IsCallAt(ns[i], position) {
        target := Some(i);
      }
      i := i + 1;
    }
    assert ns[..|ns|] == ns;
  }

  /**
   * The walk of GetEnclosingFunctionName: the first function declaration or
   * literal containing the position sets `found`, and nothing after it counts.
   */
  method FindEnclosing(ns: seq<Node>, position: int) returns (found: Option<nat>)
    ensures found == FirstFuncIndex(ns, position)
  {
    found := None;
    var i := 0;
    while i < |ns| && found.None?
      invariant 0 <= i <= |ns|
      invariant found.None? ==> forall j | 0 <= j < i :: !IsFuncAt(ns[j], position)
      invariant found.Some? ==> found.value < |ns| && IsFuncAt(ns[found.value], position) &&
                                forall j | 0 <= j < found.value :: !IsFuncAt(ns[j], position)
    {
      if IsFuncAt(ns[i], position) {
        found := Some(i);
      }
      i := i + 1;
    }
  }

  /** The call reported is the deepest: no call below it in its subtree contains the position. */
  lemma CallIsDeepest(root: Node, position: int)
    requires LastCallIndex(PreOrder(root), position).Some?
    ensures var ns := PreOrder(root);
            var c := ns[LastCallIndex(ns, position).value];
            forall d | d in PreOrder(c)[1..] :: !IsCallAt(d, position)
  {
    var ns := PreOrder(root);
    var i := LastCallIndex(ns, position).value;
    SubtreeBlock(root, i);
    NoCallInLaterBlock(ns, i, PreOrder(ns[i]), position);
  }

  /** Nodes of a block that starts at `i` and lies inside `ns` come after `i` in `ns`. */
  lemma NoCallInLaterBlock(ns: seq<Node>, i: nat, block: seq<Node>, position: int)
    requires 1 <= |block| && i + |block| <= |ns| && ns[i..i + |block|] == block
    requires forall j | i < j < |ns| :: !IsCallAt(ns[j], position)
    ensures forall d | d in block[1..] :: !IsCallAt(d, position)
  {
    var later := block[1..];
    forall d | d in later ensures !IsCallAt(d, position) {
      var k :| 0 <= k < |later| && later[k] == d;
      assert later[k] == ns[i + 1 + k];
    }
  }

  // ---------------------------------------------------------------------
  // The positional queries on one parsed file

  /** The enclosing context reported for a position. */
  datatype Enclosing = Enclosing(funcName: string, recvType: string, recvName: string)

  const GlobalScope: Enclosing := Enclosing("global scope", "", "")

  /**
   * What the walk reports for the node that stopped it: a declaration's name
   * and, when its receiver list is not empty, the first field's type and
   * first name; a literal's marker.
   */
  function EnclosingOf(kind: NodeKind): (r: Enclosing)
    ensures kind.FuncLit? ==> r == Enclosing("anonymous function", "", "")
    ensures kind.FuncDeclNode? ==> r.funcName == kind.decl.name
    ensures kind.FuncDeclNode? && (kind.decl.recv.None? || |kind.decl.recv.value| == 0) ==> r.recvType == r.recvName == ""
    ensures kind.FuncDeclNode? && kind.decl.recv.Some? && |kind.decl.recv.value| > 0 ==>
              r.recvType == ExprToString(kind.decl.recv.value[0].typ)
    ensures kind.FuncDeclNode? && kind.decl.recv.Some? && |kind.decl.recv.value| > 0 ==>
              r.recvName == if |kind.decl.recv.value[0].names| > 0 then kind.decl.recv.value[0].names[0] else ""
  {
    match kind
    case FuncDeclNode(d) =>
      if d.recv.Some? && |d.recv.value| > 0 then
        var f := d.recv.value[0];
        Enclosing(d.name, ExprToString(f.typ), if |f.names| > 0 then f.names[0] else "")
      else Enclosing(d.name, "", "")
    case FuncLit => Enclosing("anonymous function", "", "")
    case _ => GlobalScope
  }

  /** For a one-field receiver, the walk and extractRecvType agree on the receiver. */
  lemma EnclosingAgreesWithExtractRecvType(d: FuncDecl)
    requires d.recv.Some? && |d.recv.value| == 1
    ensures (EnclosingOf(FuncDeclNode(d)).recvType, EnclosingOf(FuncDeclNode(d)).recvName) == ExtractRecvType(d)
  {
  }

  /** GetEnclosingFunctionName after the file is parsed. */
  function EnclosingAt(f: SourceFile, line: int, character: int): (r: Result<Enclosing, AstError>)
    ensures r.Err? <==> GetPosition(f.lineStarts, line, character).None?
    ensures r.Err? ==> r.error == InvalidPosition
  {
    match GetPosition(f.lineStarts, line, character)
    case None => Err(InvalidPosition)
    case Some(position) =>
      var ns := PreOrder(f.root);
      match FirstFuncIndex(ns, position)
      case None => Ok(GlobalScope)
      case Some(i) => Ok(EnclosingOf(ns[i].kind))
  }

  /**
   * The context reported is global scope when no function declaration or
   * literal contains the position, and otherwise that of the first one the
   * walk meets, a literal reported as "anonymous function".
   */
  lemma EnclosingIsFirstFunction(f: SourceFile, line: int, character: int, position: int, ns: seq<Node>)
    requires GetPosition(f.lineStarts, line, character) == Some(position)
    requires ns == PreOrder(f.root)
    ensures (forall j | 0 <= j < |ns| :: !IsFuncAt(ns[j], position)) ==> EnclosingAt(f, line, character) == Ok(GlobalScope)
    ensures forall i | 0 <= i < |ns| && IsFuncAt(ns[i], position) && (forall j | 0 <= j < i :: !IsFuncAt(ns[j], position)) ::
              EnclosingAt(f, line, character) == Ok(EnclosingOf(ns[i].kind))
  {
    var k := FirstFuncIndex(ns, position);
    assert EnclosingAt(f, line, character) == if k.None? then Ok(GlobalScope) else Ok(EnclosingOf(ns[k.value].kind));
    if k.Some? {
      assert IsFuncAt(ns[k.value], position);
      forall i | 0 <= i < |ns| && IsFuncAt(ns[i], position) && (forall j | 0 <= j < i :: !IsFuncAt(ns[j], position))
        ensures i == k.value
      {
      }
    }
  }

  /**
   * A function declared at top level wins over every function literal
   * inside it: once nothing in the earlier declarations encloses the
   * position, the declaration containing it is reported.
   */
  lemma TopLevelDeclarationWins(f: SourceFile, line: int, character: int, k: nat)
    requires GetPosition(f.lineStarts, line, character).Some?
    requires !IsFuncAt(f.root, GetPosition(f.lineStarts, line, character).value)
    requires k < |f.root.children| && f.root.children[k].kind.FuncDeclNode?
    requires Contains(f.root.children[k], GetPosition(f.lineStarts, line, character).value)
    requires forall m | m in PreOrderAll(f.root.children[..k]) ::
               !IsFuncAt(m, GetPosition(f.lineStarts, line, character).value)
    ensures EnclosingAt(f, line, character) == Ok(EnclosingOf(f.root.children[k].kind))
  {
    var position := GetPosition(f.lineStarts, line, character).value;
    var cs := f.root.children;
    var ns := PreOrder(f.root);
    var before := PreOrderAll(cs[..k]);
    PreOrderAllSplit(cs, k);
    var head := [f.root] + before;
    var i := |head|;
    ConcatAssociative(head, PreOrder(cs[k]), PreOrderAll(cs[k + 1..]));
    assert ns == head + (PreOrder(cs[k]) + PreOrderAll(cs[k + 1..]));
    assert ns[i] == PreOrder(cs[k])[0] == cs[k];
    forall j | 0 <= j < i ensures !IsFuncAt(ns[j], position) {
      assert ns[j] == head[j];
      if j > 0 {
        assert head[j] == before[j - 1];
      }
    }
    FirstFuncIndexIs(ns, position, i);
  }

  /** The first function containing the position is the one FirstFuncIndex finds. */
  lemma FirstFuncIndexIs(ns: seq<Node>, position: int, i: nat)
    requires i < |ns| && IsFuncAt(ns[i], position)
    requires forall j | 0 <= j < i :: !IsFuncAt(ns[j], position)
    ensures FirstFuncIndex(ns, position) == Some(i)
  {
  }

  /** ExtractFullCall after the file is parsed. */
  function CallSnippet(f: SourceFile, line: int, character: int): (r: Result<string, AstError>)
    ensures GetPosition(f.lineStarts, line, character).None? ==> r == Err(InvalidPosition)
  {
    match GetPosition(f.lineStarts, line, character)
    case None => Err(InvalidPosition)
    case Some(position) =>
      var ns := PreOrder(f.root);
      match LastCallIndex(ns, position)
      case None => Err(NoCallExpression)
      case Some(i) =>
        var c := ns[i];
        if c.pos < 0 || c.end > |f.src| || c.pos >= c.end then Err(InvalidCallPositions)
        else Ok(f.src[c.pos..c.end])
  }

  /**
   * The snippet is exactly the source text of a call that contains the
   * position and that no later call in the walk replaced; and a call is
   * found whenever some call contains the position.
   */
  lemma CallSnippetIsLastContainingCall(f: SourceFile, line: int, character: int, position: int, ns: seq<Node>)
    requires GetPosition(f.lineStarts, line, character) == Some(position)
    requires ns == PreOrder(f.root)
    ensures CallSnippet(f, line, character) == Err(NoCallExpression) <==>
            forall j | 0 <= j < |ns| :: !IsCallAt(ns[j], position)
    ensures CallSnippet(f, line, character).Ok? ==>
            exists i | 0 <= i < |ns| ::
              IsCallAt(ns[i], position) &&
              (forall j | i < j < |ns| :: !IsCallAt(ns[j], position)) &&
              0 <= ns[i].pos < ns[i].end <= |f.src| &&
              CallSnippet(f, line, character).value == f.src[ns[i].pos..ns[i].end]
    ensures forall i | 0 <= i < |ns| && IsCallAt(ns[i], position) && (forall j | i < j < |ns| :: !IsCallAt(ns[j], position)) ::
              CallSnippet(f, line, character) ==
                if 0 <= ns[i].pos < ns[i].end <= |f.src| then Ok(f.src[ns[i].pos..ns[i].end]) else Err(InvalidCallPositions)
  {
    var t := LastCallIndex(ns, position);
    if t.Some? {
      var i := t.value;
      var c := ns[i];
      if c.pos < 0 || c.end > |f.src| || c.pos >= c.end {
        assert CallSnippet(f, line, character) == Err(InvalidCallPositions);
      } else {
        assert CallSnippet(f, line, character) == Ok(f.src[c.pos..c.end]);
      }
      forall i' | 0 <= i' < |ns| && IsCallAt(ns[i'], position) && (forall j | i' < j < |ns| :: !IsCallAt(ns[j], position))
        ensures i' == i
      {
      }
    }
  }

  // ---------------------------------------------------------------------
  // The parse cache

  /** What reading and parsing `path` gives: absent from disk is a read error, None a parse error. */
  function Load(disk: map<string, Option<SourceFile>>, path: string): (r: Result<SourceFile, AstError>)
    ensures r.Ok? <==> path in disk && disk[path].Some?
    ensures r.Ok? ==> r.value == disk[path].value
  {
    if path !in disk then Err(ReadError(path))
    else match disk[path]
      case None => Err(ParseError(path))
      case Some(f) => Ok(f)
  }

  /** Every cached tree is what the disk holds for its path. */
  ghost predicate Coherent(disk: map<string, Option<SourceFile>>, cache: map<string, SourceFile>) {
    forall p | p in cache :: p in disk && disk[p] == Some(cache[p])
  }

  /** ParseFile: the error it returns and the cache it leaves. */
  function ParseStep(disk: map<string, Option<SourceFile>>, cache: map<string, SourceFile>, path: string)
    : (r: (Outcome<AstError>, map<string, SourceFile>))
    ensures path in cache ==> r == (Pass, cache)
    ensures r.0.Fail? <==> path !in cache && Load(disk, path).Err?
    ensures r.0.Fail? ==> r.1 == cache
  {
    if path in cache then (Pass, cache)
    else match Load(disk, path)
      case Err(e) => (Fail(e), cache)
      case Ok(f) => (Pass, cache[path := f])
  }

  /**
   * A parse succeeds exactly when the disk holds a parsable file; it only
   * ever adds that one path, keeps the cache coherent, and a second parse
   * of the same path is a no-op that succeeds.
   */
  lemma ParseStepProperties(disk: map<string, Option<SourceFile>>, cache: map<string, SourceFile>, path: string)
    requires Coherent(disk, cache)
    ensures var (o, c) := ParseStep(disk, cache, path);
            Coherent(disk, c) &&
            (o.Pass? <==> Load(disk, path).Ok?) &&
            (o.Fail? ==> c == cache && o.error == Load(disk, path).error) &&
            (o.Pass? ==> path in c && c[path] == Load(disk, path).value &&
                         c.Keys == cache.Keys + {path} &&
                         (forall p | p in cache :: c[p] == cache[p]) &&
                         ParseStep(disk, c, path) == (Pass, c))
  {
  }

  /** ParseFile over the files of a package, stopping at the first failure. */
  function ParseFiles(disk: map<string, Option<SourceFile>>, cache: map<string, SourceFile>, paths: seq<string>)
    : (Outcome<AstError>, map<string, SourceFile>)
  {
    if paths == [] then (Pass, cache)
    else
      var (o, c) := ParseFiles(disk, cache, paths[..|paths| - 1]);
      if o.Fail? then (o, c) else ParseStep(disk, c, paths[|paths| - 1])
  }

  lemma {:induction false} ParseFilesCoherent(disk: map<string, Option<SourceFile>>, cache: map<string, SourceFile>, paths: seq<string>)
    requires Coherent(disk, cache)
    ensures Coherent(disk, ParseFiles(disk, cache, paths).1)
    ensures cache.Keys <= ParseFiles(disk, cache, paths).1.Keys
  {
    if paths != [] {
      ParseFilesCoherent(disk, cache, paths[..|paths| - 1]);
      var (o, c) := ParseFiles(disk, cache, paths[..|paths| - 1]);
      ParseStepProperties(disk, c, paths[|paths| - 1]);
    }
  }

  // ---------------------------------------------------------------------
  // The definition scan

  /** ast.IsExported, approximated by an ASCII upper-case first letter. */
  predicate IsExported(name: string)
    ensures IsExported(name) ==> name != "" && !('a' <= name[0] <= 'z') && name[0] != '_'
  {
    |name| > 0 && 'A' <= name[0] <= 'Z'
  }

  /** filepath.Join(dir, file), without the path cleaning. */
  function JoinPath(dir: string, file: string): string {
    dir + "/" + file
  }

  function FilePaths(pkg: Package): (paths: seq<string>)
    ensures |paths| == |pkg.goFiles|
    ensures forall i | 0 <= i < |paths| :: paths[i] == JoinPath(pkg.dir, pkg.goFiles[i])
  {
    seq(|pkg.goFiles|, i requires 0 <= i < |pkg.goFiles| => JoinPath(pkg.dir, pkg.goFiles[i]))
  }

  /** The declarations FindFuncDefinitions keeps: exported functions that some pattern matches. */
  predicate Selected(d: Decl, patterns: seq<string>) {
    d.FuncDeclaration? && IsExported(d.fn.name) && FuncMatches(d.fn, patterns)
  }

  /** The Match recorded for a kept declaration: at the line and column of its name. */
  function MatchOf(pkgPath: string, f: SourceFile, path: string, d: FuncDecl): Match {
    var lc := OffsetPosition(f.lineStarts, d.namePos);
    var (recvType, recvName) := ExtractRecvType(d);
    Match(pkgPath, recvType, recvName, d.name, path, lc.line, lc.column)
  }

  /** The matches in a list of declarations, in declaration order. */
  function DefinitionsIn(pkgPath: string, f: SourceFile, path: string, decls: seq<Decl>, patterns: seq<string>)
    : (r: seq<Match>)
    ensures |r| <= |decls|
    ensures forall k | 0 <= k < |r| :: r[k].pkg == pkgPath && r[k].filename == path
  {
    if decls == [] then []
    else
      var last := decls[|decls| - 1];
      DefinitionsIn(pkgPath, f, path, decls[..|decls| - 1], patterns) +
      (if Selected(last, patterns) then [MatchOf(pkgPath, f, path, last.fn)] else [])
  }

  /** The scan keeps declaration order: scanning two runs of declarations concatenates their matches. */
  lemma {:induction false} DefinitionsInConcat(pkgPath: string, f: SourceFile, path: string,
                                               ds1: seq<Decl>, ds2: seq<Decl>, patterns: seq<string>)
    ensures DefinitionsIn(pkgPath, f, path, ds1 + ds2, patterns) ==
            DefinitionsIn(pkgPath, f, path, ds1, patterns) + DefinitionsIn(pkgPath, f, path, ds2, patterns)
    decreases |ds2|
  {
    if ds2 == [] {
      assert ds1 + ds2 == ds1;
    } else {
      assert (ds1 + ds2)[..|ds1 + ds2| - 1] == ds1 + ds2[..|ds2| - 1];
      DefinitionsInConcat(pkgPath, f, path, ds1, ds2[..|ds2| - 1], patterns);
    }
  }

  /** A match is reported exactly for each exported declaration that some pattern matches. */
  lemma {:induction false} DefinitionsExactly(pkgPath: string, f: SourceFile, path: string,
                                              decls: seq<Decl>, patterns: seq<string>, m: Match)
    ensures m in DefinitionsIn(pkgPath, f, path, decls, patterns) <==>
            exists i | 0 <= i < |decls| :: Selected(decls[i], patterns) && m == MatchOf(pkgPath, f, path, decls[i].fn)
  {
    if decls != [] {
      var init := decls[..|decls| - 1];
      DefinitionsExactly(pkgPath, f, path, init, patterns, m);
      if m in DefinitionsIn(pkgPath, f, path, init, patterns) {
        var i :| 0 <= i < |init| && Selected(init[i], patterns) && m == MatchOf(pkgPath, f, path, init[i].fn);
        assert decls[i] == init[i];
      }
      if exists i | 0 <= i < |decls| :: Selected(decls[i], patterns) && m == MatchOf(pkgPath, f, path, decls[i].fn) {
        var i :| 0 <= i < |decls| && Selected(decls[i], patterns) && m == MatchOf(pkgPath, f, path, decls[i].fn);
        if i < |init| { assert init[i] == decls[i]; }
      }
    }
  }

  /** Each reported position points back at the declaration's name identifier. */
  lemma DefinitionPointsAtName(pkgPath: string, f: SourceFile, path: string, d: FuncDecl)
    requires WellFormedLines(f.lineStarts) && d.namePos >= 0
    ensures var m := MatchOf(pkgPath, f, path, d);
            GetPosition(f.lineStarts, m.offsetLine, m.offsetCol) == Some(d.namePos)
  {
    PositionOfOffset(f.lineStarts, d.namePos);
  }

  /** The matches of a package's files, file by file, or the first file's read or parse error. */
  function DefinitionsInFiles(disk: map<string, Option<SourceFile>>, pkgPath: string, paths: seq<string>,
                              patterns: seq<string>): (r: Result<seq<Match>, AstError>)
    ensures r.Ok? ==> forall k | 0 <= k < |r.value| :: r.value[k].pkg == pkgPath && r.value[k].filename in paths
  {
    if paths == [] then Ok([])
    else
      match DefinitionsInFiles(disk, pkgPath, paths[..|paths| - 1], patterns)
      case Err(e) => Err(e)
      case Ok(ms) =>
        var path := paths[|paths| - 1];
        match Load(disk, path)
        case Err(e) => Err(e)
        case Ok(f) => Ok(ms + DefinitionsIn(pkgPath, f, path, f.decls, patterns))
  }

  /** FindFuncDefinitions: resolve the package, then scan its files in order. */
  function Definitions(disk: map<string, Option<SourceFile>>, packages: map<string, Package>,
                       pkgPath: string, patterns: seq<string>): (r: Result<seq<Match>, AstError>)
    ensures pkgPath !in packages ==> r == Err(ResolutionError(pkgPath))
    ensures r.Ok? ==> forall k | 0 <= k < |r.value| :: r.value[k].pkg == pkgPath &&
                        r.value[k].filename in FilePaths(packages[pkgPath])
  {
    if pkgPath !in packages then Err(ResolutionError(pkgPath))
    else DefinitionsInFiles(disk, pkgPath, FilePaths(packages[pkgPath]), patterns)
  }

  /** The scan fails exactly when the package is unknown or one of its files cannot be read or parsed. */
  lemma {:induction false} DefinitionsInFilesFail(disk: map<string, Option<SourceFile>>, pkgPath: string,
                                                  paths: seq<string>, patterns: seq<string>)
    ensures DefinitionsInFiles(disk, pkgPath, paths, patterns).Err? <==>
            exists i | 0 <= i < |paths| :: Load(disk, paths[i]).Err?
  {
    if paths != [] {
      var init := paths[..|paths| - 1];
      DefinitionsInFilesFail(disk, pkgPath, init, patterns);
      if exists i | 0 <= i < |init| :: Load(disk, init[i]).Err? {
        var i :| 0 <= i < |init| && Load(disk, init[i]).Err?;
        assert paths[i] == init[i];
      }
      if exists i | 0 <= i < |paths| :: Load(disk, paths[i]).Err? {
        var i :| 0 <= i < |paths| && Load(disk, paths[i]).Err?;
        if i < |init| { assert init[i] == paths[i]; }
      }
    }
  }

  /** Once a file fails to parse, the later files are not looked at. */
  lemma ParseFilesStopped(disk: map<string, Option<SourceFile>>, cache: map<string, SourceFile>,
                          paths: seq<string>, k: nat)
    requires 1 <= k <= |paths|
    requires ParseFiles(disk, cache, paths[..k]).0.Fail?
    ensures ParseFiles(disk, cache, paths) == ParseFiles(disk, cache, paths[..k])
    decreases |paths| - k
  {
    if k < |paths| {
      assert paths[..|paths| - 1][..k] == paths[..k];
      ParseFilesStopped(disk, cache, paths[..|paths| - 1], k);
    } else {
      assert paths[..k] == paths;
    }
  }

  /** Once a file cannot be read or parsed, the scan reports that error whatever follows. */
  lemma DefinitionsStopped(disk: map<string, Option<SourceFile>>, pkgPath: string,
                           paths: seq<string>, k: nat, patterns: seq<string>)
    requires 1 <= k <= |paths|
    requires DefinitionsInFiles(disk, pkgPath, paths[..k], patterns).Err?
    ensures DefinitionsInFiles(disk, pkgPath, paths, patterns) == DefinitionsInFiles(disk, pkgPath, paths[..k], patterns)
    decreases |paths| - k
  {
    if k < |paths| {
      assert paths[..|paths| - 1][..k] == paths[..k];
      DefinitionsStopped(disk, pkgPath, paths[..|paths| - 1], k, patterns);
    } else {
      assert paths[..k] == paths;
    }
  }

  // ---------------------------------------------------------------------
  // The processor

  /** GetEnclosingFunctionName, including the parse of the file. */
  function EnclosingIn(disk: map<string, Option<SourceFile>>, path: string, line: int, character: int)
    : Result<Enclosing, AstError>
  {
    match Load(disk, path)
    case Err(e) => Err(e)
    case Ok(f) => EnclosingAt(f, line, character)
  }

  /** ExtractFullCall, including the parse of the file. */
  function CallIn(disk: map<string, Option<SourceFile>>, path: string, line: int, character: int)
    : Result<string, AstError>
  {
    match Load(disk, path)
    case Err(e) => Err(e)
    case Ok(f) => CallSnippet(f, line, character)
  }

  /** ASTProcessor: a cache of parsed files over a fixed disk and package table. */
  class ASTProcessor {
    const disk: map<string, Option<SourceFile>>
    const packages: map<string, Package>
    var fileMap: map<string, SourceFile>

    ghost predicate Valid()
      reads this
    {
      Coherent(disk, fileMap)
    }

    /** NewASTProcessor */
    constructor(disk: map<string, Option<SourceFile>>, packages: map<string, Package>)
      ensures Valid()
      ensures this.disk == disk && this.packages == packages && fileMap == map[]
    {
      this.disk := disk;
      this.packages := packages;
      fileMap := map[];
    }

    method ParseFile(path: string) returns (r: Outcome<AstError>)
      requires Valid()
      modifies this
      ensures Valid()
      ensures (r, fileMap) == ParseStep(disk, old(fileMap), path)
    {
      ParseStepProperties(disk, fileMap, path);
      if path in fileMap {
        return Pass;
      }
      var loaded := Load(disk, path);
      if loaded.Err? {
        return Fail(loaded.error);
      }
      fileMap := fileMap[path := loaded.value];
      return Pass;
    }

    method ExtractFullCall(path: string, line: int, character: int) returns (r: Result<string, AstError>)
      requires Valid()
      modifies this
      ensures Valid()
      ensures fileMap == ParseStep(disk, old(fileMap), path).1
      ensures r == CallIn(disk, path, line, character)
    {
      ParseStepProperties(disk, fileMap, path);
      var parsed := ParseFile(path);
      if parsed.Fail? {
        return Err(parsed.error);
      }
      var file := fileMap[path];
      var src := file.src;
      var position := GetPosition(file.lineStarts, line, character);
      if position.None? {
        return Err(InvalidPosition);
      }
      var ns := PreOrder(file.root);
      var target := FindCall(ns, position.value);
      if target.None? {
        return Err(NoCallExpression);
      }
      var call := ns[target.value];
      var startOffset, endOffset := call.pos, call.end;
      if startOffset < 0 || endOffset > |src| || startOffset >= endOffset {
        return Err(InvalidCallPositions);
      }
      return Ok(src[startOffset..endOffset]);
    }

    method GetEnclosingFunctionName(path: string, line: int, character: int) returns (r: Result<Enclosing, AstError>)
      requires Valid()
      modifies this
      ensures Valid()
      ensures fileMap == ParseStep(disk, old(fileMap), path).1
      ensures r == EnclosingIn(disk, path, line, character)
    {
      ParseStepProperties(disk, fileMap, path);
      var parsed := ParseFile(path);
      if parsed.Fail? {
        return Err(parsed.error);
      }
      var file := fileMap[path];
      var position := GetPosition(file.lineStarts, line, character);
      if position.None? {
        return Err(InvalidPosition);
      }
      var ns := PreOrder(file.root);
      var found := FindEnclosing(ns, position.value);
      if found.None? {
        return Ok(GlobalScope);
      }
      return Ok(EnclosingOf(ns[found.value].kind));
    }

    method FindFuncDefinitions(pkgPath: string, patterns: seq<string>) returns (r: Result<seq<Match>, AstError>)
      requires Valid()
      modifies this
      ensures Valid()
      ensures r == Definitions(disk, packages, pkgPath, patterns)
      ensures pkgPath !in packages ==> fileMap == old(fileMap)
      ensures pkgPath in packages ==> fileMap == ParseFiles(disk, old(fileMap), FilePaths(packages[pkgPath])).1
    {
      if pkgPath !in packages {
        return Err(ResolutionError(pkgPath));
      }
      var paths := FilePaths(packages[pkgPath]);
      var matches: seq<Match> := [];
      var i := 0;
      while i < |paths|
        invariant 0 <= i <= |paths|
        invariant Valid()
        invariant ParseFiles(disk, old(fileMap), paths[..i]) == (Pass, fileMap)
        invariant DefinitionsInFiles(disk, pkgPath, paths[..i], patterns) == Ok(matches)
      {
        var fullPath := paths[i];
        assert paths[..i + 1][..i] == paths[..i];
        ParseStepProperties(disk, fileMap, fullPath);
        var parsed := ParseFile(fullPath);
        assert ParseFiles(disk, old(fileMap), paths[..i + 1]) == (parsed, fileMap);
        if parsed.Fail? {
          ParseFilesStopped(disk, old(fileMap), paths, i + 1);
          DefinitionsStopped(disk, pkgPath, paths, i + 1, patterns);
          return Err(parsed.error);
        }
        var node := fileMap[fullPath];
        var found := MatchesInFile(pkgPath, node, fullPath, patterns);
        matches := matches + found;
        i := i + 1;
      }
      assert paths[..|paths|] == paths;
      return Ok(matches);
    }
  }

  /** The scan of one parsed file's declarations within FindFuncDefinitions. */
  method MatchesInFile(pkgPath: string, node: SourceFile, fullPath: string, patterns: seq<string>)
    returns (matches: seq<Match>)
    ensures matches == DefinitionsIn(pkgPath, node, fullPath, node.decls, patterns)
  {
    var decls := node.decls;
    matches := [];
    var j := 0;
    while j < |decls|
      invariant 0 <= j <= |decls|
      invariant matches == DefinitionsIn(pkgPath, node, fullPath, decls[..j], patterns)
    {
      assert decls[..j + 1][..j] == decls[..j];
      var decl := decls[j];
      if decl.FuncDeclaration? {
        var funcName := decl.fn.name;
        if IsExported(funcName) {
          var ok := IsFuncMatch(decl.fn, patterns);
          if ok {
            matches := matches + [MatchOf(pkgPath, node, fullPath, decl.fn)];
          }
        }
      }
      j := j + 1;
    }
    assert decls[..|decls|] == decls;
  }
}
