/**
 * Model of the language-server client (pkg/gopls/gopls.go): the JSON-RPC
 * messages it sends, the id counter, the reading of framed replies until
 * the one with the awaited id, and the conversion of a references reply
 * into locations.
 *
 * The server process is replaced by its output stream: `input` holds the
 * bytes the server will write, and `output` collects what the client
 * writes to the server. JSON text is abstract: a `Codec` gives the
 * encoder and decoder that json.Marshal and json.Unmarshal stand for.
 */
module Gopls {
  import opened Wrappers
  import opened Text
  import opened Framing

  // ---------------------------------------------------------------------
  // Messages

  /** A decoded JSON value; numbers are float64 in the original and reals here. */
  datatype Json =
    | JNull
    | JBool(b: bool)
    | JNum(n: real)
    | JStr(s: string)
    | JArr(items: seq<Json>)
    | JObj(fields: map<string, Json>)

  /** A message as a JSON object, `map[string]interface{}`. */
  type Message = map<string, Json>

  /** The encoder and decoder for message bodies. */
  datatype Codec = Codec(encode: Message -> Bytes, decode: Bytes -> Option<Message>)

  /** The codec reads back what it wrote for this message, and the body fits a Content-Length. */
  predicate RoundTrips(codec: Codec, m: Message) {
    codec.decode(codec.encode(m)) == Some(m) && |codec.encode(m)| <= MaxInt64
  }

  datatype GoplsError =
    | FrameFailed(cause: FrameError)
    | DecodeFailed
      /** An `id` that is not a number, on which the original's type assertion panics. */
    | IdNotNumber
      /** A reply without `result`. */
    | NoReferences
      /** A `result` that is not an array (null included). */
    | InvalidReferencesFormat
      /** filepath.Abs could not make the project root absolute. */
    | AbsFailed(root: string)

  /** Go's int(x) conversion of a float64: truncation toward zero. */
  function TruncToInt(x: real): (r: int)
    ensures x >= 0.0 ==> r as real <= x < r as real + 1.0
    ensures x < 0.0 ==> r as real - 1.0 < x <= r as real
  {
    if x >= 0.0 then x.Floor else -((-x).Floor)
  }

  lemma TruncOfInt(n: int)
    ensures TruncToInt(n as real) == n
  {
  }

  const JsonRpcVersion: string := "2.0"

  /** A request: it carries an id. */
  function Request(id: int, methodName: string, params: Option<Json>): (m: Message)
    ensures "id" in m && m["id"] == JNum(id as real)
  {
    var m := map["jsonrpc" := JStr(JsonRpcVersion), "id" := JNum(id as real), "method" := JStr(methodName)];
    if params.Some? then m["params" := params.value] else m
  }

  /** A notification: it carries no id. */
  function Notification(methodName: string, params: Option<Json>): (m: Message)
    ensures "id" !in m
  {
    var m := map["jsonrpc" := JStr(JsonRpcVersion), "method" := JStr(methodName)];
    if params.Some? then m["params" := params.value] else m
  }

  /** The initialize request: no process id, the root as a file URI, the references capability. */
  function InitializeRequest(id: int, projectRoot: string): Message {
    Request(id, "initialize", Some(JObj(map[
      "processId" := JNull,
      "rootUri" := JStr(PathToUri(projectRoot)),
      "capabilities" := JObj(map["textDocument" := JObj(map["references" := JObj(map[])])])])))
  }

  const InitializedNotification: Message := Notification("initialized", Some(JObj(map[])))

  const DidChangeConfigurationNotification: Message :=
    Notification("workspace/didChangeConfiguration", Some(JObj(map["settings" := JObj(map[])])))

  /** The references request, with the 1-based position turned into the protocol's 0-based one. */
  function ReferencesRequest(id: int, filename: string, line: int, character: int): (m: Message)
    ensures "params" in m && m["params"].JObj? && "position" in m["params"].fields &&
            m["params"].fields["position"] ==
              JObj(map["line" := JNum((line - 1) as real), "character" := JNum((character - 1) as real)])
    ensures "context" in m["params"].fields && m["params"].fields["context"] == JObj(map["includeDeclaration" := JBool(true)])
  {
    Request(id, "textDocument/references", Some(JObj(map[
      "textDocument" := JObj(map["uri" := JStr(PathToUri(filename))]),
      "position" := JObj(map["line" := JNum((line - 1) as real), "character" := JNum((character - 1) as real)]),
      "context" := JObj(map["includeDeclaration" := JBool(true)])])))
  }

  /** The shutdown request: an id and no parameters. */
  function ShutdownRequest(id: int): Message {
    Request(id, "shutdown", None)
  }

  /** initialize carries its id, no process id and the project root as a file URI. */
  lemma InitializeRequestFields(id: int, projectRoot: string)
    ensures var m := InitializeRequest(id, projectRoot);
            "id" in m && m["id"] == JNum(id as real) && "method" in m && m["method"] == JStr("initialize") &&
            "params" in m && m["params"].JObj? && "rootUri" in m["params"].fields &&
            m["params"].fields["rootUri"] == JStr(PathToUri(projectRoot)) &&
            "processId" in m["params"].fields && m["params"].fields["processId"] == JNull
  {
  }

  /** shutdown carries its id and no parameters. */
  lemma ShutdownRequestFields(id: int)
    ensures var m := ShutdownRequest(id);
            "id" in m && m["id"] == JNum(id as real) && "method" in m && m["method"] == JStr("shutdown") &&
            "params" !in m
  {
  }

  const ExitNotification: Message := Notification("exit", None)

  // ---------------------------------------------------------------------
  // Paths and URIs

  /** The path separator of the platform modelled (a Unix one). */
  const Separator: char := '/'

  /** filepath.ToSlash: every separator becomes a slash. */
  function ToSlash(path: string, separator: char): (r: string)
    ensures |r| == |path|
    ensures forall i | 0 <= i < |path| :: r[i] == (if path[i] == separator then '/' else path[i])
  {
    if separator == '/' then path
    else seq(|path|, i requires 0 <= i < |path| => if path[i] == separator then '/' else path[i])
  }

  const FileScheme: string := "file://"

  /** pathToURI */
  function PathToUri(path: string): (uri: string)
    ensures HasPrefix(uri, FileScheme) && uri[|FileScheme|..] == ToSlash(path, Separator)
  {
    FileScheme + ToSlash(path, Separator)
  }

  /** uriToPath: the first `file://`, wherever it occurs, is removed. */
  function UriToPath(uri: string): (path: string)
    ensures HasPrefix(uri, FileScheme) ==> path == uri[|FileScheme|..]
    ensures Index(uri, FileScheme) < 0 ==> path == uri
  {
    if HasPrefix(uri, FileScheme) then
      IndexOfPrefix(uri, FileScheme);
      ReplaceFirst(uri, FileScheme, "")
    else ReplaceFirst(uri, FileScheme, "")
  }

  /** A path survives the trip to a URI and back, with slashes for separators. */
  lemma UriToPathOfPathToUri(path: string)
    ensures UriToPath(PathToUri(path)) == ToSlash(path, Separator)
  {
    var uri := PathToUri(path);
    assert HasPrefix(uri, FileScheme) by {
      assert uri[..|FileScheme|] == FileScheme;
    }
    assert Index(uri, FileScheme) == 0;
    assert uri[|FileScheme|..] == ToSlash(path, Separator);
  }

  // ---------------------------------------------------------------------
  // Reading replies

  /** readMessage: a frame, then the decoding of its payload. */
  function ReceiveMessage(codec: Codec, input: Bytes): (r: (Result<Message, GoplsError>, Bytes))
    ensures |r.1| <= |input|
    ensures r.0.Ok? ==> |r.1| < |input|
  {
    var (payload, rest) := ReadFrame(input);
    if payload.Err? then (Err(FrameFailed(payload.error)), rest)
    else match codec.decode(payload.value)
      case None => (Err(DecodeFailed), rest)
      case Some(m) => (Ok(m), rest)
  }

  /** What sendMessage wrote, readMessage reads: the message, with the following bytes left over. */
  lemma ReceiveMessageOfFrame(codec: Codec, m: Message, rest: Bytes)
    requires RoundTrips(codec, m)
    ensures ReceiveMessage(codec, Frame(codec.encode(m)) + rest) == (Ok(m), rest)
  {
    ReadFrameOfFrame(codec.encode(m), rest);
  }

  /** The id test of FindReferences and Close: no id is no match, a non-numeric id is an error. */
  function IdMatches(m: Message, want: int): (r: Result<bool, GoplsError>)
    ensures "id" !in m ==> r == Ok(false)
    ensures "id" in m && m["id"].JNum? ==> r == Ok(TruncToInt(m["id"].n) == want)
    ensures r.Err? <==> "id" in m && !m["id"].JNum?
    ensures r.Err? ==> r.error == IdNotNumber
  {
    if "id" !in m then Ok(false)
    else match m["id"]
      case JNum(x) => Ok(TruncToInt(x) == want)
      case _ => Err(IdNotNumber)
  }

  /** A notification never matches; a request matches exactly its own id. */
  lemma IdMatchesMessages(methodName: string, params: Option<Json>, id: int, want: int)
    ensures IdMatches(Notification(methodName, params), want) == Ok(false)
    ensures IdMatches(Request(id, methodName, params), want) == Ok(id == want)
  {
    TruncOfInt(id);
  }

  /** The wait loops: read messages until one carries the awaited id. */
  function Await(codec: Codec, input: Bytes, want: int): (r: (Result<Message, GoplsError>, Bytes))
    ensures r.0.Ok? ==> IdMatches(r.0.value, want) == Ok(true)
    decreases |input|
  {
    var (msg, rest) := ReceiveMessage(codec, input);
    if msg.Err? then (Err(msg.error), rest)
    else match IdMatches(msg.value, want)
      case Err(e) => (Err(e), rest)
      case Ok(true) => (Ok(msg.value), rest)
      case Ok(false) => Await(codec, rest, want)
  }

  /** The frames of a sequence of messages, back to back. */
  function Frames(codec: Codec, ms: seq<Message>): Bytes {
    if ms == [] then [] else Frame(codec.encode(ms[0])) + Frames(codec, ms[1..])
  }

  /** One step of the wait loop over a frame the codec reads back. */
  lemma AwaitFrame(codec: Codec, m: Message, tail: Bytes, want: int)
    requires RoundTrips(codec, m)
    ensures IdMatches(m, want) == Ok(false) ==> Await(codec, Frame(codec.encode(m)) + tail, want) == Await(codec, tail, want)
    ensures IdMatches(m, want) == Ok(true) ==> Await(codec, Frame(codec.encode(m)) + tail, want) == (Ok(m), tail)
  {
    ReceiveMessageOfFrame(codec, m, tail);
  }

  /**
   * Every message whose id differs (or that has none) is read and
   * discarded, and the first one with the awaited id is the reply.
   */
  lemma {:induction false} AwaitSkipsOthers(codec: Codec, ms: seq<Message>, reply: Message, want: int, rest: Bytes)
    requires forall i | 0 <= i < |ms| :: RoundTrips(codec, ms[i]) && IdMatches(ms[i], want) == Ok(false)
    requires RoundTrips(codec, reply) && IdMatches(reply, want) == Ok(true)
    ensures Await(codec, Frames(codec, ms) + Frame(codec.encode(reply)) + rest, want) == (Ok(reply), rest)
  {
    var last := Frame(codec.encode(reply));
    if ms == [] {
      assert Frames(codec, ms) + last == last;
      AwaitFrame(codec, reply, rest, want);
    } else {
      var first, others := Frame(codec.encode(ms[0])), ms[1..];
      var tail := Frames(codec, others) + last + rest;
      assert Frames(codec, ms) == first + Frames(codec, others);
      ConcatAssociative(first, Frames(codec, others), last);
      ConcatAssociative(first, Frames(codec, others) + last, rest);
      assert Frames(codec, ms) + last + rest == first + tail;
      AwaitFrame(codec, ms[0], tail, want);
      forall i | 0 <= i < |others|
        ensures RoundTrips(codec, others[i]) && IdMatches(others[i], want) == Ok(false)
      {
        assert others[i] == ms[i + 1];
      }
      AwaitSkipsOthers(codec, others, reply, want, rest);
    }
  }

  // ---------------------------------------------------------------------
  // References

  /** A reference location, with 1-based positions. */
  datatype Location = Location(uri: string, filename: string, startLine: int, startCharacter: int,
                               endLine: int, endCharacter: int)

  function ObjectAt(fields: map<string, Json>, key: string): Option<map<string, Json>> {
    if key in fields && fields[key].JObj? then Some(fields[key].fields) else None
  }

  function StringAt(fields: map<string, Json>, key: string): Option<string> {
    if key in fields && fields[key].JStr? then Some(fields[key].s) else None
  }

  function NumberAt(fields: map<string, Json>, key: string): Option<real> {
    if key in fields && fields[key].JNum? then Some(fields[key].n) else None
  }

  /**
   * One entry of a references reply: None (skipped) unless it is an object
   * with a string uri and a range whose start and end objects have numeric
   * line and character fields.
   */
  function RefOf(j: Json): (r: Option<Location>)
    ensures r.Some? ==> j.JObj? && "uri" in j.fields && j.fields["uri"].JStr? && "range" in j.fields &&
                        r.value.uri == j.fields["uri"].s && r.value.filename == UriToPath(r.value.uri)
    ensures !j.JObj? ==> r.None?
  {
    match j
    case JObj(ref) =>
      var uri, range := StringAt(ref, "uri"), ObjectAt(ref, "range");
      if uri.None? || range.None? then None
      else
        var start, end := ObjectAt(range.value, "start"), ObjectAt(range.value, "end");
        if start.None? || end.None? then None
        else
          var sl, sc := NumberAt(start.value, "line"), NumberAt(start.value, "character");
          var el, ec := NumberAt(end.value, "line"), NumberAt(end.value, "character");
          if sl.None? || sc.None? || el.None? || ec.None? then None
          else Some(Location(uri.value, UriToPath(uri.value), TruncToInt(sl.value) + 1, TruncToInt(sc.value) + 1,
                             TruncToInt(el.value) + 1, TruncToInt(ec.value) + 1))
    case _ => None
  }

  /** The `which` object ("start" or "end") of an entry's range, when the entry has one. */
  function RangeEnd(j: Json, which: string): Option<map<string, Json>> {
    if j.JObj? && ObjectAt(j.fields, "range").Some? then ObjectAt(ObjectAt(j.fields, "range").value, which) else None
  }

  /** The numeric `key` field of the `which` object of an entry's range, when there is one. */
  function Coordinate(j: Json, which: string, key: string): Option<real> {
    if RangeEnd(j, which).Some? then NumberAt(RangeEnd(j, which).value, key) else None
  }

  /**
   * An entry is kept iff it is an object with a string uri and numeric line
   * and character fields in the start and end objects of its range, whatever
   * other fields it carries; the location it gives has that uri, the path
   * uriToPath gives, and each coordinate truncated and made 1-based.
   */
  lemma RefOfFields(j: Json)
    ensures RefOf(j).Some? <==>
              j.JObj? && StringAt(j.fields, "uri").Some? &&
              Coordinate(j, "start", "line").Some? && Coordinate(j, "start", "character").Some? &&
              Coordinate(j, "end", "line").Some? && Coordinate(j, "end", "character").Some?
    ensures RefOf(j).Some? ==>
              RefOf(j).value == Location(StringAt(j.fields, "uri").value, UriToPath(StringAt(j.fields, "uri").value),
                                         TruncToInt(Coordinate(j, "start", "line").value) + 1,
                                         TruncToInt(Coordinate(j, "start", "character").value) + 1,
                                         TruncToInt(Coordinate(j, "end", "line").value) + 1,
                                         TruncToInt(Coordinate(j, "end", "character").value) + 1)
  {
  }

  /** A protocol position object. */
  function PositionJson(line: int, character: int): Json {
    JObj(map["line" := JNum(line as real), "character" := JNum(character as real)])
  }

  /** A protocol location object, with 0-based positions. */
  function LocationJson(uri: string, startLine: int, startCharacter: int, endLine: int, endCharacter: int): Json {
    JObj(map["uri" := JStr(uri),
             "range" := JObj(map["start" := PositionJson(startLine, startCharacter),
                                 "end" := PositionJson(endLine, endCharacter)])])
  }

  /** A well-formed entry is kept, with every coordinate one more than the protocol's. */
  lemma RefOfLocationJson(uri: string, startLine: int, startCharacter: int, endLine: int, endCharacter: int)
    ensures RefOf(LocationJson(uri, startLine, startCharacter, endLine, endCharacter)) ==
            Some(Location(uri, UriToPath(uri), startLine + 1, startCharacter + 1, endLine + 1, endCharacter + 1))
  {
    TruncOfInt(startLine);
    TruncOfInt(startCharacter);
    TruncOfInt(endLine);
    TruncOfInt(endCharacter);
  }

  /** An entry without its uri, or whose uri is not a string, is skipped. */
  lemma RefWithoutUri(ref: map<string, Json>)
    requires "uri" !in ref || !ref["uri"].JStr?
    ensures RefOf(JObj(ref)).None?
  {
  }

  /** An entry whose range lacks a numeric start line is skipped. */
  lemma RefWithoutStartLine(ref: map<string, Json>, range: map<string, Json>, start: map<string, Json>)
    requires "range" in ref && ref["range"] == JObj(range)
    requires "start" in range && range["start"] == JObj(start)
    requires "line" !in start || !start["line"].JNum?
    ensures RefOf(JObj(ref)).None?
  {
  }

  /** The kept entries of a reply, in reply order. */
  function Kept(items: seq<Json>): (r: seq<Location>)
    ensures |r| <= |items|
  {
    if items == [] then []
    else Kept(items[..|items| - 1]) + (match RefOf(items[|items| - 1]) case Some(l) => [l] case None => [])
  }

  lemma {:induction false} KeptConcat(a: seq<Json>, b: seq<Json>)
    ensures Kept(a + b) == Kept(a) + Kept(b)
    decreases |b|
  {
    if b == [] {
      assert a + b == a;
    } else {
      assert (a + b)[..|a + b| - 1] == a + b[..|b| - 1];
      KeptConcat(a, b[..|b| - 1]);
    }
  }

  /** The values `f` yields on `xs`, in order, skipping the elements it maps to None. */
  function Present<A, B>(f: A -> Option<B>, xs: seq<A>): seq<B> {
    if xs == [] then []
    else Present(f, xs[..|xs| - 1]) + (match f(xs[|xs| - 1]) case Some(y) => [y] case None => [])
  }

  lemma {:induction false} PresentMembership<A, B>(f: A -> Option<B>, xs: seq<A>, y: B)
    ensures y in Present(f, xs) <==> exists i | 0 <= i < |xs| :: f(xs[i]) == Some(y)
  {
    if xs != [] {
      var init, last := xs[..|xs| - 1], xs[|xs| - 1];
      PresentMembership(f, init, y);
      if y in Present(f, init) {
        var i :| 0 <= i < |init| && f(init[i]) == Some(y);
        assert xs[i] == init[i];
      } else if f(last) == Some(y) {
        assert xs[|xs| - 1] == last;
      } else {
        forall i | 0 <= i < |xs| ensures f(xs[i]) != Some(y) {
          if i < |init| {
            assert xs[i] == init[i];
          }
        }
      }
    }
  }

  lemma {:induction false} KeptIsPresent(items: seq<Json>)
    ensures Kept(items) == Present(RefOf, items)
  {
    if items != [] {
      KeptIsPresent(items[..|items| - 1]);
    }
  }

  /** A location is reported exactly when some entry of the reply converts to it. */
  lemma KeptMembership(items: seq<Json>, l: Location)
    ensures l in Kept(items) <==> exists i | 0 <= i < |items| :: RefOf(items[i]) == Some(l)
  {
    KeptIsPresent(items);
    PresentMembership(RefOf, items, l);
  }

  /** parseReferences */
  function References(resp: Message): (r: Result<seq<Location>, GoplsError>)
    ensures "result" !in resp ==> r == Err(NoReferences)
    ensures "result" in resp && !resp["result"].JArr? ==> r == Err(InvalidReferencesFormat)
  {
    if "result" !in resp then Err(NoReferences)
    else match resp["result"]
      case JArr(items) => Ok(Kept(items))
      case _ => Err(InvalidReferencesFormat)
  }

  /** The reply awaited for references request `id`, converted to locations, and the input left. */
  function ReferencesReply(codec: Codec, input: Bytes, id: int): (Result<seq<Location>, GoplsError>, Bytes) {
    var (reply, rest) := Await(codec, input, id);
    (if reply.Err? then Err(reply.error) else References(reply.value), rest)
  }

  /** The loop of parseReferences, appending each well-formed entry in turn. */
  method ParseReferences(resp: Message) returns (r: Result<seq<Location>, GoplsError>)
    ensures r == References(resp)
  {
    if "result" !in resp {
      return Err(NoReferences);
    }
    var result := resp["result"];
    if !result.JArr? {
      return Err(InvalidReferencesFormat);
    }
    var refs := result.items;
    var matches: seq<Location> := [];
    for i := 0 to |refs|
      invariant matches == Kept(refs[..i])
    {
      assert refs[..i + 1][..i] == refs[..i];
      var m := RefOf(refs[i]);
      if m.Some? {
        matches := matches + [m.value];
      }
    }
    assert refs[..|refs|] == refs;
    return Ok(matches);
  }

  // ---------------------------------------------------------------------
  // The client

  class Client {
    /** The last id handed out. */
    var lastSeq: int
    /** What the server has written and the client has not read yet. */
    var input: Bytes
    /** Everything the client has written to the server. */
    var output: Bytes
    const codec: Codec

    constructor(serverOutput: Bytes, codec: Codec)
      ensures lastSeq == 0 && input == serverOutput && output == [] && this.codec == codec
    {
      lastSeq := 0;
      input := serverOutput;
      output := [];
      this.codec := codec;
    }

    /** getSeq: ids are handed out 1, 2, 3, ... */
    method GetSeq() returns (id: int)
      modifies this
      ensures id == old(lastSeq) + 1 && lastSeq == id
      ensures input == old(input) && output == old(output)
    {
      lastSeq := lastSeq + 1;
      return lastSeq;
    }

    /** sendMessage */
    method SendMessage(msg: Message)
      modifies this
      ensures output == old(output) + Frame(codec.encode(msg))
      ensures lastSeq == old(lastSeq) && input == old(input)
    {
      var data := codec.encode(msg);
      var header := LengthLine(|data|) + [CR, LF];
      output := output + header + data;
    }

    /** The header loop of readMessage: lines up to the blank one, later names overriding earlier ones. */
    method ReadHeaderLines() returns (r: Result<map<string, string>, FrameError>)
      modifies this
      ensures (r, input) == ReadHeaders(old(input), map[])
      ensures lastSeq == old(lastSeq) && output == old(output)
    {
      var headers: map<string, string> := map[];
      while true
        invariant ReadHeaders(old(input), map[]) == ReadHeaders(input, headers)
        invariant lastSeq == old(lastSeq) && output == old(output)
        decreases |input|
      {
        var next := NextLine(input);
        if next.None? {
          input := [];
          return Err(Eof);
        }
        var (lineBytes, rest) := next.value;
        input := rest;
        var line := TrimSpace(Chars(lineBytes));
        if line == "" {
          return Ok(headers);
        }
        var parts := Cut(line, ':');
        if parts.None? {
          return Err(InvalidHeaderLine(line));
        }
        headers := headers[TrimSpace(parts.value.0) := TrimSpace(parts.value.1)];
      }
    }

    /** The part of readMessage after the header loop: Content-Length, then the body bytes. */
    method ReadContent(headers: map<string, string>) returns (r: Result<Bytes, FrameError>)
      modifies this
      ensures (r, input) == ReadBody(headers, old(input))
      ensures lastSeq == old(lastSeq) && output == old(output)
    {
      if ContentLengthName !in headers {
        return Err(MissingContentLength);
      }
      var contentLengthStr := headers[ContentLengthName];
      var contentLength := Atoi(contentLengthStr);
      if contentLength.None? {
        return Err(InvalidContentLength(contentLengthStr));
      }
      var n := contentLength.value;
      if n < 0 {
        return Err(NegativeContentLength(n));
      }
      if |input| < n {
        input := [];
        return Err(Eof);
      }
      var content := input[..n];
      input := input[n..];
      return Ok(content);
    }

    /** readMessage: the header loop, the body, then its decoding. */
    method ReadMessage() returns (r: Result<Message, GoplsError>)
      modifies this
      ensures (r, input) == ReceiveMessage(codec, old(input))
      ensures lastSeq == old(lastSeq) && output == old(output)
    {
      var headers := ReadHeaderLines();
      if headers.Err? {
        return Err(FrameFailed(headers.error));
      }
      var content := ReadContent(headers.value);
      if content.Err? {
        return Err(FrameFailed(content.error));
      }
      var msg := codec.decode(content.value);
      if msg.None? {
        return Err(DecodeFailed);
      }
      return Ok(msg.value);
    }

    /** The wait loop shared by FindReferences and Close. */
    method AwaitReply(want: int) returns (r: Result<Message, GoplsError>)
      modifies this
      ensures (r, input) == Await(codec, old(input), want)
      ensures lastSeq == old(lastSeq) && output == old(output)
    {
      while true
        invariant Await(codec, old(input), want) == Await(codec, input, want)
        invariant lastSeq == old(lastSeq) && output == old(output)
        decreases |input|
      {
        ghost var before := input;
        var resp := ReadMessage();
        if resp.Err? {
          return Err(resp.error);
        }
        var matches := IdMatches(resp.value, want);
        if matches.Err? {
          return Err(matches.error);
        }
        if matches.value {
          return Ok(resp.value);
        }
        assert |input| < |before|;
      }
    }

    /**
     * initialize: the initialize request, one message read whatever its id,
     * then the initialized and didChangeConfiguration notifications.
     */
    method Initialize(projectRoot: string) returns (r: Outcome<GoplsError>)
      modifies this
      ensures lastSeq == old(lastSeq) + 1
      ensures var (reply, rest) := ReceiveMessage(codec, old(input));
              input == rest && (r.Pass? <==> reply.Ok?) && (reply.Err? ==> r == Fail(reply.error))
      ensures r.Fail? ==> output == old(output) + Frame(codec.encode(InitializeRequest(lastSeq, projectRoot)))
      ensures r.Pass? ==> output == old(output) + Frame(codec.encode(InitializeRequest(lastSeq, projectRoot))) +
                                    Frame(codec.encode(InitializedNotification)) +
                                    Frame(codec.encode(DidChangeConfigurationNotification))
    {
      var id := GetSeq();
      SendMessage(InitializeRequest(id, projectRoot));
      var reply := ReadMessage();
      if reply.Err? {
        return Fail(reply.error);
      }
      SendMessage(InitializedNotification);
      SendMessage(DidChangeConfigurationNotification);
      return Pass;
    }

    /** FindReferences: send the request, wait for its reply, convert the reply. */
    method FindReferences(filename: string, line: int, character: int) returns (r: Result<seq<Location>, GoplsError>)
      modifies this
      ensures lastSeq == old(lastSeq) + 1
      ensures output == old(output) + Frame(codec.encode(ReferencesRequest(lastSeq, filename, line, character)))
      ensures (r, input) == ReferencesReply(codec, old(input), lastSeq)
    {
      var id := GetSeq();
      SendMessage(ReferencesRequest(id, filename, line, character));
      var reply := AwaitReply(id);
      if reply.Err? {
        return Err(reply.error);
      }
      r := ParseReferences(reply.value);
    }

    /** Close: shutdown, wait for its reply, then exit. */
    method Close() returns (r: Outcome<GoplsError>)
      modifies this
      ensures lastSeq == old(lastSeq) + 1
      ensures var (reply, rest) := Await(codec, old(input), lastSeq);
              input == rest && (r.Pass? <==> reply.Ok?) && (reply.Err? ==> r == Fail(reply.error))
      ensures r.Fail? ==> output == old(output) + Frame(codec.encode(ShutdownRequest(lastSeq)))
      ensures r.Pass? ==> output == old(output) + Frame(codec.encode(ShutdownRequest(lastSeq))) +
                                    Frame(codec.encode(ExitNotification))
    {
      var id := GetSeq();
      SendMessage(ShutdownRequest(id));
      var reply := AwaitReply(id);
      if reply.Err? {
        return Fail(reply.error);
      }
      SendMessage(ExitNotification);
      return Pass;
    }
  }

  /**
   * NewGoplsClient, once the server is running: the root made absolute by
   * `abs` (filepath.Abs, None when it fails), a fresh client, then initialize
   * under the absolute root.
   */
  method NewClient(projectRoot: string, abs: string -> Option<string>, serverOutput: Bytes, codec: Codec)
    returns (r: Result<Client, GoplsError>)
    ensures abs(projectRoot).None? ==> r == Err(AbsFailed(projectRoot))
    ensures abs(projectRoot).Some? ==>
              var (reply, rest) := ReceiveMessage(codec, serverOutput);
              (r.Ok? <==> reply.Ok?) && (reply.Err? ==> r == Err(reply.error)) &&
              (r.Ok? ==> r.value.input == rest)
    ensures r.Ok? ==> abs(projectRoot).Some? && fresh(r.value) && r.value.lastSeq == 1 && r.value.codec == codec &&
                      r.value.output == Frame(codec.encode(InitializeRequest(1, abs(projectRoot).value))) +
                                        Frame(codec.encode(InitializedNotification)) +
                                        Frame(codec.encode(DidChangeConfigurationNotification))
  {
    var root := abs(projectRoot);
    if root.None? {
      return Err(AbsFailed(projectRoot));
    }
    var client := new Client(serverOutput, codec);
    var init := client.Initialize(root.value);
    if init.Fail? {
      return Err(init.error);
    }
    ghost var first := Frame(codec.encode(InitializeRequest(1, root.value)));
    assert [] + first == first;
    return Ok(client);
  }
}
