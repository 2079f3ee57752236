/** lib/jsv.js: the interface to the JSON Schema Validator engine and the
    construction of one aggregated error from the engine's error list. */
module Jsv {
  import opened Wrappers
  import opened JsonValue
  import opened Text
  import Uri

  /** One error reported by the engine. `details` is `None` when the engine
      leaves it undefined. */
  datatype EngineError = EngineError(message: string, details: Option<Json>, uri: string)

  /** The engine environment created once at load time: `validate(instance,
      schema)` returns the errors of the report, in order; `defaultSchema` is
      the JSON Schema meta-schema. The engine is not part of this model. */
  datatype Environment = Environment(validate: (Json, Json) -> seq<EngineError>, defaultSchema: Json)

  /** A JavaScript `Error` object: its `name` and its `message`. */
  datatype Error = Error(name: string, message: string)

  /** The line separator `os.EOL`, fixed to the POSIX value. */
  const Eol: string := "\n"
  const ValidationErrorName: string := "ValidationError"
  const ValidationFailed: string := "Schema validation failed."
  const InvalidSchema: string := "Invalid JSON schema."

  /** `uri.substring(uri.indexOf('#') + 1)`: the text after the first '#', or
      the whole URI when it has none. */
  function Fragment(uri: string): (fragment: string)
    ensures |fragment| <= |uri| && fragment == uri[|uri| - |fragment|..]
  {
    uri[IndexOf(uri, '#') + 1..]
  }

  /** Without a '#', the fragment is the whole URI; with one, it is what
      follows the first '#'. */
  lemma FragmentFollowsFirstHash(uri: string)
    ensures '#' !in uri ==> Fragment(uri) == uri
    ensures '#' in uri ==>
      var h := |uri| - |Fragment(uri)| - 1;
      0 <= h && uri[h] == '#' && '#' !in uri[..h] && uri[h + 1..] == Fragment(uri)
  {
    IndexOfFirst(uri, '#');
  }

  /** `fragment.split('/')` with its first (root) segment shifted off. */
  function PathSegments(fragment: string): (segments: seq<string>)
    ensures |segments| == Count(fragment, '/')
  {
    Split(fragment, '/')[1..]
  }

  /** propertyName: the dotted, decoded property path named by the URI's fragment. */
  function PropertyName(uri: string): string
  {
    Uri.DecodeUri(Join(PathSegments(Fragment(uri)), "."))
  }

  /** Whether errorMessage appends the details: `typeof details` is "string",
      "number" or "object" (so `null` counts, `undefined` and booleans do not). */
  predicate HasDetails(details: Option<Json>)
  {
    var t := TypeOf(details);
    t == "string" || t == "number" || t == "object"
  }

  /** `util.format('%s', v)`: strings as they are, `null` as "null", anything
      else through the host's formatter `show`, which is not modelled. */
  function FormatValue(v: Json, show: Json -> string): string
  {
    match v
    case JStr(s) => s
    case JNull => "null"
    case _ => show(v)
  }

  /** The ` (details)` part of an error line: present exactly when HasDetails. */
  function DetailsPart(details: Option<Json>, show: Json -> string): (part: string)
    ensures part == "" <==> !HasDetails(details)
    ensures part != "" ==> |part| >= 3 && part[..2] == " (" && part[|part| - 1] == ')'
  {
    if HasDetails(details) then " (" + FormatValue(details.value, show) + ")" else ""
  }

  /** The `: name` part of an error line, present when the property name is
      not empty (ErrorMessageParts). */
  function NamePart(uri: string): string
  {
    var name := PropertyName(uri);
    if name != "" then ": " + name else ""
  }

  /** errorMessage: the engine's message, then the details part, then the
      name part. */
  function ErrorMessage(e: EngineError, show: Json -> string): string
  {
    e.message + DetailsPart(e.details, show) + NamePart(e.uri)
  }

  /** errorMessage as a function value, for the layout of the message lines. */
  function Renderer(show: Json -> string): EngineError -> string
  {
    e => ErrorMessage(e, show)
  }

  /** The summary line, then one line per engine error in report order, each
      written by `render`. */
  function Lines(summary: string, errors: seq<EngineError>, render: EngineError -> string): seq<string>
  {
    [summary] + seq(|errors|, i requires 0 <= i < |errors| => render(errors[i]))
  }

  /** Taking one more engine error adds its line at the end. */
  lemma LinesExtend(summary: string, errors: seq<EngineError>, i: nat, render: EngineError -> string)
    requires i < |errors|
    ensures Lines(summary, errors[..i + 1], render) == Lines(summary, errors[..i], render) + [render(errors[i])]
  {
    var longer, shorter := Lines(summary, errors[..i + 1], render), Lines(summary, errors[..i], render);
    forall j | 0 < j <= i
      ensures longer[j] == shorter[j]
    {
      assert errors[..i + 1][j - 1] == errors[..i][j - 1];
    }
  }

  /** The lines of the aggregated message. */
  function Messages(summary: string, errors: seq<EngineError>, show: Json -> string): seq<string>
  {
    Lines(summary, errors, Renderer(show))
  }

  /** The error that error(summary, errors) creates. */
  function AggregateError(summary: string, errors: seq<EngineError>, show: Json -> string): Error
  {
    Error(ValidationErrorName, Join(Messages(summary, errors, show), Eol))
  }

  /** error(message, errors): collects the lines one engine error at a time
      and joins them with the line separator. */
  method MakeError(summary: string, errors: seq<EngineError>, show: Json -> string) returns (err: Error)
    ensures err == AggregateError(summary, errors, show)
  {
    var messages := [summary];
    var i := 0;
    assert messages == Messages(summary, errors[..0], show);
    while i < |errors|
      invariant 0 <= i <= |errors|
      invariant messages == Messages(summary, errors[..i], show)
    {
      LinesExtend(summary, errors, i, Renderer(show));
      messages := messages + [ErrorMessage(errors[i], show)];
      i := i + 1;
    }
    assert errors[..i] == errors;
    err := Error(ValidationErrorName, Join(messages, Eol));
  }

  /** validate: throws the aggregated error iff the engine reports any error,
      and otherwise returns the instance it was given. */
  method Validate(env: Environment, show: Json -> string, instance: Json, schema: Json)
    returns (r: Result<Json, Error>)
    ensures r.Err? <==> |env.validate(instance, schema)| > 0
    ensures r.Ok? ==> r.value == instance
    ensures r.Err? ==> r.error == AggregateError(ValidationFailed, env.validate(instance, schema), show)
  {
    var errors := env.validate(instance, schema);
    if |errors| > 0 {
      var err := MakeError(ValidationFailed, errors, show);
      return Err(err);
    }
    return Ok(instance);
  }

  /** check: validates the schema against the engine's meta-schema; throws the
      aggregated error iff there are errors and returns nothing otherwise. */
  method Check(env: Environment, show: Json -> string, schema: Json) returns (r: Outcome<Error>)
    ensures r.Fail? <==> |env.validate(schema, env.defaultSchema)| > 0
    ensures r.Fail? ==> r.error == AggregateError(InvalidSchema, env.validate(schema, env.defaultSchema), show)
  {
    var errors := env.validate(schema, env.defaultSchema);
    if |errors| > 0 {
      var err := MakeError(InvalidSchema, errors, show);
      return Fail(err);
    }
    return Pass;
  }

  // Properties of the aggregated message

  /** When no part holds a line break, the message has exactly 1 + n lines: the
      summary and then each engine error's line, in report order. */
  lemma AggregateLines(summary: string, errors: seq<EngineError>, show: Json -> string)
    requires '\n' !in summary
    requires forall i :: 0 <= i < |errors| ==> '\n' !in ErrorMessage(errors[i], show)
    ensures var err := AggregateError(summary, errors, show);
      err.name == "ValidationError" && Split(err.message, '\n') == Messages(summary, errors, show)
    ensures |Split(AggregateError(summary, errors, show).message, '\n')| == 1 + |errors|
  {
    var render := Renderer(show);
    forall i | 0 <= i < |errors| ensures '\n' !in render(errors[i]) {
      assert render(errors[i]) == ErrorMessage(errors[i], show);
    }
    LinesSplit(summary, errors, render, '\n');
  }

  /** Lines free of the separator come back from a join and a split. */
  lemma LinesSplit(summary: string, errors: seq<EngineError>, render: EngineError -> string, c: char)
    requires c !in summary
    requires forall i :: 0 <= i < |errors| ==> c !in render(errors[i])
    ensures Split(Join(Lines(summary, errors, render), [c]), c) == Lines(summary, errors, render)
    ensures |Lines(summary, errors, render)| == 1 + |errors|
  {
    var lines := Lines(summary, errors, render);
    forall i | 0 <= i < |lines| ensures c !in lines[i] {
      if i > 0 {
        assert lines[i] == render(errors[i - 1]);
      }
    }
    SplitJoin(lines, c);
  }

  /** Every error line starts with the engine's message, carries
      ` (details)` exactly when HasDetails, ends in `: name` when the property
      name is not empty, and is the bare message when neither applies. */
  lemma ErrorMessageParts(e: EngineError, show: Json -> string)
    ensures var line := ErrorMessage(e, show);
      |e.message| <= |line| && line[..|e.message|] == e.message
    ensures var line := ErrorMessage(e, show);
      HasDetails(e.details) <==> |line| >= |e.message| + 2 && line[|e.message|..|e.message| + 2] == " ("
    ensures var line, name := ErrorMessage(e, show), PropertyName(e.uri);
      name != "" ==> |line| >= |name| + 2 && line[|line| - |name| - 2..] == ": " + name
    ensures !HasDetails(e.details) && PropertyName(e.uri) == "" ==> ErrorMessage(e, show) == e.message
  {
    var detailsPart, namePart := DetailsPart(e.details, show), NamePart(e.uri);
    if namePart != "" {
      assert namePart == ": " + PropertyName(e.uri);
      assert namePart[..2] == ": ";
    }
    LineLayout(e.message, detailsPart, namePart);
    if detailsPart == "" && namePart == "" {
      assert e.message + detailsPart + namePart == e.message;
    }
  }

  /** The layout of `message + detailsPart + namePart` on which
      ErrorMessageParts rests. */
  lemma LineLayout(message: string, detailsPart: string, namePart: string)
    requires detailsPart == "" || (|detailsPart| >= 2 && detailsPart[..2] == " (")
    requires namePart == "" || (|namePart| >= 2 && namePart[..2] == ": ")
    ensures var line := message + detailsPart + namePart;
      line[..|message|] == message
      && (detailsPart != "" <==> |line| >= |message| + 2 && line[|message|..|message| + 2] == " (")
      && line[|line| - |namePart|..] == namePart
  {
    var line := message + detailsPart + namePart;
    assert line[..|message|] == message;
    assert line[|line| - |namePart|..] == namePart;
    if detailsPart == "" && namePart != "" {
      assert line[|message|..|message| + 2] == namePart[..2];
    }
    if detailsPart != "" {
      assert line[|message|..|message| + 2] == detailsPart[..2];
    }
  }

  /** A string detail is rendered as itself in parentheses, a number through
      the host's formatter, `null` as ` (null)`. */
  lemma DetailsRendering(message: string, uri: string, show: Json -> string, s: string, n: real)
    requires PropertyName(uri) == ""
    ensures ErrorMessage(EngineError(message, Some(JStr(s)), uri), show) == message + " (" + s + ")"
    ensures ErrorMessage(EngineError(message, Some(JNum(n)), uri), show) == message + " (" + show(JNum(n)) + ")"
    ensures ErrorMessage(EngineError(message, Some(JNull), uri), show) == message + " (null)"
  {
    PresentDetailsLine(message, JStr(s), uri, show);
    PresentDetailsLine(message, JNum(n), uri, show);
    PresentDetailsLine(message, JNull, uri, show);
  }

  /** Without a property name, a detail that is shown gives `message (detail)`. */
  lemma PresentDetailsLine(message: string, v: Json, uri: string, show: Json -> string)
    requires PropertyName(uri) == "" && HasDetails(Some(v))
    ensures ErrorMessage(EngineError(message, Some(v), uri), show) == message + " (" + FormatValue(v, show) + ")"
  {
    UnnamedLine(message, Some(v), uri, show);
    assert message + DetailsPart(Some(v), show) == message + (" (" + FormatValue(v, show) + ")");
  }

  /** Undefined and boolean details are left out of the line. */
  lemma DetailsOmitted(message: string, uri: string, show: Json -> string, b: bool)
    requires PropertyName(uri) == ""
    ensures ErrorMessage(EngineError(message, None, uri), show) == message
    ensures ErrorMessage(EngineError(message, Some(JBool(b)), uri), show) == message
  {
    UnnamedLine(message, None, uri, show);
    UnnamedLine(message, Some(JBool(b)), uri, show);
    assert message + "" == message;
  }

  /** Without a property name, the line is the message and the details part. */
  lemma UnnamedLine(message: string, details: Option<Json>, uri: string, show: Json -> string)
    requires PropertyName(uri) == ""
    ensures ErrorMessage(EngineError(message, details, uri), show) == message + DetailsPart(details, show)
  {
    assert NamePart(uri) == "";
    assert message + DetailsPart(details, show) + "" == message + DetailsPart(details, show);
  }

  // Properties of the property name

  /** Joined back with '/', the segments give the fragment after its first '/'. */
  lemma {:induction false} SegmentsRejoin(fragment: string)
    requires '/' in fragment
    ensures fragment == fragment[..IndexOf(fragment, '/') + 1] + Join(PathSegments(fragment), "/")
  {
    IndexOfFirst(fragment, '/');
    var i := IndexOf(fragment, '/');
    var head, tail := fragment[..i], fragment[i + 1..];
    assert fragment == head + ['/'] + tail;
    SplitAfterPiece(head, '/', tail);
    JoinSplit(tail, '/');
    assert PathSegments(fragment) == Split(tail, '/');
    assert fragment[..i + 1] == head + ['/'];
  }

  /** The name is empty exactly when the fragment has no segment after the root
      or a single empty one (`#`, `#/`, a fragment without '/'). */
  lemma NameEmpty(uri: string)
    ensures var segments := PathSegments(Fragment(uri));
      PropertyName(uri) == "" <==> segments == [] || segments == [""]
  {
    JoinEmpty(PathSegments(Fragment(uri)), ".");
  }

  /** The fragment of `base#rest`, when `base` has no '#', is `rest`. */
  lemma FragmentAfterFirstHash(uri: string, base: string, rest: string)
    requires uri == base + "#" + rest
    requires '#' !in base
    ensures Fragment(uri) == rest
  {
    var i := IndexOf(uri, '#');
    IndexOfFirst(uri, '#');
    assert uri[|base|] == '#';
    assert forall j :: 0 <= j < |base| ==> uri[j] == base[j];
    assert forall j :: 0 <= j < i ==> uri[..i][j] == uri[j];
    assert i == |base|;
    assert uri[|base| + 1..] == rest;
  }

  /** A URI built from a property path (no '/' or '%' in any segment) names
      that path, joined with '.'. */
  lemma NameOfPath(base: string, path: seq<string>)
    requires '#' !in base
    requires |path| >= 1
    requires forall i :: 0 <= i < |path| ==> '/' !in path[i] && '%' !in path[i]
    ensures PropertyName(base + "#/" + Join(path, "/")) == Join(path, ".")
  {
    var uri := base + "#/" + Join(path, "/");
    HashSlash(base, Join(path, "/"));
    SegmentsOfUri(uri, base, path);
    NameOfSegments(uri, path);
  }

  /** The segments of `base#/a/b/...` are `a`, `b`, ... */
  lemma SegmentsOfUri(uri: string, base: string, path: seq<string>)
    requires uri == base + "#" + ("/" + Join(path, "/"))
    requires '#' !in base
    requires |path| >= 1
    requires forall i :: 0 <= i < |path| ==> '/' !in path[i]
    ensures PathSegments(Fragment(uri)) == path
  {
    FragmentAfterFirstHash(uri, base, "/" + Join(path, "/"));
    SegmentsOfPointer(path);
  }

  lemma HashSlash(base: string, pointer: string)
    ensures base + "#/" + pointer == base + "#" + ("/" + pointer)
  {
  }

  /** A URI whose segments have no '%' names them joined with '.'. */
  lemma NameOfSegments(uri: string, path: seq<string>)
    requires PathSegments(Fragment(uri)) == path
    requires forall i :: 0 <= i < |path| ==> '%' !in path[i]
    ensures PropertyName(uri) == Join(path, ".")
  {
    JoinFree(path, ".", '%');
    Uri.DecodeWithoutPercent(Join(path, "."));
  }

  /** The segments of `/a/b/...` are `a`, `b`, ... */
  lemma SegmentsOfPointer(path: seq<string>)
    requires |path| >= 1
    requires forall i :: 0 <= i < |path| ==> '/' !in path[i]
    ensures PathSegments("/" + Join(path, "/")) == path
  {
    var pointer := Join(path, "/");
    SplitAfterPiece("", '/', pointer);
    assert "" + ['/'] + pointer == "/" + pointer;
    SplitJoin(path, '/');
  }

  /** The example the source's comments give: `#/foo/bar` names `foo.bar`. */
  lemma NamedExample()
    ensures PropertyName("#/foo/bar") == "foo.bar"
  {
    var path := ["foo", "bar"];
    assert path[1..] == ["bar"];
    assert Join(path, "/") == "foo/bar";
    assert Join(path, ".") == "foo.bar";
    assert "" + "#/" + "foo/bar" == "#/foo/bar";
    NameOfPath("", path);
  }

  /** A fragment without '/' names nothing. */
  lemma NoSlashNoName(uri: string)
    requires '/' !in Fragment(uri)
    ensures PropertyName(uri) == ""
  {
    SplitNoSeparator(Fragment(uri), '/');
    NameEmpty(uri);
  }

  /** A fragment whose only '/' is its last character names nothing. */
  lemma TrailingSlashNoName(uri: string, head: string)
    requires Fragment(uri) == head + "/" && '/' !in head
    ensures PropertyName(uri) == ""
  {
    SplitAfterPiece(head, '/', "");
    assert head + ['/'] + "" == head + "/";
    NameEmpty(uri);
  }
}
