/** `generate_response` and `process_single_action`: one call to the
    text-generation backend per action, and the recovery of a JSON value
    from the text it returns. The backend, the prompt template and the JSON
    parser are given from outside. */
module Translation {
  import opened Wrappers
  import opened Text
  import opened ActionExtractor

  /** A JSON value, as `json.loads` returns it. Numbers keep their literal
      text, so that no floating point is involved. */
  datatype Json =
    | Null
    | Bool(b: bool)
    | Number(literal: string)
    | Str(s: string)
    | Array(items: seq<Json>)
    | Object(members: seq<(string, Json)>)

  /** What one call of `json.loads` does: return a value, raise
      `JSONDecodeError`, or raise some other exception (`RecursionError` on
      very deep nesting). */
  datatype ParseOutcome = Parsed(value: Json) | DecodeError(msg: string) | OtherError(msg: string)

  /** The collaborators of the engine: the prompt built from an action, the
      model call (`None` when it raises), and the JSON parser. */
  datatype Engine = Engine(
    prompt: ActionData -> string,
    backend: string -> Option<string>,
    parse: string -> ParseOutcome)

  /** The result of translating one action: the parsed JSON, or the error
      record `{error, original_action}`. */
  datatype Translated = Ok(json: Json) | Err(error: string, originalAction: ActionData)

  const ErrorPrefix := "No se pudo generar una traducción válida: "

  /** `json.loads('{}') == {}` */
  ghost predicate ParsesEmptyObject(parse: string -> ParseOutcome) {
    parse("{}") == Parsed(Object([]))
  }

  /** `generate_response`: the stripped backend output, or `""` when the
      backend raises. */
  function GenerateResponse(backend: string -> Option<string>, prompt: string): (r: string)
    ensures IsStripped(r)
    ensures backend(prompt).None? ==> r == ""
    ensures backend(prompt).Some? ==> r == Strip(backend(prompt).value)
  {
    match backend(prompt)
    case None => ""
    case Some(raw) => Strip(raw)
  }

  /** `json_str` before the first parse: `"{"` followed by the text after
      the first `{` of the response (the whole response if it has none),
      closed with `}` unless it already ends with one. */
  function Repair(response: string): (r: string)
    ensures |r| >= 2 && r[0] == '{' && r[|r| - 1] == '}'
  {
    var parts := SplitFirst(response, '{');
    var jsonStr := "{" + parts[|parts| - 1];
    if EndsWith(jsonStr, '}') then jsonStr else jsonStr + "}"
  }

  /** The text the repair keeps: everything after the first `{`, or the
      whole response when it has none. */
  function AfterFirstBrace(response: string): (r: string) {
    if '{' in response then response[IndexOf(response, '{') + 1..] else response
  }

  /** The repaired text in terms of the response alone. */
  lemma RepairContent(response: string)
    ensures Repair(response) ==
      "{" + AfterFirstBrace(response) + (if EndsWith(AfterFirstBrace(response), '}') then "" else "}")
  {
    var parts := SplitFirst(response, '{');
    var body := AfterFirstBrace(response);
    if '{' in response {
      var i := IndexOf(response, '{');
      assert parts == [response[..i], response[i + 1..]];
    }
    assert parts[|parts| - 1] == body;
    assert EndsWith("{" + body, '}') <==> EndsWith(body, '}');
  }

  /** Repairing an already repaired text changes nothing. */
  lemma RepairIdempotent(response: string)
    ensures Repair(Repair(response)) == Repair(response)
  {
    var r := Repair(response);
    assert IndexOf(r, '{') == 0;
    RepairContent(r);
    assert r == "{" + r[1..];
  }

  /** The second parse sees the same text without its line breaks; braces
      are kept, so it still starts with `{` and ends with `}`. */
  lemma RetryKeepsBraces(response: string)
    ensures var retry := StripLineBreaks(Repair(response));
      |retry| >= 2 && retry[0] == '{' && retry[|retry| - 1] == '}'
  {
    var r := Repair(response);
    var mid := r[1..|r| - 1];
    assert r == "{" + mid + "}";
    StripLineBreaksConcat("{" + mid, "}");
    StripLineBreaksConcat("{", mid);
    StripLineBreaksAbsent("{");
    StripLineBreaksAbsent("}");
  }

  /** The parse with its one retry: a `JSONDecodeError` on the repaired text
      leads to a second parse of the text without line breaks; any other
      outcome of the first parse is final. It succeeds exactly when one of
      the two parses returns a value, that value is the result, and a
      failure reports the message of the parse that failed last. */
  function ParseWithRetry(parse: string -> ParseOutcome, jsonStr: string): (r: Result<Json, string>)
    ensures r.Success? <==>
      parse(jsonStr).Parsed? || (parse(jsonStr).DecodeError? && parse(StripLineBreaks(jsonStr)).Parsed?)
    ensures r.Success? ==>
      parse(jsonStr) == Parsed(r.value) ||
      (parse(jsonStr).DecodeError? && parse(StripLineBreaks(jsonStr)) == Parsed(r.value))
    ensures r.Failure? ==>
      r.error == (if parse(jsonStr).DecodeError? then parse(StripLineBreaks(jsonStr)).msg else parse(jsonStr).msg)
  {
    match parse(jsonStr)
    case Parsed(j) => Success(j)
    case OtherError(m) => Failure(m)
    case DecodeError(_) =>
      match parse(StripLineBreaks(jsonStr))
      case Parsed(j) => Success(j)
      case DecodeError(m) => Failure(m)
      case OtherError(m) => Failure(m)
  }

  /** `process_single_action`: never raises; a failure to recover JSON is
      the error record, which carries the action unchanged. */
  function ProcessSingleAction(engine: Engine, data: ActionData): (r: Translated)
    ensures r.Err? ==> r.originalAction == data
  {
    var response := GenerateResponse(engine.backend, engine.prompt(data));
    match ParseWithRetry(engine.parse, Repair(response))
    case Success(j) => Ok(j)
    case Failure(m) => Err(ErrorPrefix + m, data)
  }

  /** The error record is the fixed prefix followed by the message of the
      parse that failed last. */
  lemma ErrorMessage(engine: Engine, data: ActionData)
    ensures var r := ProcessSingleAction(engine, data);
      r.Err? ==> ErrorPrefix <= r.error
    ensures var s := Repair(GenerateResponse(engine.backend, engine.prompt(data)));
      var r := ProcessSingleAction(engine, data);
      var last := if engine.parse(s).DecodeError? then engine.parse(StripLineBreaks(s)) else engine.parse(s);
      r.Err? ==> r.error == ErrorPrefix + last.msg
  {
  }

  /** The translation succeeds exactly when the repaired text parses, or
      fails to decode and parses once its line breaks are removed; the
      value is the one that parse returned. */
  lemma TranslationSucceeds(engine: Engine, data: ActionData)
    ensures var jsonStr := Repair(GenerateResponse(engine.backend, engine.prompt(data)));
      var retry := StripLineBreaks(jsonStr);
      match ProcessSingleAction(engine, data)
      case Ok(j) =>
        engine.parse(jsonStr) == Parsed(j) ||
        (engine.parse(jsonStr).DecodeError? && engine.parse(retry) == Parsed(j))
      case Err(_, _) =>
        engine.parse(jsonStr).OtherError? ||
        (engine.parse(jsonStr).DecodeError? && !engine.parse(retry).Parsed?)
  {
  }

  /** An empty response, in particular a backend that raised, repairs to
      `{}`, which parses to the empty object rather than to the error
      record. */
  lemma EmptyResponseIsEmptyObject(engine: Engine, data: ActionData)
    requires ParsesEmptyObject(engine.parse)
    requires GenerateResponse(engine.backend, engine.prompt(data)) == ""
    ensures ProcessSingleAction(engine, data) == Ok(Object([]))
  {
    assert SplitFirst("", '{') == [""];
    assert Repair("") == "{}";
  }

  /** A backend failure yields the empty object. */
  lemma BackendFailureIsEmptyObject(engine: Engine, data: ActionData)
    requires ParsesEmptyObject(engine.parse)
    requires engine.backend(engine.prompt(data)).None?
    ensures ProcessSingleAction(engine, data) == Ok(Object([]))
  {
    EmptyResponseIsEmptyObject(engine, data);
  }

  /** When the repaired text has no line breaks, the retry parses the same
      text again, so a decode error on the first attempt is final. */
  lemma RetryWithoutLineBreaks(parse: string -> ParseOutcome, response: string)
    requires '\n' !in Repair(response) && '\r' !in Repair(response)
    requires parse(Repair(response)).DecodeError?
    ensures ParseWithRetry(parse, Repair(response)) == Failure(parse(Repair(response)).msg)
  {
    StripLineBreaksAbsent(Repair(response));
  }

  /** A response with leading blanks and text after the object, after
      `strip()`. */
  lemma StripExample()
    ensures Strip("  {\"foo\": 1}\nextra") == "{\"foo\": 1}\nextra"
  {
    var raw := "  {\"foo\": 1}\nextra";
    assert raw[1..] == " {\"foo\": 1}\nextra";
    assert raw[2..] == "{\"foo\": 1}\nextra";
    assert LeadingSpace(raw[2..]) == 0;
    assert LeadingSpace(raw[1..]) == 1;
    assert LeadingSpace(raw) == 2;
    assert TrailingSpace(raw[2..]) == 0;
  }

  /** Everything after the first `{` is kept, trailing text after a closing
      brace included. */
  lemma {:induction false} TextAfterBraceKept(pre: string, rest: string)
    requires '{' !in pre
    ensures Repair(pre + "{" + rest) == "{" + rest + (if EndsWith(rest, '}') then "" else "}")
  {
    var s := pre + "{" + rest;
    assert s[|pre|] == '{' && s[..|pre|] == pre;
    var i := IndexOf(s, '{');
    assert s[i + 1..] == rest;
    RepairContent(s);
  }

  lemma RepairExample()
    ensures Repair("{\"foo\": 1}\nextra") == "{\"foo\": 1}\nextra}"
  {
    var s := "{\"foo\": 1}\nextra";
    assert IndexOf(s, '{') == 0;
    RepairContent(s);
    assert AfterFirstBrace(s) == "\"foo\": 1}\nextra";
  }

  /** For that response the repaired text keeps `extra` between the object
      and the appended `}`. */
  lemma TrailingTextExample()
    ensures Repair(Strip("  {\"foo\": 1}\nextra")) == "{\"foo\": 1}\nextra}"
  {
    StripExample();
    RepairExample();
  }
}
