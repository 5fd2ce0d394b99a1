/**
 * What the script prints. Each console call becomes a `Line`: the logger
 * function it goes through (`log`, `info`, `warn`, `error`), its text, and
 * whether it is written through the colouring wrapper or bare. JSON
 * re-serialisation, syntax highlighting and stack cleaning are library calls
 * passed in as functions; `None` stands for a call that throws.
 */
module Render {
  import opened Wrappers
  import opened Text
  import opened Ordering
  import opened Headers
  import opened Response

  datatype Level = Log | Info | Warn | Error

  datatype Style = Colored | Bare

  datatype Line = Line(level: Level, text: string, style: Style)

  const EMPTY_RESPONSE := "[empty response]"

  /** `/\bjson\b/` matches at position `p`: "json" with a word boundary on each side. */
  predicate JsonWordAt(s: string, p: nat) {
    p + 4 <= |s| && s[p..p + 4] == "json"
    && (p == 0 || !IsWordChar(s[p - 1]))
    && (p + 4 == |s| || !IsWordChar(s[p + 4]))
  }

  function MentionsJsonFrom(s: string, i: nat): (b: bool)
    requires i <= |s|
    ensures b <==> exists p: nat :: i <= p && JsonWordAt(s, p)
    decreases |s| - i
  {
    if JsonWordAt(s, i) then true
    else if i == |s| then false
    else MentionsJsonFrom(s, i + 1)
  }

  /**
   * `/\bjson\b/.test(contentType)`. A missing header is tested as the string
   * "undefined", which does not match.
   */
  function IsJsonType(contentType: Option<string>): (b: bool)
    ensures b <==> contentType.Some? && exists p: nat :: JsonWordAt(contentType.value, p)
  {
    contentType.Some? && MentionsJsonFrom(contentType.value, 0)
  }

  function ContentType(h: HeaderView): Option<string> {
    if "content-type" in h.fields then Some(h.fields["content-type"]) else None
  }

  function HeaderLine(level: Level, name: string, value: string): Line {
    Line(level, name + ": " + value, Colored)
  }

  /** One `name: value` line per name, in the order given. */
  function HeaderLines(level: Level, names: seq<string>, fields: map<string, string>): seq<Line>
    requires InDomain(names, fields)
    decreases |names|
  {
    if names == [] then [] else [HeaderLine(level, names[0], fields[names[0]])] + HeaderLines(level, names[1..], fields)
  }

  lemma {:induction false} HeaderLinesAt(level: Level, names: seq<string>, fields: map<string, string>)
    requires InDomain(names, fields)
    ensures |HeaderLines(level, names, fields)| == |names|
    ensures forall i :: 0 <= i < |names| ==>
              HeaderLines(level, names, fields)[i] == HeaderLine(level, names[i], fields[names[i]])
    decreases |names|
  {
    if names != [] {
      HeaderLinesAt(level, names[1..], fields);
    }
  }

  /** The sorted key list still names fields of the object. */
  lemma SortedInDomain(h: HeaderView)
    requires WellFormed(h)
    ensures InDomain(SortStrings(h.names), h.fields)
  {
    var sorted := SortStrings(h.names);
    forall i | 0 <= i < |sorted| ensures sorted[i] in h.fields {
      assert sorted[i] in multiset(sorted);
      assert sorted[i] in multiset(h.names);
    }
  }

  /** The `forEach` of `formatHeaders`: one line per name, in the order given. */
  method WriteHeaderLines(level: Level, names: seq<string>, fields: map<string, string>) returns (out: seq<Line>)
    requires InDomain(names, fields)
    ensures |out| == |names|
    ensures forall i :: 0 <= i < |out| ==> out[i] == HeaderLine(level, names[i], fields[names[i]])
    ensures out == HeaderLines(level, names, fields)
  {
    out := [];
    var i := 0;
    while i < |names|
      invariant 0 <= i <= |names|
      invariant |out| == i
      invariant forall k :: 0 <= k < i ==> out[k] == HeaderLine(level, names[k], fields[names[k]])
    {
      out := out + [HeaderLine(level, names[i], fields[names[i]])];
      i := i + 1;
    }
    HeaderLinesAt(level, names, fields);
  }

  /**
   * `formatHeaders`: one line per header, names in ascending order, each
   * header exactly once.
   */
  method FormatHeaders(headers: HeaderView, level: Level) returns (out: seq<Line>)
    requires WellFormed(headers)
    ensures StrictlySorted(SortStrings(headers.names))
    ensures multiset(SortStrings(headers.names)) == multiset(headers.names)
    ensures InDomain(SortStrings(headers.names), headers.fields)
    ensures out == HeaderLines(level, SortStrings(headers.names), headers.fields)
    ensures |out| == |headers.names|
    ensures forall i :: 0 <= i < |out| ==>
              out[i] == HeaderLine(level, SortStrings(headers.names)[i], headers.fields[SortStrings(headers.names)[i]])
  {
    var names := SortStrings(headers.names);
    SortedInDomain(headers);
    SortDistinctIsStrict(headers.names);
    out := WriteHeaderLines(level, names, headers.fields);
  }

  /**
   * The body line of `formatResponse`. A body is re-serialised only when the
   * content type mentions the word `json`; a parse failure leaves it as it
   * was; highlighting is tried only off the error stream and with colours on;
   * `[empty response]` stands for a missing body.
   */
  function RenderBody(level: Level, body: Option<string>, contentType: Option<string>, chalkEnabled: bool,
                      reformat: string -> Option<string>, highlight: string -> Option<string>): (line: Line)
    ensures line.level == level
    ensures line.style == Bare <==>
              && level != Error && chalkEnabled && IsJsonType(contentType) && body.Some?
              && reformat(body.value).Some? && highlight(reformat(body.value).value).Some?
    ensures body.None? ==> line.text == EMPTY_RESPONSE
    ensures body.Some? && (!IsJsonType(contentType) || reformat(body.value).None?) ==> line.text == body.value
    ensures body.Some? && IsJsonType(contentType) && reformat(body.value).Some? ==>
              if line.style == Bare then highlight(reformat(body.value).value) == Some(line.text)
              else line.text == reformat(body.value).value
  {
    if IsJsonType(contentType) && body.Some? then
      match reformat(body.value)
      case None => Line(level, body.value, Colored)
      case Some(pretty) =>
        if level != Error && chalkEnabled then
          match highlight(pretty)
          case Some(highlighted) => Line(level, highlighted, Bare)
          case None => Line(level, pretty, Colored)
        else
          Line(level, pretty, Colored)
    else
      Line(level, if body.Some? then body.value else EMPTY_RESPONSE, Colored)
  }

  /** Everything `formatResponse` prints for a response, in order. */
  function ResponseLines(resp: Metadata, level: Level, chalkEnabled: bool,
                         reformat: string -> Option<string>, highlight: string -> Option<string>): seq<Line>
    requires WellFormed(resp.headers)
  {
    SortedInDomain(resp.headers);
    [Line(level, IntToString(resp.statusCode) + " " + resp.statusMessage, Colored)]
    + HeaderLines(level, SortStrings(resp.headers.names), resp.headers.fields)
    + [Line(level, "", Colored)]
    + [RenderBody(level, Some(resp.body), ContentType(resp.headers), chalkEnabled, reformat, highlight)]
  }

  /** `formatResponse`: status line, sorted headers, a blank line, the body. */
  method FormatResponse(resp: Metadata, level: Level, chalkEnabled: bool,
                        reformat: string -> Option<string>, highlight: string -> Option<string>)
    returns (out: seq<Line>)
    requires WellFormed(resp.headers)
    ensures out == ResponseLines(resp, level, chalkEnabled, reformat, highlight)
  {
    out := [Line(level, IntToString(resp.statusCode) + " " + resp.statusMessage, Colored)];
    var headerLines := FormatHeaders(resp.headers, level);
    out := out + headerLines;
    out := out + [Line(level, "", Colored)];
    out := out + [RenderBody(level, Some(resp.body), ContentType(resp.headers), chalkEnabled, reformat, highlight)];
  }

  function Relevel(lines: seq<Line>, level: Level): (r: seq<Line>)
    ensures |r| == |lines|
    ensures forall i :: 0 <= i < |r| ==> r[i] == lines[i].(level := level)
  {
    seq(|lines|, i requires 0 <= i < |lines| => lines[i].(level := level))
  }

  lemma {:induction false} HeaderLinesRelevel(names: seq<string>, fields: map<string, string>, from: Level, to: Level)
    requires InDomain(names, fields)
    ensures HeaderLines(to, names, fields) == Relevel(HeaderLines(from, names, fields), to)
    decreases |names|
  {
    if names != [] {
      HeaderLinesRelevel(names[1..], fields, from, to);
    }
  }

  /**
   * An HTTP failure is printed on the error stream by the same rules as a
   * success with colours off: the same lines, only the logger differs. In
   * particular nothing on the error stream is highlighted.
   */
  lemma ErrorStreamSameRules(resp: Metadata, chalkEnabled: bool,
                             reformat: string -> Option<string>, highlight: string -> Option<string>)
    requires WellFormed(resp.headers)
    ensures ResponseLines(resp, Error, chalkEnabled, reformat, highlight)
            == Relevel(ResponseLines(resp, Info, false, reformat, highlight), Error)
    ensures forall i :: 0 <= i < |ResponseLines(resp, Error, chalkEnabled, reformat, highlight)| ==>
              ResponseLines(resp, Error, chalkEnabled, reformat, highlight)[i].style == Colored
  {
    SortedInDomain(resp.headers);
    var names := SortStrings(resp.headers.names);
    HeaderLinesRelevel(names, resp.headers.fields, Info, Error);
    HeaderLinesAt(Info, names, resp.headers.fields);
    var e := ResponseLines(resp, Error, chalkEnabled, reformat, highlight);
    var s := ResponseLines(resp, Info, false, reformat, highlight);
    assert |e| == |s| == |names| + 3;
    forall i | 0 <= i < |e| ensures e[i] == s[i].(level := Error) && e[i].style == Colored {
      if 1 <= i <= |names| {
        assert e[i] == HeaderLines(Error, names, resp.headers.fields)[i - 1];
        assert s[i] == HeaderLines(Info, names, resp.headers.fields)[i - 1];
      }
    }
  }

  /**
   * `handleError`: an error with a response is printed like a response on the
   * error stream, any other error as its cleaned stack; the exit code is 1
   * either way.
   */
  method HandleError(err: Failure, chalkEnabled: bool, reformat: string -> Option<string>,
                     highlight: string -> Option<string>, cleanStack: string -> string)
    returns (out: seq<Line>, exitCode: int)
    requires err.HttpFailure? ==> WellFormed(err.response.headers)
    ensures exitCode == 1
    ensures err.HttpFailure? ==> out == ResponseLines(err.response, Error, chalkEnabled, reformat, highlight)
    ensures err.Thrown? ==> out == [Line(Error, cleanStack(err.stack), Colored)]
  {
    if err.HttpFailure? {
      out := FormatResponse(err.response, Error, chalkEnabled, reformat, highlight);
    } else {
      out := [Line(Error, cleanStack(err.stack), Colored)];
    }
    exitCode := 1;
  }

  /**
   * `.then(formatResponse).catch(handleError)`: a resolved response is printed
   * on the info stream and the process ends normally (exit code 0); a
   * rejection goes to `handleError`.
   */
  method Settle(s: Settled, chalkEnabled: bool, reformat: string -> Option<string>,
                highlight: string -> Option<string>, cleanStack: string -> string)
    returns (out: seq<Line>, exitCode: int)
    requires s.Resolved? ==> WellFormed(s.metadata.headers)
    requires s.Rejected? && s.failure.HttpFailure? ==> WellFormed(s.failure.response.headers)
    ensures exitCode == 0 <==> s.Resolved?
    ensures exitCode == 0 || exitCode == 1
    ensures s.Resolved? ==> out == ResponseLines(s.metadata, Info, chalkEnabled, reformat, highlight)
    ensures s.Rejected? && s.failure.HttpFailure? ==>
              out == ResponseLines(s.failure.response, Error, chalkEnabled, reformat, highlight)
    ensures s.Rejected? && s.failure.Thrown? ==> out == [Line(Error, cleanStack(s.failure.stack), Colored)]
  {
    if s.Resolved? {
      out := FormatResponse(s.metadata, Info, chalkEnabled, reformat, highlight);
      exitCode := 0;
    } else {
      out, exitCode := HandleError(s.failure, chalkEnabled, reformat, highlight, cleanStack);
    }
  }

  /**
   * From the received response to the printed output: the process succeeds
   * exactly when the stream ended with a 2xx status, and a received response
   * is printed in full whatever its status.
   */
  method Respond(statusCode: int, statusMessage: string, headers: HeaderView, chunks: seq<string>, end: StreamEnd,
                 chalkEnabled: bool, reformat: string -> Option<string>, highlight: string -> Option<string>,
                 cleanStack: string -> string)
    returns (out: seq<Line>, exitCode: int)
    requires WellFormed(headers)
    ensures exitCode == 0 <==> end.Ended? && 200 <= statusCode < 300
    ensures end.Ended? ==>
              out == ResponseLines(Metadata(statusCode, statusMessage, headers, Concat(chunks)),
                                   if 200 <= statusCode < 300 then Info else Error,
                                   chalkEnabled, reformat, highlight)
    ensures end.Errored? ==> out == [Line(Error, cleanStack(end.stack), Colored)] && exitCode == 1
  {
    var settled := HandleResponse(statusCode, statusMessage, headers, chunks, end);
    out, exitCode := Settle(settled, chalkEnabled, reformat, highlight, cleanStack);
  }
}
