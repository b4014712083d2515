/** The diagnostic text the fallback handler logs: a header line, then the
    request's method, URL and headers, then the action arguments, one
    `StringBuilder.AppendLine` per line (`HandleException`). */
module Diagnostics {
  import opened Wrappers

  /** `Environment.NewLine`, taken as a line feed. */
  const NewLine: string := "\n"

  /** The fixed message that heads the log text and every response body of
      the fallback handler. */
  const UnhandledMessage: string := "Unhandled exception has occurred"

  /** One request header; a multi-valued header is given as its already
      joined text. */
  datatype Header = Header(key: string, value: string)

  /** What the filter reads from the in-flight request: the method, the
      display URL and the headers in enumeration order. */
  datatype Request = Request(httpMethod: string, displayUrl: string, headers: seq<Header>)

  /** One named action argument, in the order the argument dictionary
      enumerates them. */
  datatype Argument<V> = Argument(key: string, value: V)

  /** The text of a sequence of lines, each appended with its line end. */
  function Render(lines: seq<string>): string {
    if |lines| == 0 then "" else lines[0] + NewLine + Render(lines[1..])
  }

  lemma {:induction false} RenderAppend(a: seq<string>, b: seq<string>)
    ensures Render(a + b) == Render(a) + Render(b)
  {
    if |a| == 0 {
      assert a + b == b;
    } else {
      assert (a + b)[1..] == a[1..] + b;
      RenderAppend(a[1..], b);
    }
  }

  /** Appending one line to a rendered text is `AppendLine`. */
  lemma RenderSnoc(lines: seq<string>, line: string)
    ensures Render(lines + [line]) == Render(lines) + line + NewLine
  {
    RenderAppend(lines, [line]);
    assert Render([line]) == line + NewLine + Render([]);
  }

  function HeaderLine(h: Header): string {
    "\t" + h.key + ":" + h.value
  }

  function ArgumentKeyLine<V>(a: Argument<V>): string {
    "\t" + a.key + ":"
  }

  /** One line per header, in order. */
  function HeaderLines(headers: seq<Header>): (r: seq<string>)
    ensures |r| == |headers|
    ensures forall i :: 0 <= i < |headers| ==> r[i] == HeaderLine(headers[i])
  {
    if |headers| == 0 then []
    else HeaderLines(headers[..|headers| - 1]) + [HeaderLine(headers[|headers| - 1])]
  }

  /** Two lines per argument, in order: the key line, then the serialised
      value. */
  function ArgumentLines<V>(arguments: seq<Argument<V>>, serialize: V -> string): (r: seq<string>)
    ensures |r| == 2 * |arguments|
    ensures forall i :: 0 <= i < |arguments| ==>
              r[2 * i] == ArgumentKeyLine(arguments[i]) && r[2 * i + 1] == serialize(arguments[i].value)
  {
    if |arguments| == 0 then []
    else
      var last := arguments[|arguments| - 1];
      ArgumentLines(arguments[..|arguments| - 1], serialize)
        + [ArgumentKeyLine(last), serialize(last.value)]
  }

  /** The request section: method and URL when a request is present, then
      the headers when there are any. */
  function RequestLines(request: Option<Request>): (r: seq<string>)
    ensures |r| == RequestLineCount(request)
    ensures request.Some? ==>
              (r[0] == "Method: " + request.value.httpMethod && r[1] == "Uri: " + request.value.displayUrl)
    ensures request.Some? && |request.value.headers| > 0 ==>
              (r[2] == "Headers:"
               && forall i :: 0 <= i < |request.value.headers| ==>
                    r[3 + i] == HeaderLine(request.value.headers[i]))
  {
    match request
    case None => []
    case Some(q) =>
      ["Method: " + q.httpMethod, "Uri: " + q.displayUrl]
        + (if |q.headers| > 0 then ["Headers:"] + HeaderLines(q.headers) else [])
  }

  /** Number of lines the request section takes. */
  function RequestLineCount(request: Option<Request>): nat {
    match request
    case None => 0
    case Some(q) => 2 + (if |q.headers| > 0 then 1 + |q.headers| else 0)
  }

  /** The parameters section, present only when there are arguments. */
  function ParameterLines<V>(arguments: seq<Argument<V>>, serialize: V -> string): (r: seq<string>)
    ensures |r| == (if |arguments| > 0 then 1 + 2 * |arguments| else 0)
    ensures |arguments| > 0 ==>
              (r[0] == "Parameters:"
               && forall i :: 0 <= i < |arguments| ==>
                    r[1 + 2 * i] == ArgumentKeyLine(arguments[i]) && r[2 + 2 * i] == serialize(arguments[i].value))
  {
    if |arguments| > 0 then ["Parameters:"] + ArgumentLines(arguments, serialize) else []
  }

  /** The lines of the diagnostic text: the fixed message, the request
      section, the parameters section. */
  function MessageLines<V>(request: Option<Request>, arguments: seq<Argument<V>>, serialize: V -> string)
    : seq<string>
  {
    [UnhandledMessage] + RequestLines(request) + ParameterLines(arguments, serialize)
  }

  /** The text passed to `LogError`. */
  function Message<V>(request: Option<Request>, arguments: seq<Argument<V>>, serialize: V -> string): string {
    Render(MessageLines(request, arguments, serialize))
  }

  /** Where each line of the request section sits in the diagnostic text:
      the fixed message first, method and URL only with a request, the
      headers only with a request that has some. */
  lemma MessageRequestLayout<V>(request: Option<Request>, arguments: seq<Argument<V>>, serialize: V -> string)
    ensures var lines := MessageLines(request, arguments, serialize);
      && |lines| == 1 + RequestLineCount(request) + (if |arguments| > 0 then 1 + 2 * |arguments| else 0)
      && lines[0] == UnhandledMessage
      && (request.None? ==> lines == [UnhandledMessage] + ParameterLines(arguments, serialize))
      && (request.Some? ==>
            lines[1] == "Method: " + request.value.httpMethod && lines[2] == "Uri: " + request.value.displayUrl)
      && (request.Some? && |request.value.headers| > 0 ==>
            (lines[3] == "Headers:"
             && forall i :: 0 <= i < |request.value.headers| ==>
                  lines[4 + i] == HeaderLine(request.value.headers[i])))
  {
    var req := RequestLines(request);
    var lines := MessageLines(request, arguments, serialize);
    assert forall k :: 0 <= k < |req| ==> lines[1 + k] == req[k];
    if request.None? {
      assert req == [];
    }
  }

  /** Where each line of the parameters section sits in the diagnostic
      text: after the request section, a key line and a value line per
      argument. */
  lemma MessageParameterLayout<V>(request: Option<Request>, arguments: seq<Argument<V>>, serialize: V -> string)
    requires |arguments| > 0
    ensures var lines := MessageLines(request, arguments, serialize);
      var h := RequestLineCount(request);
      && lines[1 + h] == "Parameters:"
      && forall i :: 0 <= i < |arguments| ==>
           lines[2 + h + 2 * i] == ArgumentKeyLine(arguments[i])
           && lines[3 + h + 2 * i] == serialize(arguments[i].value)
  {
    var h := RequestLineCount(request);
    var par := ParameterLines(arguments, serialize);
    var lines := MessageLines(request, arguments, serialize);
    assert forall k :: 0 <= k < |par| ==> lines[1 + h + k] == par[k];
  }

  /** The text always opens with the fixed message on a line of its own. */
  lemma MessageStartsWithHeader<V>(request: Option<Request>, arguments: seq<Argument<V>>, serialize: V -> string)
    ensures UnhandledMessage + NewLine <= Message(request, arguments, serialize)
  {
    var lines := MessageLines(request, arguments, serialize);
    var tail := Render(lines[1..]);
    assert Message(request, arguments, serialize) == (UnhandledMessage + NewLine) + tail;
  }

  /** The `foreach` over the request headers. */
  method AppendHeaders(builder: string, headers: seq<Header>) returns (text: string)
    ensures text == builder + Render(HeaderLines(headers))
  {
    text := builder;
    var i := 0;
    while i < |headers|
      invariant 0 <= i <= |headers|
      invariant text == builder + Render(HeaderLines(headers[..i]))
    {
      var line := "\t" + headers[i].key + ":" + headers[i].value;
      assert headers[..i + 1][..i] == headers[..i];
      RenderSnoc(HeaderLines(headers[..i]), line);
      text := text + line + NewLine;
      i := i + 1;
    }
    assert headers[..|headers|] == headers;
  }

  /** The `foreach` over the action arguments. */
  method AppendArguments<V>(builder: string, arguments: seq<Argument<V>>, serialize: V -> string)
    returns (text: string)
    ensures text == builder + Render(ArgumentLines(arguments, serialize))
  {
    text := builder;
    var i := 0;
    while i < |arguments|
      invariant 0 <= i <= |arguments|
      invariant text == builder + Render(ArgumentLines(arguments[..i], serialize))
    {
      var keyLine := "\t" + arguments[i].key + ":";
      var valueLine := serialize(arguments[i].value);
      ghost var done := ArgumentLines(arguments[..i], serialize);
      assert arguments[..i + 1][..i] == arguments[..i];
      assert ArgumentLines(arguments[..i + 1], serialize) == done + [keyLine, valueLine];
      RenderSnoc(done, keyLine);
      RenderSnoc(done + [keyLine], valueLine);
      assert done + [keyLine] + [valueLine] == done + [keyLine, valueLine];
      text := text + keyLine + NewLine + valueLine + NewLine;
      i := i + 1;
    }
    assert arguments[..|arguments|] == arguments;
  }

  /** The StringBuilder sequence of `HandleException`. */
  method BuildMessage<V>(request: Option<Request>, arguments: seq<Argument<V>>, serialize: V -> string)
    returns (message: string)
    ensures message == Message(request, arguments, serialize)
  {
    var requestText := "";
    if request.Some? {
      var r := request.value;
      requestText := "Method: " + r.httpMethod + NewLine + "Uri: " + r.displayUrl + NewLine;
      if |r.headers| > 0 {
        var headerText := AppendHeaders("Headers:" + NewLine, r.headers);
        requestText := requestText + headerText;
      } else {
        assert requestText + "" == requestText;
      }
    }
    RenderedRequest(request);
    var parameterText := "";
    if |arguments| > 0 {
      parameterText := AppendArguments("Parameters:" + NewLine, arguments, serialize);
    }
    RenderedParameters(arguments, serialize);
    RenderedSections(request, arguments, serialize);
    message := UnhandledMessage + NewLine + requestText + parameterText;
  }

  /** The request section as text. */
  lemma RenderedRequest(request: Option<Request>)
    ensures request.None? ==> Render(RequestLines(request)) == ""
    ensures request.Some? ==>
              var r := request.value;
              Render(RequestLines(request))
              == "Method: " + r.httpMethod + NewLine + "Uri: " + r.displayUrl + NewLine
                 + (if |r.headers| > 0 then "Headers:" + NewLine + Render(HeaderLines(r.headers)) else "")
  {
    if request.Some? {
      var r := request.value;
      var hs := if |r.headers| > 0 then ["Headers:"] + HeaderLines(r.headers) else [];
      var m := "Method: " + r.httpMethod;
      var u := "Uri: " + r.displayUrl;
      RenderAppend([m, u], hs);
      assert Render([u]) == u + NewLine + Render([]);
      assert Render([m, u]) == m + NewLine + Render([u]);
      if |r.headers| > 0 {
        RenderAppend(["Headers:"], HeaderLines(r.headers));
        assert Render(["Headers:"]) == "Headers:" + NewLine + Render([]);
      }
    }
  }

  /** The parameters section as text. */
  lemma RenderedParameters<V>(arguments: seq<Argument<V>>, serialize: V -> string)
    ensures Render(ParameterLines(arguments, serialize))
            == (if |arguments| > 0 then "Parameters:" + NewLine + Render(ArgumentLines(arguments, serialize)) else "")
  {
    if |arguments| > 0 {
      RenderAppend(["Parameters:"], ArgumentLines(arguments, serialize));
      assert Render(["Parameters:"]) == "Parameters:" + NewLine + Render([]);
    }
  }

  /** The diagnostic text is its three sections one after the other. */
  lemma RenderedSections<V>(request: Option<Request>, arguments: seq<Argument<V>>, serialize: V -> string)
    ensures Message(request, arguments, serialize)
            == UnhandledMessage + NewLine + Render(RequestLines(request)) + Render(ParameterLines(arguments, serialize))
  {
    var req := RequestLines(request);
    var par := ParameterLines(arguments, serialize);
    RenderAppend([UnhandledMessage] + req, par);
    RenderAppend([UnhandledMessage], req);
    assert Render([UnhandledMessage]) == UnhandledMessage + NewLine + Render([]);
  }

  /** Position of the first line feed of `s`, or `|s|` when there is none. */
  function LineEnd(s: string): (i: nat)
    ensures i <= |s|
    ensures i < |s| ==> s[i] == '\n'
    ensures forall j :: 0 <= j < i ==> s[j] != '\n'
  {
    if |s| == 0 || s[0] == '\n' then 0 else 1 + LineEnd(s[1..])
  }

  /** Splits a text into its lines, dropping each line feed; a final
      unterminated piece is a line too. */
  function SplitLines(s: string): seq<string>
    decreases |s|
  {
    if |s| == 0 then []
    else
      var i := LineEnd(s);
      if i == |s| then [s] else [s[..i]] + SplitLines(s[i + 1..])
  }

  lemma SplitFirstLine(line: string, rest: string)
    requires '\n' !in line
    ensures SplitLines(line + NewLine + rest) == [line] + SplitLines(rest)
  {
    var s := line + NewLine + rest;
    var i := LineEnd(s);
    assert s[|line|] == '\n';
    assert i == |line|;
    assert s[..i] == line;
    assert s[i + 1..] == rest;
  }

  /** Rendering is undone by splitting, as long as no line holds a line
      feed of its own. */
  lemma {:induction false} SplitRender(lines: seq<string>)
    requires forall k :: 0 <= k < |lines| ==> '\n' !in lines[k]
    ensures SplitLines(Render(lines)) == lines
  {
    if |lines| > 0 {
      SplitFirstLine(lines[0], Render(lines[1..]));
      SplitRender(lines[1..]);
    }
  }

  /** No line holds a line feed of its own. */
  predicate NoBreaks(lines: seq<string>) {
    forall k :: 0 <= k < |lines| ==> '\n' !in lines[k]
  }

  lemma NoBreaksAppend(a: seq<string>, b: seq<string>)
    requires NoBreaks(a) && NoBreaks(b)
    ensures NoBreaks(a + b)
  {
    assert forall k :: |a| <= k < |a + b| ==> (a + b)[k] == b[k - |a|];
  }

  /** Every text the filter takes from the request and the arguments fits on
      one line. */
  predicate SingleLineFields<V>(request: Option<Request>, arguments: seq<Argument<V>>, serialize: V -> string) {
    && (request.Some? ==>
          && '\n' !in request.value.httpMethod
          && '\n' !in request.value.displayUrl
          && forall i :: 0 <= i < |request.value.headers| ==>
               '\n' !in request.value.headers[i].key && '\n' !in request.value.headers[i].value)
    && forall i :: 0 <= i < |arguments| ==>
         '\n' !in arguments[i].key && '\n' !in serialize(arguments[i].value)
  }

  /** A reader splitting the logged text into lines recovers the sections in
      order: fixed message, request, parameters. */
  lemma MessageSplitsIntoSections<V>(request: Option<Request>, arguments: seq<Argument<V>>, serialize: V -> string)
    requires SingleLineFields(request, arguments, serialize)
    ensures SplitLines(Message(request, arguments, serialize))
            == [UnhandledMessage] + RequestLines(request) + ParameterLines(arguments, serialize)
  {
    var req := RequestLines(request);
    if request.Some? {
      var r := request.value;
      var hl := HeaderLines(r.headers);
      assert NoBreaks(hl) by {
        forall k | 0 <= k < |hl| ensures '\n' !in hl[k] {
          assert hl[k] == "\t" + r.headers[k].key + ":" + r.headers[k].value;
        }
      }
      NoBreaksAppend(["Headers:"], hl);
      NoBreaksAppend(["Method: " + r.httpMethod, "Uri: " + r.displayUrl],
                     if |r.headers| > 0 then ["Headers:"] + hl else []);
    }
    var al := ArgumentLines(arguments, serialize);
    assert NoBreaks(al) by {
      forall k | 0 <= k < |al| ensures '\n' !in al[k] {
        var i := k / 2;
        if k % 2 == 0 {
          assert al[2 * i] == "\t" + arguments[i].key + ":";
        } else {
          assert al[2 * i + 1] == serialize(arguments[i].value);
        }
      }
    }
    NoBreaksAppend(["Parameters:"], al);
    NoBreaksAppend([UnhandledMessage], req);
    NoBreaksAppend([UnhandledMessage] + req, ParameterLines(arguments, serialize));
    SplitRender(MessageLines(request, arguments, serialize));
  }
}
