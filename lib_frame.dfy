/** `StompFrame` of `lib/frame.js`: the frame object the current client
    builds and sends, with its header-rule validator. */
module LibFrame {
  import opened Js
  import opened Dict
  import opened Wire

  /** The object literal given to `new StompFrame(frame)`: each field is
      absent or `undefined` (None) or holds a string or an object. */
  datatype FrameInit = FrameInit(command: Option<string>, headers: Option<Dict<string>>, body: Option<string>)

  /** `x || fallback` for a string-valued `x`: the empty string is falsy. */
  function OrString(x: Option<string>, fallback: string): (r: string)
    ensures x.Some? && x.value != "" ==> r == x.value
    ensures x.None? || x.value == "" ==> r == fallback
  {
    if x.Some? && x.value != "" then x.value else fallback
  }

  /** The frame the constructor starts from: `frame.command || ''`,
      `frame.headers || {}`, `frame.body || ''`. */
  function Initial(init: FrameInit): (f: Frame)
    ensures f.command == OrString(init.command, "")
    ensures f.headers == (if init.headers.Some? then init.headers.value else [])
    ensures f.body == OrString(init.body, "")
  {
    Frame(OrString(init.command, ""), if init.headers.Some? then init.headers.value else [], OrString(init.body, ""))
  }

  /** One entry of a validation table: `required: true` and/or a regex,
      kept as the text it prints as. */
  datatype Rule = Rule(required: bool, regex: Option<string>)

  datatype Validation = Valid | Invalid(message: string)

  function MissingMessage(header: string, json: string): string
  {
    "Header \"" + header + "\" is required, and missing from frame: " + json
  }

  function MismatchMessage(header: string, value: string, regex: string, json: string): string
  {
    "Header \"" + header + "\" has value \"" + value
      + "\" which does not match against the following regex: " + regex + " (Frame: " + json + ")"
  }

  /** Whether the frame's headers satisfy one rule: a required header is
      present, and a present header with a regex matches it. */
  predicate RuleHolds(headers: Dict<string>, header: string, rule: Rule, matches: (string, string) -> bool)
  {
    && (rule.required ==> header in Keys(headers))
    && (rule.regex.Some? ==> match Get(headers, header)
                             case None => true
                             case Some(v) => matches(v, rule.regex.value))
  }

  /** The message `validate` gives for the first broken rule. */
  function FailureMessage(headers: Dict<string>, header: string, rule: Rule, json: string): string
  {
    if rule.required && header !in Keys(headers) then MissingMessage(header, json)
    else if rule.regex.Some? && Get(headers, header).Some? then
      MismatchMessage(header, Get(headers, header).value, rule.regex.value, json)
    else ""
  }

  /** What `validate` answers for `table`, rules taken in table order. */
  function Check(headers: Dict<string>, table: Dict<Rule>, json: string, matches: (string, string) -> bool): (r: Validation)
    ensures r.Invalid? ==> |table| > 0 && |r.message| > 0
  {
    if table == [] then Valid
    else if !RuleHolds(headers, table[0].0, table[0].1, matches) then
      Invalid(FailureMessage(headers, table[0].0, table[0].1, json))
    else Check(headers, table[1..], json, matches)
  }

  /** `validate` accepts exactly the frames that satisfy every rule. */
  lemma {:induction false} CheckValidIff(headers: Dict<string>, table: Dict<Rule>, json: string, matches: (string, string) -> bool)
    ensures Check(headers, table, json, matches) == Valid
        <==> forall i :: 0 <= i < |table| ==> RuleHolds(headers, table[i].0, table[i].1, matches)
    decreases |table|
  {
    if table != [] {
      CheckValidIff(headers, table[1..], json, matches);
      assert forall i :: 1 <= i < |table| ==> table[i] == table[1..][i - 1];
    }
  }

  /** A rejection names the first broken rule in table order. */
  lemma {:induction false} CheckReportsFirst(headers: Dict<string>, table: Dict<Rule>, json: string, matches: (string, string) -> bool)
    requires Check(headers, table, json, matches).Invalid?
    ensures exists i :: (0 <= i < |table|
      && !RuleHolds(headers, table[i].0, table[i].1, matches)
      && (forall j :: 0 <= j < i ==> RuleHolds(headers, table[j].0, table[j].1, matches))
      && Check(headers, table, json, matches).message == FailureMessage(headers, table[i].0, table[i].1, json))
    decreases |table|
  {
    if RuleHolds(headers, table[0].0, table[0].1, matches) {
      CheckReportsFirst(headers, table[1..], json, matches);
      var i :| 0 <= i < |table[1..]|
        && !RuleHolds(headers, table[1..][i].0, table[1..][i].1, matches)
        && (forall j :: 0 <= j < i ==> RuleHolds(headers, table[1..][j].0, table[1..][j].1, matches))
        && Check(headers, table[1..], json, matches).message == FailureMessage(headers, table[1..][i].0, table[1..][i].1, json);
      assert forall j :: 1 <= j < i + 1 ==> table[j] == table[1..][j - 1];
      assert table[i + 1] == table[1..][i];
    } else {
      assert !RuleHolds(headers, table[0].0, table[0].1, matches);
    }
  }

  /** A missing required header, after rules that all hold, yields the
      message `Header "<h>" is required, and missing from frame: <json>`. */
  lemma {:induction false} MissingIsReported(headers: Dict<string>, table: Dict<Rule>, json: string,
                                             matches: (string, string) -> bool, i: nat)
    requires i < |table| && table[i].1.required && table[i].0 !in Keys(headers)
    requires forall j :: 0 <= j < i ==> RuleHolds(headers, table[j].0, table[j].1, matches)
    ensures Check(headers, table, json, matches) == Invalid(MissingMessage(table[i].0, json))
    decreases i
  {
    if i > 0 {
      assert RuleHolds(headers, table[0].0, table[0].1, matches);
      assert forall j :: 0 <= j < i - 1 ==> table[1..][j] == table[j + 1];
      assert table[1..][i - 1] == table[i];
      MissingIsReported(headers, table[1..], json, matches, i - 1);
    }
  }

  class StompFrame {
    var command: string
    var headers: Dict<string>
    var body: string
    var contentLength: Number

    function Value(): Frame
      reads this
    {
      Frame(command, headers, body)
    }

    constructor (init: FrameInit)
      ensures Value() == Initial(init) && contentLength == Num(-1)
    {
      var f := Initial(init);
      command, headers, body := f.command, f.headers, f.body;
      contentLength := Num(-1);
    }

    /** `send(stream)`: writes the frame's wire form to `stream`. */
    method Send(stream: Stream)
      modifies stream
      ensures stream.written == old(stream.written) + Encode(Value())
    {
      stream.Write(command + "\n");
      var i := 0;
      while i < |headers|
        invariant 0 <= i <= |headers|
        invariant stream.written == old(stream.written) + command + "\n" + HeaderLines(headers[..i])
      {
        assert headers[..i + 1][..i] == headers[..i];
        stream.Write(HeaderLine(headers[i].0, headers[i].1));
        i := i + 1;
      }
      assert headers[..i] == headers;
      ghost var head := stream.written;
      if |body| > 0 {
        stream.Write(HeaderLine("content-length", NatToString(|body|)));
      }
      assert stream.written == head + ContentLengthLine(body);
      stream.Write("\n");
      if |body| > 0 {
        stream.Write(body);
      }
      assert stream.written == head + ContentLengthLine(body) + "\n" + body;
      stream.Write("\0");
      EncodeAfter(old(stream.written), Value());
    }

    method SetCommand(c: string)
      modifies this
      ensures command == c
      ensures headers == old(headers) && body == old(body) && contentLength == old(contentLength)
    {
      command := c;
    }

    /** `setHeader(key, value)`: the header is set, and a `content-length`
        key (in any case) also sets `contentLength` to its parsed value. */
    method SetHeader(key: string, value: string)
      modifies this
      ensures headers == Put(old(headers), key, value)
      ensures contentLength == if IsContentLengthKey(key) then ParseInt(Some(value)) else old(contentLength)
      ensures command == old(command) && body == old(body)
    {
      headers := Put(headers, key, value);
      if ToLowerCase(key) == "content-length" {
        contentLength := ParseInt(Some(value));
      }
    }

    method AppendToBody(data: string)
      modifies this
      ensures body == old(body) + data
      ensures command == old(command) && headers == old(headers) && contentLength == old(contentLength)
    {
      body := body + data;
    }

    /** `validate(frameConstruct)`, with `JSON.stringify` and regex
        matching passed in uninterpreted. Reads the frame, changes nothing. */
    method Validate(table: Dict<Rule>, stringify: Frame -> string, matches: (string, string) -> bool)
      returns (r: Validation)
      ensures r == Check(headers, table, stringify(Value()), matches)
    {
      var frameHeaders := Keys(headers);
      var i := 0;
      while i < |table|
        invariant 0 <= i <= |table|
        invariant Check(headers, table, stringify(Value()), matches)
               == Check(headers, table[i..], stringify(Value()), matches)
      {
        var header, rule := table[i].0, table[i].1;
        assert table[i..][1..] == table[i + 1..];
        if rule.required && header !in frameHeaders {
          return Invalid(MissingMessage(header, stringify(Value())));
        }
        if rule.regex.Some? && header in frameHeaders {
          var value := Get(headers, header).value;
          if !matches(value, rule.regex.value) {
            return Invalid(MismatchMessage(header, value, rule.regex.value, stringify(Value())));
          }
        }
        i := i + 1;
      }
      return Valid;
    }
  }
}
