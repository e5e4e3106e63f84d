/** The incremental frame parser of `server.js`: `StompFrameBuffer`, a
    three-state machine over a growing text buffer, and the `Request` it
    fills in. The parse steps are specified by functions on a value view
    of the parser (`Parser`); the class methods are proved to perform
    exactly those steps on the objects. */
module Server {
  import opened Js
  import opened Dict

  /** `ParserStates`. */
  const COMMAND := 0
  const HEADERS := 1
  const BODY := 2

  /** `incrementState`: BODY goes back to COMMAND, any other state moves
      up by one. */
  function NextState(s: int): (r: int)
    ensures r != s
    ensures 0 <= s <= 2 ==> 0 <= r <= 2
  {
    if s == BODY then COMMAND else s + 1
  }

  /** Three increments bring every state back to itself, through the two
      others: COMMAND, HEADERS, BODY, COMMAND. */
  lemma StateCycle(s: int)
    requires 0 <= s <= 2
    ensures NextState(NextState(NextState(s))) == s
    ensures NextState(NextState(s)) != s
    ensures NextState(COMMAND) == HEADERS && NextState(HEADERS) == BODY && NextState(BODY) == COMMAND
  {
  }

  /** The fields of a `Request`. A header value is None when the header
      line had no colon (`kv[1]` is `undefined`). */
  datatype RequestValue = RequestValue(
    command: string,
    headers: Dict<Option<string>>,
    body: string,
    contentLength: Number)

  /** `new Request()`. */
  const FreshRequest := RequestValue("", [], "", Num(-1))

  /** `Request.setHeader(key, value)`: the header is stored, and only a
      `content-length` key (in any case) sets `contentLength`. */
  function WithHeader(r: RequestValue, key: string, value: Option<string>): (r': RequestValue)
    ensures Get(r'.headers, key) == Some(value)
    ensures Keys(r'.headers) == Keys(r.headers) || Keys(r'.headers) == Keys(r.headers) + [key]
    ensures IsContentLengthKey(key) ==> r'.contentLength == ParseInt(value)
    ensures !IsContentLengthKey(key) ==> r'.contentLength == r.contentLength
    ensures r'.command == r.command && r'.body == r.body
  {
    PutGet(r.headers, key, value, key);
    var contentLength := if ToLowerCase(key) == "content-length" then ParseInt(value) else r.contentLength;
    r.(headers := Put(r.headers, key, value), contentLength := contentLength)
  }

  /** A repeated header overwrites the earlier value and keeps its place;
      the other headers are untouched. */
  lemma RepeatedHeaderOverwrites(r: RequestValue, key: string, v1: Option<string>, v2: Option<string>, other: string)
    requires other != key
    ensures var r' := WithHeader(WithHeader(r, key, v1), key, v2);
      && Get(r'.headers, key) == Some(v2)
      && Keys(r'.headers) == Keys(WithHeader(r, key, v1).headers)
      && Get(r'.headers, other) == Get(r.headers, other)
  {
    var r1 := WithHeader(r, key, v1);
    PutGet(r.headers, key, v1, other);
    PutGet(r1.headers, key, v2, other);
  }

  /** The parser's fields: `state`, `buffer` and the `request` it fills. */
  datatype Parser = Parser(state: int, buffer: string, request: RequestValue)

  /** `new StompFrameBuffer()`. */
  const Fresh := Parser(COMMAND, "", FreshRequest)

  predicate IsSuffix(a: string, b: string)
  {
    |a| <= |b| && a == b[|b| - |a|..]
  }

  lemma SuffixTransitive(a: string, b: string, c: string)
    requires IsSuffix(a, b) && IsSuffix(b, c)
    ensures IsSuffix(a, c)
  {
    assert c[|c| - |b|..][|b| - |a|..] == c[|c| - |a|..];
  }

  /** `parseCommand`: without a newline in the buffer nothing changes;
      otherwise the text before the first newline becomes the command (not
      checked against any vocabulary, blank lines included), that line and
      its newline leave the buffer, and the state advances. */
  function CommandParsed(p: Parser): (r: Parser)
    ensures '\n' !in p.buffer ==> r == p
    ensures '\n' in p.buffer ==>
      && r.request.command + "\n" + r.buffer == p.buffer
      && '\n' !in r.request.command
      && r.state == NextState(p.state)
      && r.request == p.request.(command := r.request.command)
    ensures IsSuffix(r.buffer, p.buffer)
  {
    var index := IndexOf(p.buffer, '\n');
    if index > -1 then
      assert p.buffer == p.buffer[..index] + "\n" + p.buffer[index + 1..];
      p.(request := p.request.(command := p.buffer[..index]),
         buffer := p.buffer[index + 1..],
         state := NextState(p.state))
    else p
  }

  /** The first `k` characters of `b` end with a blank line: a lone
      newline, or a newline right after another one. */
  predicate BlankLineBefore(b: string, k: int)
  {
    && 1 <= k <= |b| && b[k - 1] == '\n'
    && (k == 1 || b[k - 2] == '\n')
  }

  /** `parseHeaders`: consumes complete header lines until a blank line,
      which alone is dropped and moves the state on, or until no complete
      line is left. Each header line sets `kv[0]` to `kv[1]` of
      `line.split(':', 2)`. */
  function HeadersParsed(p: Parser): (r: Parser)
    ensures IsSuffix(r.buffer, p.buffer)
    ensures r.state == p.state ==> '\n' !in r.buffer
    ensures r.state != p.state ==> r.state == NextState(p.state)
    ensures r.request.command == p.request.command && r.request.body == p.request.body
    decreases |p.buffer|
  {
    var index := IndexOf(p.buffer, '\n');
    if index > -1 then
      var line := p.buffer[..index];
      if line == "" then
        p.(buffer := p.buffer[1..], state := NextState(p.state))
      else
        var kv := SplitColon(p.buffer[..index]);
        var q := p.(request := WithHeader(p.request, kv.0, kv.1), buffer := p.buffer[index + 1..]);
        var r := HeadersParsed(q);
        SuffixTransitive(r.buffer, q.buffer, p.buffer);
        r
    else p
  }

  /** The buffer side of `parseHeaders`: whether a blank line is reached,
      and the text left after it (or the whole text when it is not). The
      scan stops only just after a blank line. */
  function HeaderScan(b: string): (r: (bool, string))
    ensures IsSuffix(r.1, b)
    ensures r.0 ==> BlankLineBefore(b, |b| - |r.1|)
    decreases |b|
  {
    var i := IndexOf(b, '\n');
    if i == -1 then (false, b)
    else if i == 0 then (true, b[1..])
    else
      var rest := b[i + 1..];
      var r := HeaderScan(rest);
      SuffixTransitive(r.1, rest, b);
      CutAt(b, i, '\n');
      LineThenBlank(b, b[..i], rest, r.1, r.0);
      r
  }

  /** `parseHeaders` leaves its buffer and state as the scan says. */
  lemma {:induction false} HeadersFollowScan(p: Parser)
    ensures HeadersParsed(p).buffer == HeaderScan(p.buffer).1
    ensures HeadersParsed(p).state != p.state <==> HeaderScan(p.buffer).0
    decreases |p.buffer|
  {
    var index := IndexOf(p.buffer, '\n');
    if index == -1 {
      IncompleteLineWaits(p);
    } else if index > 0 {
      var line, rest := p.buffer[..index], p.buffer[index + 1..];
      assert p.buffer == line + "\n" + rest;
      var q := p.(request := WithHeader(p.request, SplitColon(line).0, SplitColon(line).1), buffer := rest);
      HeaderLineSets(p, line, rest);
      HeadersFollowScan(q);
    }
  }

  /** `parseHeaders` leaves its state only at a blank line: the text it
      consumed ends with an empty line. */
  lemma HeadersAdvancePastBlank(p: Parser)
    ensures var r := HeadersParsed(p);
      r.state != p.state ==> BlankLineBefore(p.buffer, |p.buffer| - |r.buffer|)
  {
    HeadersFollowScan(p);
  }

  /** A line in front of text whose first `|rest| - |left|` characters end
      with a blank line. */
  lemma LineThenBlank(b: string, line: string, rest: string, left: string, advanced: bool)
    requires b == line + "\n" + rest
    requires advanced ==> BlankLineBefore(rest, |rest| - |left|)
    ensures advanced ==> BlankLineBefore(b, |b| - |left|)
  {
    if advanced {
      var m := |rest| - |left|;
      assert b[|line| + m] == rest[m - 1];
      if m > 1 {
        assert b[|line| + m - 1] == rest[m - 2];
      }
    }
  }

  /** In HEADERS, a line with nothing before its newline consumes exactly
      that one character and moves to BODY. */
  lemma BlankLineEndsHeaders(p: Parser)
    requires p.state == HEADERS && |p.buffer| > 0 && p.buffer[0] == '\n'
    ensures HeadersParsed(p) == Parser(BODY, p.buffer[1..], p.request)
  {
  }

  /** An unterminated last line is left for the next chunk: nothing changes. */
  lemma IncompleteLineWaits(p: Parser)
    requires '\n' !in p.buffer
    ensures HeadersParsed(p) == p
  {
  }

  /** A complete header line `key:value...` sets `key` to the text between
      its first and second colon and is then dropped from the buffer. */
  lemma HeaderLineSets(p: Parser, line: string, rest: string)
    requires line != "" && '\n' !in line && p.buffer == line + "\n" + rest
    ensures HeadersParsed(p)
         == HeadersParsed(p.(request := WithHeader(p.request, SplitColon(line).0, SplitColon(line).1), buffer := rest))
  {
    assert p.buffer[..|line|] == line;
    assert p.buffer[|line| + 1..] == rest;
    assert IndexOf(p.buffer, '\n') == |line|;
  }

  /** The `contentLength > -1` branch of `parseBody`: take what is still
      missing of the announced length (JavaScript's `slice` and `substr`,
      so a negative remainder counts from the end of the buffer). */
  function LengthTaken(p: Parser): (q: Parser)
    requires GreaterThan(p.request.contentLength, -1)
    ensures q.request.body + q.buffer == p.request.body + p.buffer
    ensures q.state == p.state
    ensures q.request == p.request.(body := q.request.body)
    ensures |p.request.body| <= p.request.contentLength.value ==>
      && |q.request.body| <= p.request.contentLength.value
      && (|q.request.body| == p.request.contentLength.value || q.buffer == "")
  {
    var remaining := p.request.contentLength.value - |p.request.body|;
    var taken, left := Slice(p.buffer, 0, remaining), Substr(p.buffer, remaining);
    SliceSubstrTake(p.buffer, remaining);
    assert p.request.body + taken + left == p.request.body + p.buffer;
    p.(request := p.request.(body := p.request.body + taken), buffer := left)
  }

  /** The NUL-terminated tail of `parseBody`: without a NUL the whole
      buffer joins the body; otherwise the text before the first NUL does,
      the buffer drops through that NUL and the state advances. */
  function NulScanned(p: Parser): (r: Parser)
    ensures '\0' !in p.buffer ==> r == p.(request := p.request.(body := p.request.body + p.buffer), buffer := "")
    ensures '\0' in p.buffer ==>
      && r.request.body + "\0" + r.buffer == p.request.body + p.buffer
      && |p.request.body| <= |r.request.body|
      && '\0' !in r.request.body[|p.request.body|..]
      && r.state == NextState(p.state)
      && r.request == p.request.(body := r.request.body)
  {
    var index := IndexOf(p.buffer, '\0');
    if index == -1 then
      p.(request := p.request.(body := p.request.body + p.buffer), buffer := "")
    else
      var body := p.request.body + p.buffer[..index];
      assert body[|p.request.body|..] == p.buffer[..index];
      assert p.buffer == p.buffer[..index] + "\0" + p.buffer[index + 1..];
      p.(request := p.request.(body := body), state := NextState(p.state), buffer := p.buffer[index + 1..])
  }

  /** `parseBody`. Once the announced length is reached `contentLength` is
      reset to -1 and the body keeps growing until a NUL. Body and buffer
      together lose nothing but the terminating NUL. */
  function BodyParsed(p: Parser): (r: Parser)
    ensures r.state == p.state ==> r.request.body + r.buffer == p.request.body + p.buffer
    ensures r.state != p.state ==>
      && r.state == NextState(p.state)
      && r.request.body + "\0" + r.buffer == p.request.body + p.buffer
    ensures r.request.command == p.request.command && r.request.headers == p.request.headers
    ensures IsSuffix(r.buffer, p.buffer)
  {
    if GreaterThan(p.request.contentLength, -1) then
      var q := LengthTaken(p);
      if q.request.contentLength == Num(|q.request.body|) then
        var r := NulScanned(q.(request := q.request.(contentLength := Num(-1))));
        assert IsSuffix(q.buffer, p.buffer);
        SuffixTransitive(r.buffer, q.buffer, p.buffer);
        r
      else q
    else NulScanned(p)
  }

  /** The request's body has not yet passed the announced length (when
      one is announced). */
  predicate WithinLength(r: RequestValue)
  {
    GreaterThan(r.contentLength, -1) ==> |r.body| <= r.contentLength.value
  }

  /** While a body within the announced length is read, `contentLength`
      is reset to -1 exactly when body and buffer reach that length;
      until then the length stays, the state stays and the whole buffer
      has joined the body. Without an announced length it is left as it
      is. */
  lemma BodyLengthReset(p: Parser)
    requires WithinLength(p.request)
    ensures var r := BodyParsed(p);
      GreaterThan(p.request.contentLength, -1) ==>
        && (r.request.contentLength == Num(-1) <==> |p.request.body| + |p.buffer| >= p.request.contentLength.value)
        && (r.request.contentLength != Num(-1) ==>
              r.request.contentLength == p.request.contentLength && r.state == p.state && r.buffer == "")
    ensures !GreaterThan(p.request.contentLength, -1) ==> BodyParsed(p).request.contentLength == p.request.contentLength
  {
    if GreaterThan(p.request.contentLength, -1) {
      var q := LengthTaken(p);
      assert |q.request.body| + |q.buffer| == |p.request.body| + |p.buffer|;
    }
  }

  /** A body already longer than the announced length, which a request
      kept from an earlier frame can hold (server.js never replaces it),
      never reaches that length: `slice` and `substr` count the negative
      remainder from the end of the buffer, the body keeps growing, and
      the parser stays in BODY with the length still announced. */
  lemma BodyPastLengthStalls(p: Parser)
    requires GreaterThan(p.request.contentLength, -1) && |p.request.body| > p.request.contentLength.value
    ensures var r := BodyParsed(p);
      && r.state == p.state
      && r.request.contentLength == p.request.contentLength
      && |r.request.body| >= |p.request.body|
  {
    var q := LengthTaken(p);
    assert q.request.body == p.request.body + Slice(p.buffer, 0, p.request.contentLength.value - |p.request.body|);
  }

  /** `handleData(data)`: append the chunk, then run each parse step at
      most once, in the order COMMAND, HEADERS, BODY, each only if the
      state is its own when its turn comes. There is no loop back for a
      second frame in the same chunk. */
  function DataHandled(p: Parser, data: string): (r: Parser)
    ensures IsSuffix(r.buffer, p.buffer + data)
    ensures 0 <= p.state <= 2 ==> 0 <= r.state <= 2
  {
    var p1 := p.(buffer := p.buffer + data);
    var p2 := if p1.state == COMMAND then CommandParsed(p1) else p1;
    var p3 := if p2.state == HEADERS then HeadersParsed(p2) else p2;
    var r := if p3.state == BODY then BodyParsed(p3) else p3;
    SuffixTransitive(p3.buffer, p2.buffer, p1.buffer);
    SuffixTransitive(r.buffer, p3.buffer, p1.buffer);
    r
  }

  /** `Request`: the frame being parsed. */
  class Request {
    var command: string
    var headers: Dict<Option<string>>
    var body: string
    var contentLength: Number

    function Value(): RequestValue
      reads this
    {
      RequestValue(command, headers, body, contentLength)
    }

    constructor ()
      ensures Value() == FreshRequest
    {
      command, headers, body, contentLength := "", [], "", Num(-1);
    }

    method SetCommand(c: string)
      modifies this
      ensures Value() == old(Value()).(command := c)
    {
      command := c;
    }

    method SetHeader(key: string, value: Option<string>)
      modifies this
      ensures Value() == WithHeader(old(Value()), key, value)
    {
      headers := Put(headers, key, value);
      if ToLowerCase(key) == "content-length" {
        contentLength := ParseInt(value);
      }
    }

    method AppendToBody(data: string)
      modifies this
      ensures Value() == old(Value()).(body := old(body) + data)
    {
      body := body + data;
    }
  }

  /** `StompFrameBuffer`. `request` is created once and never replaced, so
      every frame of a connection is parsed into the same object. */
  class StompFrameBuffer {
    var state: int
    var buffer: string
    const request: Request

    ghost predicate Valid()
      reads this
    {
      0 <= state <= 2
    }

    function View(): Parser
      reads this, request
    {
      Parser(state, buffer, request.Value())
    }

    constructor ()
      ensures Valid() && View() == Fresh && fresh(request)
    {
      state := COMMAND;
      request := new Request();
      buffer := "";
    }

    method IncrementState()
      requires Valid()
      modifies this
      ensures Valid() && View() == old(View()).(state := NextState(old(state)))
    {
      if state == BODY {
        state := COMMAND;
      } else {
        state := state + 1;
      }
    }

    method HandleData(data: string)
      requires Valid()
      modifies this, request
      ensures Valid() && View() == DataHandled(old(View()), data)
    {
      buffer := buffer + data;
      if state == COMMAND {
        ParseCommand();
      }
      if state == HEADERS {
        ParseHeaders();
      }
      if state == BODY {
        ParseBody();
      }
    }

    method ParseCommand()
      requires Valid()
      modifies this, request
      ensures Valid() && View() == CommandParsed(old(View()))
    {
      var index := IndexOf(buffer, '\n');
      if index > -1 {
        request.SetCommand(buffer[..index]);
        buffer := buffer[index + 1..];
        IncrementState();
      }
    }

    method ParseHeaders()
      requires Valid()
      modifies this, request
      ensures Valid() && View() == HeadersParsed(old(View()))
    {
      while true
        invariant Valid()
        invariant HeadersParsed(View()) == HeadersParsed(old(View()))
        decreases |buffer|
      {
        var index := IndexOf(buffer, '\n');
        if index > -1 {
          var line := buffer[..index];
          if line == "" {
            buffer := buffer[1..];
            IncrementState();
            return;
          } else {
            var kv := SplitColon(buffer[..index]);
            request.SetHeader(kv.0, kv.1);
            buffer := buffer[index + 1..];
          }
        } else {
          break;
        }
      }
    }

    method ParseBody()
      requires Valid()
      modifies this, request
      ensures Valid() && View() == BodyParsed(old(View()))
    {
      ghost var p := View();
      if GreaterThan(request.contentLength, -1) {
        var remainingLength := request.contentLength.value - |request.body|;
        request.AppendToBody(Slice(buffer, 0, remainingLength));
        buffer := Substr(buffer, remainingLength);
        assert View() == LengthTaken(p);
        if request.contentLength == Num(|request.body|) {
          request.contentLength := Num(-1);
        } else {
          return;
        }
      }
      ScanToNul();
    }

    /** The tail of `parseBody` that looks for the terminating NUL. */
    method ScanToNul()
      requires Valid()
      modifies this, request
      ensures Valid() && View() == NulScanned(old(View()))
    {
      var index := IndexOf(buffer, '\0');
      if index == -1 {
        request.AppendToBody(buffer);
        buffer := "";
      } else {
        request.AppendToBody(buffer[..index]);
        IncrementState();
        buffer := buffer[index + 1..];
      }
    }
  }
}
