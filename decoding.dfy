/** What the server's parser (`server.js`) makes of the text the frame
    classes write with `send`: a frame whose command, header keys and
    values are plain lines comes back whole, with the synthesised
    `content-length` header added, and whatever follows its NUL is left in
    the buffer for the next chunk. */
module Decoding {
  import opened Js
  import opened Dict
  import opened Wire
  import opened Server

  /** Header values as the server stores them: all present. */
  function Lifted(hs: Dict<string>): (r: Dict<Option<string>>)
    ensures |r| == |hs|
    ensures forall i :: 0 <= i < |hs| ==> r[i] == (hs[i].0, Some(hs[i].1))
  {
    if hs == [] then [] else [(hs[0].0, Some(hs[0].1))] + Lifted(hs[1..])
  }

  /** `setHeader` applied to each pair of `hs` in order. */
  function HeadersSet(r: RequestValue, hs: Dict<string>): RequestValue
    decreases |hs|
  {
    if hs == [] then r else HeadersSet(WithHeader(r, hs[0].0, Some(hs[0].1)), hs[1..])
  }

  /** Setting the headers of a one-pair list sets that one header. */
  lemma HeadersSetOne(r: RequestValue, key: string, value: string)
    ensures HeadersSet(r, [(key, value)]) == WithHeader(r, key, Some(value))
  {
    assert [(key, value)][1..] == [];
  }

  /** A header line the parser reads back as written: neither the key nor
      the value holds a colon or a newline. */
  predicate PlainLine(kv: (string, string))
  {
    ':' !in kv.0 && '\n' !in kv.0 && ':' !in kv.1 && '\n' !in kv.1
  }

  /** The pair `send` adds for a non-empty body. */
  function ContentLengthPair(body: string): Dict<string>
  {
    if |body| > 0 then [("content-length", NatToString(|body|))] else []
  }

  lemma ContentLengthLineIsHeaderLines(body: string)
    ensures ContentLengthLine(body) == HeaderLines(ContentLengthPair(body))
  {
    if |body| > 0 {
      var kv := ContentLengthPair(body);
      assert kv[..0] == [];
    }
  }

  /** A block of plain header lines ended by a blank line is read in full:
      every pair is set in order, the blank line is dropped and the state
      advances. */
  lemma {:induction false} HeaderBlock(s: int, r: RequestValue, hs: Dict<string>, rest: string)
    requires forall i :: 0 <= i < |hs| ==> PlainLine(hs[i])
    ensures HeadersParsed(Parser(s, HeaderLines(hs) + "\n" + rest, r))
         == Parser(NextState(s), rest, HeadersSet(r, hs))
    decreases |hs|
  {
    if hs == [] {
      BlankLineEnds(s, r, rest);
    } else {
      var line := hs[0].0 + ":" + hs[0].1;
      var tail := HeaderLines(hs[1..]) + "\n" + rest;
      assert HeaderLines(hs) + "\n" + rest == line + "\n" + tail by {
        FirstHeaderLine(hs, rest);
      }
      var r1 := WithHeader(r, hs[0].0, Some(hs[0].1));
      assert HeadersParsed(Parser(s, line + "\n" + tail, r)) == HeadersParsed(Parser(s, tail, r1)) by {
        HeaderLineSets(Parser(s, line + "\n" + tail, r), line, tail);
        SplitColonPair(hs[0].0, hs[0].1);
      }
      HeaderBlock(s, r1, hs[1..], rest);
    }
  }

  /** The first header line comes first on the wire. */
  lemma FirstHeaderLine(hs: Dict<string>, rest: string)
    requires hs != []
    ensures HeaderLines(hs) + "\n" + rest == hs[0].0 + ":" + hs[0].1 + "\n" + (HeaderLines(hs[1..]) + "\n" + rest)
  {
    HeaderLinesAppend([hs[0]], hs[1..]);
    assert [hs[0]] + hs[1..] == hs;
    assert HeaderLines([hs[0]]) == HeaderLine(hs[0].0, hs[0].1) by {
      assert [hs[0]][..0] == [];
    }
  }

  lemma BlankLineEnds(s: int, r: RequestValue, rest: string)
    ensures HeadersParsed(Parser(s, "\n" + rest, r)) == Parser(NextState(s), rest, r)
  {
    assert ("\n" + rest)[1..] == rest;
  }

  /** Setting plain pairs stores them as `PutAll` does and, when none of
      their keys is `content-length`, leaves `contentLength` alone. */
  lemma {:induction false} HeadersSetFacts(r: RequestValue, hs: Dict<string>)
    ensures HeadersSet(r, hs).headers == PutAll(r.headers, Lifted(hs))
    ensures HeadersSet(r, hs).command == r.command && HeadersSet(r, hs).body == r.body
    ensures (forall i :: 0 <= i < |hs| ==> !IsContentLengthKey(hs[i].0))
        ==> HeadersSet(r, hs).contentLength == r.contentLength
    decreases |hs|
  {
    if hs != [] {
      HeadersSetFacts(WithHeader(r, hs[0].0, Some(hs[0].1)), hs[1..]);
      assert Lifted(hs)[1..] == Lifted(hs[1..]);
    }
  }

  lemma {:induction false} HeadersSetAppend(r: RequestValue, a: Dict<string>, b: Dict<string>)
    ensures HeadersSet(r, a + b) == HeadersSet(HeadersSet(r, a), b)
    decreases |a|
  {
    if a != [] {
      assert (a + b)[1..] == a[1..] + b;
      HeadersSetAppend(WithHeader(r, a[0].0, Some(a[0].1)), a[1..], b);
    } else {
      assert a + b == b;
    }
  }

  /** A frame `send` can write so that the parser reads it back: the
      command is one line, and every header is a plain line with a
      `content-length` key of no case. */
  predicate Decodable(f: Frame)
  {
    && '\n' !in f.command
    && (forall i :: 0 <= i < |f.headers| ==> PlainLine(f.headers[i]) && !IsContentLengthKey(f.headers[i].0))
  }

  /** The request the parser fills in for `f`, starting from `r`. */
  function Decoded(r: RequestValue, f: Frame): RequestValue
  {
    RequestValue(f.command, PutAll(r.headers, Lifted(f.headers + ContentLengthPair(f.body))), f.body, Num(-1))
  }

  /** A command line without newline is read as the command. */
  lemma CommandLine(r: RequestValue, command: string, after: string)
    requires '\n' !in command
    ensures CommandParsed(Parser(COMMAND, command + "\n" + after, r)) == Parser(HEADERS, after, r.(command := command))
  {
    var b := command + "\n" + after;
    assert b[..|command|] == command;
    assert b[|command|] == '\n';
    assert IndexOf(b, '\n') == |command|;
    assert b[|command| + 1..] == after;
  }

  /** A body free of NUL followed by a NUL is scanned in one step. */
  lemma NulAfter(p: Parser, body: string, rest: string)
    requires '\0' !in body && p.buffer == body + "\0" + rest
    ensures NulScanned(p) == Parser(NextState(p.state), rest, p.request.(body := p.request.body + body))
  {
    assert p.buffer[..|body|] == body && p.buffer[|body|] == '\0';
    assert IndexOf(p.buffer, '\0') == |body|;
    assert p.buffer[|body| + 1..] == rest;
  }

  /** A body of the announced length is taken whole, and the NUL right
      after it ends the frame. */
  lemma BodyByLength(r: RequestValue, body: string, rest: string)
    requires r.body == "" && |body| > 0 && r.contentLength == Num(|body|)
    ensures BodyParsed(Parser(BODY, body + "\0" + rest, r))
         == Parser(COMMAND, rest, r.(body := body, contentLength := Num(-1)))
  {
    var p := Parser(BODY, body + "\0" + rest, r);
    assert p.buffer[0..|body|] == body;
    assert p.buffer[|body|..] == "\0" + rest;
    var q := LengthTaken(p);
    assert q == Parser(BODY, "\0" + rest, r.(body := body));
    NulAfter(q.(request := q.request.(contentLength := Num(-1))), "", rest);
    assert body + "" == body;
  }

  /** With no length announced, the body runs to the first NUL and is
      appended to what the request held. */
  lemma BodyToNul(r: RequestValue, body: string, rest: string)
    requires r.contentLength == Num(-1) && '\0' !in body
    ensures BodyParsed(Parser(BODY, body + "\0" + rest, r))
         == Parser(COMMAND, rest, r.(body := r.body + body))
  {
    NulAfter(Parser(BODY, body + "\0" + rest, r), body, rest);
  }

  /** The request after the header block of `f`'s wire form. */
  lemma HeaderBlockOf(r: RequestValue, f: Frame)
    requires Decodable(f)
    requires r.body == "" && r.contentLength == Num(-1)
    ensures var r2 := HeadersSet(r, f.headers + ContentLengthPair(f.body));
      && r2.command == r.command && r2.body == ""
      && r2.headers == PutAll(r.headers, Lifted(f.headers + ContentLengthPair(f.body)))
      && r2.contentLength == if |f.body| > 0 then Num(|f.body|) else Num(-1)
  {
    var all := f.headers + ContentLengthPair(f.body);
    HeadersSetAppend(r, f.headers, ContentLengthPair(f.body));
    HeadersSetFacts(r, all);
    HeadersSetFacts(r, f.headers);
    var r1 := HeadersSet(r, f.headers);
    assert r1.contentLength == Num(-1);
    if |f.body| > 0 {
      LengthHeaderSet(r1, f.body);
    }
  }

  /** The synthesised pair sets the announced length and leaves the rest. */
  lemma LengthHeaderSet(r1: RequestValue, body: string)
    requires 0 < |body|
    ensures var r2 := HeadersSet(r1, ContentLengthPair(body));
      r2.command == r1.command && r2.body == r1.body && r2.contentLength == Num(|body|)
  {
    var n := NatToString(|body|);
    assert ContentLengthPair(body) == [("content-length", n)];
    ContentLengthKey();
    ParseIntOfNatToString(|body|);
    HeadersSetOne(r1, "content-length", n);
  }

  lemma ContentLengthKey()
    ensures IsContentLengthKey("content-length")
  {
    var k := "content-length";
    assert forall i :: 0 <= i < |k| ==> LowerChar(k[i]) == k[i];
  }

  /** The wire form of `f` followed by `rest`, cut where the parser
      steps cut it. */
  lemma WireForm(f: Frame, all: Dict<string>, rest: string)
    requires HeaderLines(all) == HeaderLines(f.headers) + ContentLengthLine(f.body)
    ensures "" + (Encode(f) + rest) == f.command + "\n" + (HeaderLines(all) + "\n" + (f.body + "\0" + rest))
  {
    EncodeAfter("", f);
    Regroup(f.command + "\n", HeaderLines(f.headers), ContentLengthLine(f.body), f.body, rest);
  }

  lemma Regroup(a: string, b: string, c: string, body: string, rest: string)
    ensures "" + (a + b + c + "\n" + body + "\0" + rest) == a + ((b + c) + "\n" + (body + "\0" + rest))
  {
  }

  /** A `handleData` call that passes through all three states. */
  lemma ThroughAllStates(p: Parser, data: string, p2: Parser, p3: Parser)
    requires p.state == COMMAND
    requires CommandParsed(p.(buffer := p.buffer + data)) == p2 && p2.state == HEADERS
    requires HeadersParsed(p2) == p3 && p3.state == BODY
    ensures DataHandled(p, data) == BodyParsed(p3)
  {
  }

  /** One `handleData` call on the bytes of a whole frame, from the start
      of a frame and with an empty body and no pending length in the
      request, reads that frame and only that frame: the command, the
      headers (with `content-length` added for a non-empty body, which may
      then hold any character, NUL included) and the body; the state is
      back at COMMAND and the text after the frame's NUL is left in the
      buffer. */
  lemma EncodedFrameDecodes(r: RequestValue, f: Frame, rest: string)
    requires Decodable(f)
    requires r.body == "" && r.contentLength == Num(-1)
    ensures DataHandled(Parser(COMMAND, "", r), Encode(f) + rest) == Parser(COMMAND, rest, Decoded(r, f))
  {
    var all := f.headers + ContentLengthPair(f.body);
    var tail := f.body + "\0" + rest;
    var r1 := r.(command := f.command);
    var r2 := HeadersSet(r1, all);
    var p0 := Parser(COMMAND, "", r);
    var p2 := Parser(HEADERS, HeaderLines(all) + "\n" + tail, r1);
    var p3 := Parser(BODY, tail, r2);
    assert CommandParsed(p0.(buffer := p0.buffer + (Encode(f) + rest))) == p2 by {
      CommandStepOf(r, f, rest);
    }
    assert HeadersParsed(p2) == p3 by {
      HeaderStepOf(r1, f, tail);
    }
    assert BodyParsed(p3) == Parser(COMMAND, rest, Decoded(r, f)) by {
      BodyStepOf(r1, f, rest);
    }
    ThroughAllStates(p0, Encode(f) + rest, p2, p3);
  }

  /** The command line of `f`'s wire form. */
  lemma CommandStepOf(r: RequestValue, f: Frame, rest: string)
    requires '\n' !in f.command
    ensures var all := f.headers + ContentLengthPair(f.body);
      var p0 := Parser(COMMAND, "", r);
      CommandParsed(p0.(buffer := p0.buffer + (Encode(f) + rest)))
        == Parser(HEADERS, HeaderLines(all) + "\n" + (f.body + "\0" + rest), r.(command := f.command))
  {
    var all := f.headers + ContentLengthPair(f.body);
    HeaderLinesAppend(f.headers, ContentLengthPair(f.body));
    ContentLengthLineIsHeaderLines(f.body);
    WireForm(f, all, rest);
    CommandLine(r, f.command, HeaderLines(all) + "\n" + (f.body + "\0" + rest));
  }

  /** The header block of `f`'s wire form. */
  lemma HeaderStepOf(r1: RequestValue, f: Frame, tail: string)
    requires Decodable(f)
    ensures var all := f.headers + ContentLengthPair(f.body);
      HeadersParsed(Parser(HEADERS, HeaderLines(all) + "\n" + tail, r1)) == Parser(BODY, tail, HeadersSet(r1, all))
  {
    var all := f.headers + ContentLengthPair(f.body);
    forall i | 0 <= i < |all| ensures PlainLine(all[i]) {
      if i >= |f.headers| {
        assert all[i] == ("content-length", NatToString(|f.body|));
      }
    }
    HeaderBlock(HEADERS, r1, all, tail);
  }

  /** The body and NUL of `f`'s wire form. */
  lemma BodyStepOf(r1: RequestValue, f: Frame, rest: string)
    requires Decodable(f)
    requires r1.body == "" && r1.contentLength == Num(-1) && r1.command == f.command
    ensures var r2 := HeadersSet(r1, f.headers + ContentLengthPair(f.body));
      BodyParsed(Parser(BODY, f.body + "\0" + rest, r2)) == Parser(COMMAND, rest, Decoded(r1, f))
  {
    var r2 := HeadersSet(r1, f.headers + ContentLengthPair(f.body));
    HeaderBlockOf(r1, f);
    if |f.body| > 0 {
      BodyByLength(r2, f.body, rest);
    } else {
      BodyToNul(r2, f.body, rest);
    }
  }

  /** From a freshly constructed parser, the headers come back exactly as
      sent, in order, followed by `content-length` for a non-empty body.
      Header keys sent must be distinct, as in a JavaScript object. */
  lemma FreshParserDecodes(f: Frame, rest: string)
    requires Decodable(f) && UniqueKeys(f.headers)
    ensures DataHandled(Fresh, Encode(f) + rest)
         == Parser(COMMAND, rest, RequestValue(f.command, Lifted(f.headers + ContentLengthPair(f.body)), f.body, Num(-1)))
  {
    EncodedFrameDecodes(FreshRequest, f, rest);
    var kvs := Lifted(f.headers + ContentLengthPair(f.body));
    SentKeysUnique(f);
    PutAllFresh([], kvs);
    assert [] + kvs == kvs;
  }

  /** The keys `send` writes are distinct when the frame's own are: the
      synthesised `content-length` cannot clash with a plain header. */
  lemma SentKeysUnique(f: Frame)
    requires Decodable(f) && UniqueKeys(f.headers)
    ensures UniqueKeys(Lifted(f.headers + ContentLengthPair(f.body)))
  {
    var kvs := Lifted(f.headers + ContentLengthPair(f.body));
    ContentLengthKey();
    forall i, j | 0 <= i < j < |kvs| ensures kvs[i].0 != kvs[j].0 {
      if j >= |f.headers| {
        assert kvs[j].0 == "content-length";
        assert !IsContentLengthKey(kvs[i].0);
      }
    }
  }

  /** A frame with no header line and no `content-length`: the blank line
      right after the command ends the headers, and the body runs to the
      first NUL, so a body that starts with a newline keeps it (a CONNECTED
      frame written as "CONNECTED\n\n\n\0" has the body "\n"). The
      request object is never replaced, so the body is appended to the
      previous frame's body and the previous headers stay. */
  lemma HeaderlessFrame(r: RequestValue, command: string, body: string, rest: string)
    requires r.contentLength == Num(-1)
    requires '\n' !in command && '\0' !in body
    ensures DataHandled(Parser(COMMAND, "", r), command + "\n\n" + body + "\0" + rest)
         == Parser(COMMAND, rest, RequestValue(command, r.headers, r.body + body, Num(-1)))
  {
    var p0 := Parser(COMMAND, "", r);
    var data := command + "\n\n" + body + "\0" + rest;
    var r1 := r.(command := command);
    var p2, p3 := Parser(HEADERS, "\n" + (body + "\0" + rest), r1), Parser(BODY, body + "\0" + rest, r1);
    assert CommandParsed(p0.(buffer := p0.buffer + data)) == p2 by {
      assert p0.buffer + data == command + "\n" + p2.buffer;
      CommandLine(r, command, p2.buffer);
    }
    assert HeadersParsed(p2) == p3 by {
      BlankLineEnds(HEADERS, r1, p3.buffer);
    }
    BodyToNul(r1, body, rest);
    ThroughAllStates(p0, data, p2, p3);
  }

  /** The second of two frames on one connection: its body is read after
      the first frame's body, in the one request object. */
  lemma SecondFrameAccumulates(c1: string, b1: string, c2: string, b2: string)
    requires '\n' !in c1 && '\0' !in b1 && '\n' !in c2 && '\0' !in b2
    ensures var first := DataHandled(Fresh, c1 + "\n\n" + b1 + "\0");
      && first == Parser(COMMAND, "", RequestValue(c1, [], b1, Num(-1)))
      && DataHandled(first, c2 + "\n\n" + b2 + "\0") == Parser(COMMAND, "", RequestValue(c2, [], b1 + b2, Num(-1)))
  {
    HeaderlessFrame(FreshRequest, c1, b1, "");
    assert c1 + "\n\n" + b1 + "\0" + "" == c1 + "\n\n" + b1 + "\0";
    HeaderlessFrame(RequestValue(c1, [], b1, Num(-1)), c2, b2, "");
    assert c2 + "\n\n" + b2 + "\0" + "" == c2 + "\n\n" + b2 + "\0";
    assert "" + b1 == b1;
  }

  /** A second frame whose `content-length` is shorter than the body kept
      from the first frame never completes: the request is never
      replaced, so the length is already passed when the body starts, and
      the parser stays in BODY with the length still announced. */
  lemma ShorterSecondFrameStalls(c1: string, b1: string, c2: string, b2: string, rest: string)
    requires '\n' !in c1 && '\0' !in b1 && '\n' !in c2 && 0 < |b2| < |b1|
    ensures var first := DataHandled(Fresh, c1 + "\n\n" + b1 + "\0");
      var second := DataHandled(first, Encode(Frame(c2, [], b2)) + rest);
      && second.state == BODY
      && second.request.contentLength == Num(|b2|)
      && |second.request.body| > |b2|
  {
    var r := RequestValue(c1, [], b1, Num(-1));
    assert DataHandled(Fresh, c1 + "\n\n" + b1 + "\0") == Parser(COMMAND, "", r) by {
      HeaderlessFrame(FreshRequest, c1, b1, "");
      assert c1 + "\n\n" + b1 + "\0" + "" == c1 + "\n\n" + b1 + "\0";
      assert "" + b1 == b1;
    }
    StaleRequestStalls(r, c2, b2, rest);
  }

  /** From the start of a frame, a request holding a body longer than the
      `content-length` a new frame announces leaves the parser in BODY. */
  lemma StaleRequestStalls(r: RequestValue, c2: string, b2: string, rest: string)
    requires '\n' !in c2 && 0 < |b2| < |r.body|
    ensures var second := DataHandled(Parser(COMMAND, "", r), Encode(Frame(c2, [], b2)) + rest);
      && second.state == BODY
      && second.request.contentLength == Num(|b2|)
      && |second.request.body| > |b2|
  {
    var r2 := WithHeader(r.(command := c2), "content-length", Some(NatToString(|b2|)));
    var p3 := Parser(BODY, b2 + "\0" + rest, r2);
    LengthOnlyFrameReachesBody(r, c2, b2, rest);
    assert r2.contentLength == Num(|b2|) && r2.body == r.body by {
      ContentLengthKey();
      ParseIntOfNatToString(|b2|);
    }
    BodyPastLengthStalls(p3);
  }

  /** A frame with a body and no other header takes the parser to its body
      step with the announced length set. */
  lemma LengthOnlyFrameReachesBody(r: RequestValue, c2: string, b2: string, rest: string)
    requires '\n' !in c2 && 0 < |b2|
    ensures DataHandled(Parser(COMMAND, "", r), Encode(Frame(c2, [], b2)) + rest)
         == BodyParsed(Parser(BODY, b2 + "\0" + rest,
                              WithHeader(r.(command := c2), "content-length", Some(NatToString(|b2|)))))
  {
    var tail := b2 + "\0" + rest;
    var r1 := r.(command := c2);
    var p2 := Parser(HEADERS, HeaderLines(ContentLengthPair(b2)) + "\n" + tail, r1);
    var p3 := Parser(BODY, tail, WithHeader(r1, "content-length", Some(NatToString(|b2|))));
    LengthOnlyCommandStep(r, c2, b2, rest);
    LengthOnlyHeaderStep(r1, b2, tail);
    ThroughAllStates(Parser(COMMAND, "", r), Encode(Frame(c2, [], b2)) + rest, p2, p3);
  }

  /** The command line of a frame with only a body. */
  lemma LengthOnlyCommandStep(r: RequestValue, c2: string, b2: string, rest: string)
    requires '\n' !in c2
    ensures var p0 := Parser(COMMAND, "", r);
      CommandParsed(p0.(buffer := p0.buffer + (Encode(Frame(c2, [], b2)) + rest)))
        == Parser(HEADERS, HeaderLines(ContentLengthPair(b2)) + "\n" + (b2 + "\0" + rest), r.(command := c2))
  {
    var f := Frame(c2, [], b2);
    assert f.headers + ContentLengthPair(f.body) == ContentLengthPair(b2);
    CommandStepOf(r, f, rest);
  }

  /** The header block of a frame with only a body: its one line sets the
      announced length. */
  lemma LengthOnlyHeaderStep(r1: RequestValue, b2: string, tail: string)
    requires 0 < |b2|
    ensures HeadersParsed(Parser(HEADERS, HeaderLines(ContentLengthPair(b2)) + "\n" + tail, r1))
         == Parser(BODY, tail, WithHeader(r1, "content-length", Some(NatToString(|b2|))))
  {
    var f := Frame("", [], b2);
    assert f.headers + ContentLengthPair(f.body) == ContentLengthPair(b2) == [("content-length", NatToString(|b2|))];
    HeaderStepOf(r1, f, tail);
    HeadersSetOne(r1, "content-length", NatToString(|b2|));
  }
}
