/** How the server's parser (`server.js`, `handleData`) behaves when the
    text of a frame arrives in pieces: each parse step either finishes on
    the first piece, and the second piece just waits behind it, or it
    waits for more, and running it again on the longer buffer does what
    one run on the whole text would have done. So a frame cut anywhere
    before its NUL is read exactly as if it had come in one piece. */
module Chunking {
  import opened Js
  import opened Dict
  import opened Wire
  import opened Server
  import opened Decoding

  /** The parser with `d` added to its buffer, as `handleData` first does. */
  function Appended(p: Parser, d: string): (q: Parser)
    ensures q.state == p.state && q.request == p.request && |q.buffer| == |p.buffer| + |d|
  {
    p.(buffer := p.buffer + d)
  }

  /** A command line already complete is read the same with more behind it. */
  lemma CommandSplit(p: Parser, d: string)
    requires '\n' in p.buffer
    ensures CommandParsed(Appended(p, d)) == Appended(CommandParsed(p), d)
  {
    var i := IndexOf(p.buffer, '\n');
    IndexOfAppend(p.buffer, d, '\n');
    assert (p.buffer + d)[..i] == p.buffer[..i];
    assert (p.buffer + d)[i + 1..] == p.buffer[i + 1..] + d;
  }

  /** `parseHeaders` on a longer buffer: if the headers ended within the
      first part, the rest just waits behind; otherwise the lines read so
      far are kept and reading goes on in the longer buffer. */
  lemma {:induction false} HeadersSplit(p: Parser, d: string)
    ensures HeadersParsed(p).state != p.state ==> HeadersParsed(Appended(p, d)) == Appended(HeadersParsed(p), d)
    ensures HeadersParsed(p).state == p.state ==> HeadersParsed(Appended(p, d)) == HeadersParsed(Appended(HeadersParsed(p), d))
    decreases |p.buffer|
  {
    var index := IndexOf(p.buffer, '\n');
    if index == -1 {
      IncompleteLineWaits(p);
    } else {
      var line, rest := p.buffer[..index], p.buffer[index + 1..];
      assert p.buffer == line + "\n" + rest;
      assert Appended(p, d).buffer == line + "\n" + (rest + d);
      if line == "" {
        BlankLineEnds(p.state, p.request, rest);
        BlankLineEnds(p.state, p.request, rest + d);
      } else {
        var q := p.(request := WithHeader(p.request, SplitColon(line).0, SplitColon(line).1), buffer := rest);
        HeaderLineSets(p, line, rest);
        HeaderLineSets(Appended(p, d), line, rest + d);
        assert Appended(q, d) == Appended(p, d).(request := q.request, buffer := rest + d);
        HeadersSplit(q, d);
      }
    }
  }

  /** The NUL scan on a longer buffer. */
  lemma NulSplit(p: Parser, d: string)
    ensures '\0' in p.buffer ==> NulScanned(Appended(p, d)) == Appended(NulScanned(p), d)
    ensures '\0' !in p.buffer ==> NulScanned(Appended(p, d)) == NulScanned(Appended(NulScanned(p), d))
  {
    if '\0' in p.buffer {
      NulFoundFirst(p, d);
    } else {
      NulFoundLater(p, d);
    }
  }

  lemma NulFoundFirst(p: Parser, d: string)
    requires '\0' in p.buffer
    ensures NulScanned(Appended(p, d)) == Appended(NulScanned(p), d)
  {
    var i := IndexOf(p.buffer, '\0');
    var b1, b2 := p.buffer[..i], p.buffer[i + 1..];
    assert p.buffer == b1 + "\0" + b2;
    assert Appended(p, d).buffer == b1 + "\0" + (b2 + d);
    NulAfter(p, b1, b2);
    NulAfter(Appended(p, d), b1, b2 + d);
  }

  lemma NulFoundLater(p: Parser, d: string)
    requires '\0' !in p.buffer
    ensures NulScanned(Appended(p, d)) == NulScanned(Appended(NulScanned(p), d))
  {
    if '\0' in d {
      NulLaterInSecond(p, d, IndexOf(d, '\0'));
    } else {
      NulLaterInNeither(p, d);
    }
  }

  lemma NulLaterInSecond(p: Parser, d: string, j: nat)
    requires '\0' !in p.buffer && j < |d| && d[j] == '\0' && '\0' !in d[..j]
    ensures NulScanned(Appended(p, d)) == NulScanned(Appended(NulScanned(p), d))
  {
    var q := p.(request := p.request.(body := p.request.body + p.buffer), buffer := d);
    assert Appended(NulScanned(p), d) == q;
    assert Appended(p, d) == p.(buffer := p.buffer + d);
    NulInSecondWhole(p, d, j);
    NulInSecondRest(p, d, j);
  }

  lemma NulLaterInNeither(p: Parser, d: string)
    requires '\0' !in p.buffer && '\0' !in d
    ensures NulScanned(Appended(p, d)) == NulScanned(Appended(NulScanned(p), d))
  {
    var q := p.(request := p.request.(body := p.request.body + p.buffer), buffer := d);
    assert Appended(NulScanned(p), d) == q;
    assert Appended(p, d) == p.(buffer := p.buffer + d);
    NulInNeither(p, d);
  }

  /** Where the first NUL of `d` falls, behind a buffer without one. */
  lemma NulCut(b: string, d: string, j: nat)
    requires '\0' !in b && j < |d| && d[j] == '\0' && '\0' !in d[..j]
    ensures '\0' !in b + d[..j]
    ensures d == d[..j] + "\0" + d[j + 1..]
    ensures b + d == (b + d[..j]) + "\0" + d[j + 1..]
  {
    CutAt(d, j, '\0');
  }

  lemma NulInSecondWhole(p: Parser, d: string, j: nat)
    requires '\0' !in p.buffer && j < |d| && d[j] == '\0' && '\0' !in d[..j]
    ensures NulScanned(p.(buffer := p.buffer + d))
         == Parser(NextState(p.state), d[j + 1..], p.request.(body := p.request.body + (p.buffer + d[..j])))
  {
    NulCut(p.buffer, d, j);
    NulAfter(p.(buffer := p.buffer + d), p.buffer + d[..j], d[j + 1..]);
  }

  lemma NulInSecondRest(p: Parser, d: string, j: nat)
    requires '\0' !in p.buffer && j < |d| && d[j] == '\0' && '\0' !in d[..j]
    ensures NulScanned(p.(request := p.request.(body := p.request.body + p.buffer), buffer := d))
         == Parser(NextState(p.state), d[j + 1..], p.request.(body := p.request.body + (p.buffer + d[..j])))
  {
    NulCut(p.buffer, d, j);
    NulAfter(p.(request := p.request.(body := p.request.body + p.buffer), buffer := d), d[..j], d[j + 1..]);
    Associated(p.request.body, p.buffer, d[..j]);
  }

  lemma Associated(a: string, b: string, c: string)
    ensures (a + b) + c == a + (b + c)
  {
  }

  lemma NulInNeither(p: Parser, d: string)
    requires '\0' !in p.buffer && '\0' !in d
    ensures var body := p.request.body + (p.buffer + d);
      && NulScanned(p.(buffer := p.buffer + d)) == p.(request := p.request.(body := body), buffer := "")
      && NulScanned(p.(request := p.request.(body := p.request.body + p.buffer), buffer := d))
         == p.(request := p.request.(body := body), buffer := "")
  {
    assert '\0' !in p.buffer + d;
    Associated(p.request.body, p.buffer, d);
  }

  /** The length branch on a longer buffer, for a body within the length. */
  lemma LengthSplit(p: Parser, d: string)
    requires GreaterThan(p.request.contentLength, -1) && WithinLength(p.request)
    ensures |p.request.body| + |p.buffer| >= p.request.contentLength.value ==>
      LengthTaken(Appended(p, d)) == Appended(LengthTaken(p), d)
    ensures |p.request.body| + |p.buffer| < p.request.contentLength.value ==>
      && LengthTaken(p) == p.(request := p.request.(body := p.request.body + p.buffer), buffer := "")
      && LengthTaken(Appended(p, d)) == LengthTaken(Appended(LengthTaken(p), d))
  {
    if |p.request.body| + |p.buffer| >= p.request.contentLength.value {
      LengthReached(p, d);
    } else {
      LengthShort(p, d);
    }
  }

  lemma LengthReached(p: Parser, d: string)
    requires GreaterThan(p.request.contentLength, -1)
    requires |p.request.body| <= p.request.contentLength.value <= |p.request.body| + |p.buffer|
    ensures LengthTaken(Appended(p, d)) == Appended(LengthTaken(p), d)
  {
    assert Appended(p, d) == p.(buffer := p.buffer + d);
    CutInFirst(p.buffer, d, p.request.contentLength.value - |p.request.body|);
  }

  lemma LengthShort(p: Parser, d: string)
    requires GreaterThan(p.request.contentLength, -1)
    requires |p.request.body| + |p.buffer| < p.request.contentLength.value
    ensures LengthTaken(p) == p.(request := p.request.(body := p.request.body + p.buffer), buffer := "")
    ensures LengthTaken(Appended(p, d)) == LengthTaken(Appended(LengthTaken(p), d))
  {
    var q := p.(request := p.request.(body := p.request.body + p.buffer), buffer := "");
    LengthShortTakesAll(p);
    assert Appended(LengthTaken(p), d) == q.(buffer := d);
    assert Appended(p, d) == p.(buffer := p.buffer + d);
    LengthShortLonger(p, d);
  }

  lemma LengthShortTakesAll(p: Parser)
    requires GreaterThan(p.request.contentLength, -1)
    requires |p.request.body| + |p.buffer| < p.request.contentLength.value
    ensures LengthTaken(p) == p.(request := p.request.(body := p.request.body + p.buffer), buffer := "")
  {
    var remaining := p.request.contentLength.value - |p.request.body|;
    assert Slice(p.buffer, 0, remaining) == p.buffer;
    assert Substr(p.buffer, remaining) == "";
  }

  lemma LengthShortLonger(p: Parser, d: string)
    requires GreaterThan(p.request.contentLength, -1)
    requires |p.request.body| + |p.buffer| < p.request.contentLength.value
    ensures LengthTaken(p.(buffer := p.buffer + d))
         == LengthTaken(p.(request := p.request.(body := p.request.body + p.buffer), buffer := d))
  {
    var remaining := p.request.contentLength.value - |p.request.body|;
    CutInSecond(p.buffer, d, remaining);
    Associated(p.request.body, p.buffer, Slice(d, 0, remaining - |p.buffer|));
  }

  /** `parseBody` on a longer buffer, for a body within the length: if the
      frame ended within the first part, the rest waits behind it;
      otherwise running it again on the longer buffer does what one run on
      the whole would have done. */
  lemma BodySplit(p: Parser, d: string)
    requires WithinLength(p.request)
    ensures BodyParsed(p).state != p.state ==> BodyParsed(Appended(p, d)) == Appended(BodyParsed(p), d)
    ensures BodyParsed(p).state == p.state ==> BodyParsed(Appended(p, d)) == BodyParsed(Appended(BodyParsed(p), d))
  {
    if GreaterThan(p.request.contentLength, -1) {
      LengthSplit(p, d);
      var q := LengthTaken(p);
      if |p.request.body| + |p.buffer| >= p.request.contentLength.value {
        assert |q.request.body| == p.request.contentLength.value;
        var q0 := q.(request := q.request.(contentLength := Num(-1)));
        assert BodyParsed(p) == NulScanned(q0);
        assert BodyParsed(Appended(p, d)) == NulScanned(Appended(q0, d));
        NulSplit(q0, d);
      } else {
        assert BodyParsed(p) == q;
      }
    } else {
      NulSplit(p, d);
    }
  }

  /** What `handleData` does after the COMMAND step. */
  function FromHeaders(q: Parser): Parser
  {
    var p3 := if q.state == HEADERS then HeadersParsed(q) else q;
    if p3.state == BODY then BodyParsed(p3) else p3
  }

  lemma DataHandledSteps(p: Parser, d: string)
    ensures DataHandled(p, d) == FromHeaders(if p.state == COMMAND then CommandParsed(Appended(p, d)) else Appended(p, d))
  {
  }

  /** From BODY, with the frame not finished in the first part. */
  lemma BodyOnSplit(p: Parser, b: string)
    requires p.state == BODY && WithinLength(p.request)
    requires |BodyParsed(Appended(p, b)).buffer| < |b|
    ensures DataHandled(BodyParsed(p), b) == BodyParsed(Appended(p, b))
  {
    BodySplit(p, b);
    assert BodyParsed(p).state == BODY;
  }

  /** From HEADERS, with an empty body and the frame not finished in the
      first part. */
  lemma HeadersOnSplit(c: Parser, b: string)
    requires c.state == HEADERS && c.request.body == ""
    requires |FromHeaders(Appended(c, b)).buffer| < |b|
    ensures DataHandled(FromHeaders(c), b) == FromHeaders(Appended(c, b))
  {
    var h := HeadersParsed(c);
    HeadersSplit(c, b);
    if h.state == HEADERS {
      assert FromHeaders(c) == h;
      DataHandledSteps(h, b);
    } else {
      assert FromHeaders(Appended(c, b)) == BodyParsed(Appended(h, b));
      BodyOnSplit(h, b);
    }
  }

  /** Two `handleData` calls do what one call on the joined text does, as
      long as that one call reads into the second piece (so the first
      piece does not finish a frame). The parser starts in a state where
      a body can be read: an empty body before BODY, and a body within the
      announced length in BODY. */
  lemma SplitDelivery(p: Parser, a: string, b: string)
    requires 0 <= p.state <= 2
    requires p.state != BODY ==> p.request.body == ""
    requires WithinLength(p.request)
    requires |DataHandled(p, a + b).buffer| < |b|
    ensures DataHandled(DataHandled(p, a), b) == DataHandled(p, a + b)
  {
    var pa := Appended(p, a);
    assert Appended(pa, b) == Appended(p, a + b);
    DataHandledSteps(p, a);
    DataHandledSteps(p, a + b);
    if p.state == COMMAND {
      if '\n' in pa.buffer {
        CommandSplit(pa, b);
        HeadersOnSplit(CommandParsed(pa), b);
      } else {
        assert DataHandled(p, a) == pa;
        DataHandledSteps(pa, b);
      }
    } else if p.state == HEADERS {
      HeadersOnSplit(pa, b);
    } else {
      BodyOnSplit(pa, b);
    }
  }

  /** The wire form of a frame, cut anywhere before its NUL and delivered
      in two `handleData` calls, is read exactly as when it comes in one:
      the same command, headers and body, with the text after the NUL left
      in the buffer. */
  lemma ChunkedFrameDecodes(r: RequestValue, f: Frame, k: nat, rest: string)
    requires Decodable(f)
    requires r.body == "" && r.contentLength == Num(-1)
    requires k < |Encode(f)|
    ensures var e := Encode(f);
      DataHandled(DataHandled(Parser(COMMAND, "", r), e[..k]), e[k..] + rest)
        == Parser(COMMAND, rest, Decoded(r, f))
  {
    var e := Encode(f);
    var p0, a, b := Parser(COMMAND, "", r), e[..k], e[k..] + rest;
    assert DataHandled(p0, a + b) == Parser(COMMAND, rest, Decoded(r, f)) by {
      assert a + b == e + rest;
      EncodedFrameDecodes(r, f, rest);
    }
    SplitDelivery(p0, a, b);
  }

  /** The parser after `handleData` has been called with each chunk in turn. */
  function Fed(p: Parser, chunks: seq<string>): Parser
    decreases |chunks|
  {
    if chunks == [] then p else Fed(DataHandled(p, chunks[0]), chunks[1..])
  }

  /** Once the body has passed the announced length, no sequence of further
      chunks ever ends the frame. */
  lemma {:induction false} StaleBodyNeverEnds(p: Parser, chunks: seq<string>)
    requires p.state == BODY
    requires GreaterThan(p.request.contentLength, -1) && |p.request.body| > p.request.contentLength.value
    ensures var r := Fed(p, chunks);
      && r.state == BODY
      && r.request.contentLength == p.request.contentLength
      && |r.request.body| >= |p.request.body|
    decreases |chunks|
  {
    if chunks != [] {
      var q := DataHandled(p, chunks[0]);
      assert q == BodyParsed(Appended(p, chunks[0])) by {
        DataHandledSteps(p, chunks[0]);
      }
      BodyPastLengthStalls(Appended(p, chunks[0]));
      StaleBodyNeverEnds(q, chunks[1..]);
    }
  }
}
