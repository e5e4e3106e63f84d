/** `StompRequest` of `request.js`: the same frame object with a
    constructor that takes no argument. */
module RootRequest {
  import opened Js
  import opened Dict
  import opened Wire

  class StompRequest {
    var command: string
    var headers: Dict<string>
    var body: string
    var contentLength: Number

    function Value(): Frame
      reads this
    {
      Frame(command, headers, body)
    }

    /** A new request: no command, no headers, no body, no length. */
    constructor ()
      ensures command == "" && headers == [] && body == "" && contentLength == Num(-1)
    {
      command, headers, body := "", [], "";
      contentLength := Num(-1);
    }

    /** `send(stream)`: writes the frame's wire form to `stream`. */
    method Send(stream: Stream)
      modifies stream
      ensures stream.written == old(stream.written) + Encode(Value())
    {
      stream.Write(command + "\n");
      var i := 0;
      while i < |headers|
        invariant 0 <= i <= |headers|
        invariant stream.written == old(stream.written) + command + "\n" + HeaderLines(headers[..i])
      {
        assert headers[..i + 1][..i] == headers[..i];
        stream.Write(HeaderLine(headers[i].0, headers[i].1));
        i := i + 1;
      }
      assert headers[..i] == headers;
      ghost var head := stream.written;
      if |body| > 0 {
        stream.Write(HeaderLine("content-length", NatToString(|body|)));
      }
      assert stream.written == head + ContentLengthLine(body);
      stream.Write("\n");
      if |body| > 0 {
        stream.Write(body);
      }
      assert stream.written == head + ContentLengthLine(body) + "\n" + body;
      stream.Write("\0");
      EncodeAfter(old(stream.written), Value());
    }

    method SetCommand(c: string)
      modifies this
      ensures command == c
      ensures headers == old(headers) && body == old(body) && contentLength == old(contentLength)
    {
      command := c;
    }

    /** `setHeader(key, value)`: the header is set, and a `content-length`
        key (in any case) also sets `contentLength` to its parsed value. */
    method SetHeader(key: string, value: string)
      modifies this
      ensures headers == Put(old(headers), key, value)
      ensures contentLength == if IsContentLengthKey(key) then ParseInt(Some(value)) else old(contentLength)
      ensures command == old(command) && body == old(body)
    {
      headers := Put(headers, key, value);
      if ToLowerCase(key) == "content-length" {
        contentLength := ParseInt(Some(value));
      }
    }

    method AppendToBody(data: string)
      modifies this
      ensures body == old(body) + data
      ensures command == old(command) && headers == old(headers) && contentLength == old(contentLength)
    {
      body := body + data;
    }
  }
}
