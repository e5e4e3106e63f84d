/** The STOMP wire layout that the three frame classes (`lib/frame.js`,
    `frame.js`, `request.js`) write with their `send` method, and the
    write-only stream they write it to. */
module Wire {
  import opened Js
  import opened Dict

  /** The command, headers and body of a frame, as a value. */
  datatype Frame = Frame(command: string, headers: Dict<string>, body: string)

  /** One `key:value` header line. */
  function HeaderLine(key: string, value: string): string
  {
    key + ":" + value + "\n"
  }

  /** The header lines of `headers`, in enumeration order. */
  function HeaderLines(headers: Dict<string>): string
  {
    if headers == [] then ""
    else HeaderLines(headers[..|headers| - 1]) + HeaderLine(headers[|headers| - 1].0, headers[|headers| - 1].1)
  }

  /** The header lines of two dictionaries written one after the other. */
  lemma {:induction false} HeaderLinesAppend(a: Dict<string>, b: Dict<string>)
    ensures HeaderLines(a + b) == HeaderLines(a) + HeaderLines(b)
    decreases |b|
  {
    if b != [] {
      var b' := b[..|b| - 1];
      assert (a + b)[..|a + b| - 1] == a + b';
      HeaderLinesAppend(a, b');
    } else {
      assert a + b == a;
    }
  }

  /** The lines of a two-header object. */
  lemma TwoHeaderLines(a: (string, string), b: (string, string))
    ensures HeaderLines([a, b]) == HeaderLine(a.0, a.1) + HeaderLine(b.0, b.1)
  {
    var ab := [a, b];
    assert ab[..|ab| - 1] == [a] && ab[|ab| - 1] == b;
    assert [a][..0] == [];
    assert HeaderLines([a]) == HeaderLine(a.0, a.1);
    assert HeaderLines(ab) == HeaderLines([a]) + HeaderLine(b.0, b.1);
  }

  /** The synthesised `content-length` line: present only for a non-empty
      body, and then carrying the body's length in decimal. */
  function ContentLengthLine(body: string): string
  {
    if |body| > 0 then HeaderLine("content-length", NatToString(|body|)) else ""
  }

  /** Everything `send` writes, in order: the command line, the header
      lines, the optional `content-length` line, a blank line, the body and
      a NUL. */
  function Encode(f: Frame): (w: string)
    ensures |w| > |f.command| + |f.body| + 1
    ensures w[..|f.command| + 1] == f.command + "\n"
    ensures w[|w| - 1] == '\0'
    ensures w[|w| - 1 - |f.body| - 1..|w| - 1] == "\n" + f.body
  {
    var w := f.command + "\n" + HeaderLines(f.headers) + ContentLengthLine(f.body) + "\n" + f.body + "\0";
    assert w[..|f.command| + 1] == f.command + "\n";
    assert w[|w| - 1 - |f.body| - 1..|w| - 1] == "\n" + f.body;
    w
  }

  /** The pieces of `Encode`, written after whatever came before. */
  lemma EncodeAfter(prefix: string, f: Frame)
    ensures prefix + Encode(f)
         == prefix + f.command + "\n" + HeaderLines(f.headers) + ContentLengthLine(f.body) + "\n" + f.body + "\0"
  {
  }

  /** A frame without a body ends in a blank line and the NUL, with no
      `content-length` line before it. */
  lemma EncodeEmptyBody(f: Frame)
    requires f.body == ""
    ensures Encode(f) == f.command + "\n" + HeaderLines(f.headers) + "\n\0"
  {
  }

  /** The transport a frame is written to: all it keeps is what was
      written to it, in order. */
  class Stream {
    var written: string

    constructor ()
      ensures written == ""
    {
      written := "";
    }

    /** `stream.write(data)`. */
    method Write(data: string)
      modifies this
      ensures written == old(written) + data
    {
      written := written + data;
    }
  }
}
