/** `jsonrpcConn.send` and `readMessage` (internal/lsp/jsonrpc.go): the length-delimited frames of the
    "Base Protocol" section of the Language Server Protocol 3.17. A `char` stands for one byte. */
module Framing {
  import opened Decimals
  import opened Options

  const HEADER := "Content-Length: "

  datatype Error = EndOfStream | InvalidLength(value: string) | MissingLength | ShortBody
  datatype Outcome = Body(body: string) | Failed(error: Error)

  /** What `send` writes for one marshalled message. */
  function Frame(body: string): string {
    HEADER + Decimal(|body|) + "\r\n\r\n" + body
  }

  function Stream(bodies: seq<string>): string {
    if bodies == [] then "" else Frame(bodies[0]) + Stream(bodies[1..])
  }

  function IndexOfNewline(s: string): (i: int)
    ensures i == -1 <==> '\n' !in s
    ensures i != -1 ==> 0 <= i < |s| && s[i] == '\n' && '\n' !in s[..i]
  {
    if s == "" then -1
    else if s[0] == '\n' then 0
    else var i := IndexOfNewline(s[1..]);
      if i == -1 then -1 else i + 1
  }

  function TrimRightCRLF(s: string): string {
    if s != "" && (s[|s| - 1] == '\r' || s[|s| - 1] == '\n') then TrimRightCRLF(s[..|s| - 1]) else s
  }

  /** The header loop from any point on: the message or the error, and the bytes left unread. */
  function Read(input: string, contentLength: int): (r: (Outcome, string))
    ensures r.0.Body? ==> |r.1| < |input|
    decreases |input|
  {
    var newline := IndexOfNewline(input);
    if newline == -1 then (Failed(EndOfStream), "")
    else
      var line, rest := TrimRightCRLF(input[..newline + 1]), input[newline + 1..];
      if line == "" then ReadBody(rest, contentLength)
      else if HEADER <= line then
        var length := Atoi(line[|HEADER|..]);
        if length.None? then (Failed(InvalidLength(line[|HEADER|..])), rest) else Read(rest, length.value)
      else Read(rest, contentLength)
  }

  function ReadBody(input: string, contentLength: int): (Outcome, string) {
    if contentLength < 0 then (Failed(MissingLength), input)
    else if |input| < contentLength then (Failed(ShortBody), "")
    else (Body(input[..contentLength]), input[contentLength..])
  }

  /** The receiving half of the connection; `input` is what the peer has sent and nobody has read. */
  class Reader {
    var input: string

    constructor (input: string)
      ensures this.input == input
    {
      this.input := input;
    }

    method ReadLine() returns (line: Option<string>)
      modifies this
      ensures var i := IndexOfNewline(old(input));
        if i == -1 then line == None && input == ""
        else line == Some(old(input)[..i + 1]) && input == old(input)[i + 1..]
    {
      var i := IndexOfNewline(input);
      if i == -1 {
        line, input := None, "";
      } else {
        line, input := Some(input[..i + 1]), input[i + 1..];
      }
    }

    method ReadMessage() returns (outcome: Outcome)
      modifies this
      ensures (outcome, input) == Read(old(input), -1)
    {
      var contentLength := -1;
      while true
        invariant Read(input, contentLength) == Read(old(input), -1)
        decreases |input|
      {
        var read := ReadLine();
        if read.None? {
          return Failed(EndOfStream);
        }
        var line := TrimRightCRLF(read.value);
        if line == "" {
          break;
        }
        if HEADER <= line {
          var value := line[|HEADER|..];
          var length := Atoi(value);
          if length.None? {
            return Failed(InvalidLength(value));
          }
          contentLength := length.value;
        }
      }
      if contentLength < 0 {
        return Failed(MissingLength);
      }
      if |input| < contentLength {
        input := "";
        return Failed(ShortBody);
      }
      outcome := Body(input[..contentLength]);
      input := input[contentLength..];
    }
  }

  // ---------------------------------------------------------------- properties

  /** A header line, without its line end, that does not set the length. */
  predicate OtherHeader(line: string) {
    line != "" && '\n' !in line && line[|line| - 1] != '\r' && !(HEADER <= line)
  }

  function HeaderLines(lines: seq<string>): string {
    if lines == [] then "" else lines[0] + "\r\n" + HeaderLines(lines[1..])
  }

  lemma FirstNewline(line: string, rest: string)
    requires '\n' !in line
    ensures IndexOfNewline(line + "\n" + rest) == |line|
  {
    if line != "" {
      assert (line + "\n" + rest)[1..] == line[1..] + "\n" + rest;
      FirstNewline(line[1..], rest);
    }
  }

  /** One header line is consumed whole. */
  lemma {:induction false} ReadHeaderLine(line: string, rest: string, contentLength: int)
    requires line != "" && '\n' !in line && line[|line| - 1] != '\r'
    ensures HEADER <= line && Atoi(line[|HEADER|..]).Some? ==>
        Read(line + "\r\n" + rest, contentLength) == Read(rest, Atoi(line[|HEADER|..]).value)
    ensures !(HEADER <= line) ==> Read(line + "\r\n" + rest, contentLength) == Read(rest, contentLength)
  {
    var input := line + "\r\n" + rest;
    assert input == (line + "\r") + "\n" + rest;
    FirstNewline(line + "\r", rest);
    assert input[..|line| + 2] == line + "\r\n";
    assert (line + "\r\n")[..|line| + 1] == line + "\r" && (line + "\r")[..|line|] == line;
    assert TrimRightCRLF(line + "\r\n") == TrimRightCRLF(line + "\r") == TrimRightCRLF(line) == line;
    assert input[|line| + 2..] == rest;
  }

  lemma ReadOtherHeaders(lines: seq<string>, rest: string, contentLength: int)
    requires forall l <- lines :: OtherHeader(l)
    ensures Read(HeaderLines(lines) + rest, contentLength) == Read(rest, contentLength)
  {
    if lines == [] {
      assert HeaderLines(lines) + rest == rest;
    } else {
      assert OtherHeader(lines[0]) && HeaderLines(lines) + rest == lines[0] + "\r\n" + (HeaderLines(lines[1..]) + rest);
      ReadHeaderLine(lines[0], HeaderLines(lines[1..]) + rest, contentLength);
      ReadOtherHeaders(lines[1..], rest, contentLength);
    }
  }

  lemma {:induction false} ReadBlankLine(rest: string, contentLength: int)
    ensures Read("\r\n" + rest, contentLength) == ReadBody(rest, contentLength)
  {
    var input := "\r\n" + rest;
    assert input == "\r" + "\n" + rest;
    FirstNewline("\r", rest);
    assert input[..2] == "\r\n" && input[2..] == rest;
    assert "\r\n"[..1] == "\r" && "\r"[..0] == "";
    assert TrimRightCRLF("\r\n") == TrimRightCRLF("\r") == TrimRightCRLF("") == "";
  }

  lemma {:induction false} LengthLine(n: nat, rest: string, contentLength: int)
    requires n <= MAX_INT
    ensures Read(HEADER + Decimal(n) + "\r\n" + rest, contentLength) == Read(rest, n)
  {
    var line := HEADER + Decimal(n);
    assert line[|HEADER|..] == Decimal(n) && HEADER <= line;
    assert IsDigit(line[|line| - 1]) by { assert line[|line| - 1] == Decimal(n)[|Decimal(n)| - 1]; }
    forall c | c in line ensures c != '\n' {}
    AtoiOfDecimal(n);
    ReadHeaderLine(line, rest, contentLength);
  }

  /** A frame is read back whole whatever follows it and whatever its body looks like, with any
      other header lines before and after the length. */
  lemma {:induction false} ReadFrameWithHeaders(before: seq<string>, after: seq<string>, body: string, rest: string)
    requires |body| <= MAX_INT
    requires forall l <- before + after :: OtherHeader(l)
    ensures Read(HeaderLines(before) + (HEADER + Decimal(|body|) + "\r\n"
      + (HeaderLines(after) + ("\r\n" + (body + rest)))), -1)
         == (Body(body), rest)
  {
    var tail := "\r\n" + (body + rest);
    ReadOtherHeaders(before, HEADER + Decimal(|body|) + "\r\n" + (HeaderLines(after) + tail), -1);
    LengthLine(|body|, HeaderLines(after) + tail, -1);
    ReadOtherHeaders(after, tail, |body|);
    ReadBlankLine(body + rest, |body|);
    assert (body + rest)[..|body|] == body && (body + rest)[|body|..] == rest;
  }

  lemma {:induction false} ReadFrame(body: string, rest: string)
    requires |body| <= MAX_INT
    ensures Read(Frame(body) + rest, -1) == (Body(body), rest)
  {
    var input := HEADER + Decimal(|body|) + "\r\n" + ("\r\n" + (body + rest));
    assert Frame(body) + rest == input;
    LengthLine(|body|, "\r\n" + (body + rest), -1);
    ReadBlankLine(body + rest, |body|);
    assert (body + rest)[..|body|] == body && (body + rest)[|body|..] == rest;
  }

  /** A length that is no number ends the reading behind its line, whatever comes after. */
  lemma {:induction false} BadLength(value: string, rest: string, contentLength: int)
    requires '\n' !in value && (value == "" || value[|value| - 1] != '\r') && Atoi(value).None?
    ensures Read("Content-Length: " + value + "\r\n" + rest, contentLength) == (Failed(InvalidLength(value)), rest)
  {
    var line := HEADER + value;
    HeaderLine(line, rest);
    assert line[|HEADER|..] == value;
  }

  /** The first line of an input, and what is left of it without its line end. */
  lemma {:induction false} HeaderLine(line: string, rest: string)
    requires line != "" && '\n' !in line && line[|line| - 1] != '\r'
    ensures var input, i := line + "\r\n" + rest, |line| + 1;
      IndexOfNewline(input) == i && TrimRightCRLF(input[..i + 1]) == line && input[i + 1..] == rest
  {
    var input := line + "\r\n" + rest;
    assert input == (line + "\r") + "\n" + rest;
    FirstNewline(line + "\r", rest);
    assert input[..|line| + 2] == line + "\r\n";
    assert (line + "\r\n")[..|line| + 1] == line + "\r" && (line + "\r")[..|line|] == line;
    assert TrimRightCRLF(line + "\r\n") == TrimRightCRLF(line + "\r") == TrimRightCRLF(line) == line;
  }

  /** Without a length there is no message, nor with a negative one. */
  lemma {:induction false} NoLength(lines: seq<string>, rest: string)
    requires forall l <- lines :: OtherHeader(l)
    ensures Read(HeaderLines(lines) + ("\r\n" + rest), -1) == (Failed(MissingLength), rest)
  {
    ReadOtherHeaders(lines, "\r\n" + rest, -1);
    NoBody(rest, -1);
  }

  lemma {:induction false} NegativeIsNone(value: string, rest: string, tail: string)
    requires value != "" && '\n' !in value && value[|value| - 1] != '\r'
    requires Atoi(value).Some? && Atoi(value).value < 0 && tail == "\r\n" + rest
    ensures Read(HEADER + value + "\r\n" + tail, -1) == (Failed(MissingLength), rest)
  {
    LengthHeader(value, tail);
    NoBody(rest, Atoi(value).value);
    BothReads(HEADER + value + "\r\n" + tail, -1, tail, Atoi(value).value, (Failed(MissingLength), rest));
  }

  lemma BothReads(a: string, m: int, b: string, n: int, r: (Outcome, string))
    requires Read(a, m) == Read(b, n) && Read(b, n) == r
    ensures Read(a, m) == r
  {
  }

  lemma {:induction false} NoBody(rest: string, contentLength: int)
    requires contentLength < 0
    ensures Read("\r\n" + rest, contentLength) == (Failed(MissingLength), rest)
  {
    ReadBlankLine(rest, contentLength);
  }

  lemma {:induction false} LengthHeader(value: string, rest: string)
    requires value != "" && '\n' !in value && value[|value| - 1] != '\r' && Atoi(value).Some?
    ensures Read(HEADER + value + "\r\n" + rest, -1) == Read(rest, Atoi(value).value)
  {
    var line := HEADER + value;
    assert line[|HEADER|..] == value && line[|line| - 1] == value[|value| - 1];
    forall c | c in line ensures c != '\n' {}
    ReadHeaderLine(line, rest, -1);
  }

  /** Any line that does not start with the header's name and is not empty is another header. */
  lemma OtherHeaderExample()
    ensures OtherHeader("Content-Type: x")
  {
    var line := "Content-Type: x";
    assert line[8] == 'T' && HEADER[8] == 'L';
    assert line[|line| - 1] == 'x';
  }

  /** A message as the peer writes it, without the names used here. */
  lemma {:induction false} WrittenOut(body: string, rest: string)
    requires |body| <= MAX_INT
    ensures Read("Content-Length: " + Decimal(|body|) + "\r\n\r\n" + body + rest, -1) == (Body(body), rest)
  {
    ReadFrame(body, rest);
  }

  /** And its length: the two bytes "ab". */
  lemma {:induction false} TwoBytes()
    ensures Decimal(|"ab"|) == "2"
  {
    assert Decimal(2) == "2";
  }

  /** Everything `readLoop` gets out of a stream: the bodies, and the error that ends the loop. */
  function ReadAll(input: string): (seq<string>, Error)
    decreases |input|
  {
    var r := Read(input, -1);
    match r.0
    case Failed(error) => ([], error)
    case Body(body) => var more := ReadAll(r.1); ([body] + more.0, more.1)
  }

  lemma {:induction false} StreamStep(body: string, rest: string)
    requires |body| <= MAX_INT
    ensures ReadAll(Frame(body) + rest) == ([body] + ReadAll(rest).0, ReadAll(rest).1)
  {
    ReadFrame(body, rest);
  }

  /** Reading what was sent gives exactly the bodies sent, in order, then the end of the stream. */
  lemma {:induction false} ReadAllOfStream(bodies: seq<string>)
    requires forall b <- bodies :: |b| <= MAX_INT
    ensures ReadAll(Stream(bodies)) == (bodies, EndOfStream)
  {
    if bodies != [] {
      StreamStep(bodies[0], Stream(bodies[1..]));
      ReadAllOfStream(bodies[1..]);
      assert [bodies[0]] + bodies[1..] == bodies;
    }
  }

  /** A frame cut anywhere before its end yields an error, never a body. */
  lemma {:induction false} CutFrame(body: string, cut: nat)
    requires |body| <= MAX_INT && cut < |Frame(body)|
    ensures Read(Frame(body)[..cut], -1).0.Failed?
    ensures Read(Frame(body)[..cut], -1).0.error in {EndOfStream, ShortBody}
  {
    var line := HEADER + Decimal(|body|);
    var frame := Frame(body);
    assert frame == line + ("\r\n" + ("\r\n" + body));
    forall c | c in line ensures c != '\n' {}
    if cut < |line| + 2 {
      forall i | 0 <= i < cut ensures frame[..cut][i] != '\n' {
        assert frame[..cut][i] == (line + "\r")[i];
        assert i < |line| ==> line[i] in line;
      }
    } else {
      assert frame[..cut] == line + "\r\n" + ("\r\n" + body)[..cut - |line| - 2];
      LengthLine(|body|, ("\r\n" + body)[..cut - |line| - 2], -1);
      if cut < |line| + 4 {
        assert '\n' !in ("\r\n" + body)[..cut - |line| - 2];
      } else {
        assert ("\r\n" + body)[..cut - |line| - 2] == "\r\n" + body[..cut - |line| - 4];
        ReadBlankLine(body[..cut - |line| - 4], |body|);
      }
    }
  }

  lemma {:induction false} CutWithin(a: string, b: string, cut: nat)
    requires cut <= |a + b|
    ensures (a + b)[..cut] == if cut < |a| then a[..cut] else a + b[..cut - |a|]
  {
  }

  lemma {:induction false} OneMoreBody(body: string, some: seq<string>, bodies: seq<string>)
    requires bodies != [] && body == bodies[0] && some <= bodies[1..]
    ensures [body] + some <= bodies
  {
    assert bodies == [body] + bodies[1..];
  }

  ghost predicate Delivers(input: string, bodies: seq<string>) {
    ReadAll(input).0 <= bodies && ReadAll(input).1 in {EndOfStream, ShortBody}
  }

  lemma {:induction false} CutInFirst(body: string, cut: nat, bodies: seq<string>)
    requires |body| <= MAX_INT && cut < |Frame(body)|
    ensures Delivers(Frame(body)[..cut], bodies)
  {
    CutFrame(body, cut);
  }

  lemma {:induction false} CutLater(bodies: seq<string>, rest: string)
    requires bodies != [] && |bodies[0]| <= MAX_INT && Delivers(rest, bodies[1..])
    ensures Delivers(Frame(bodies[0]) + rest, bodies)
  {
    StreamStep(bodies[0], rest);
    OneMoreBody(bodies[0], ReadAll(rest).0, bodies);
  }

  /** A connection lost at any byte delivers a prefix of the bodies sent, each of them whole. */
  lemma {:induction false} ReadAllOfCutStream(bodies: seq<string>, cut: nat)
    requires (forall b <- bodies :: |b| <= MAX_INT) && cut <= |Stream(bodies)|
    ensures Delivers(Stream(bodies)[..cut], bodies)
    ensures ReadAll(Stream(bodies)[..cut]).0 <= bodies && ReadAll(Stream(bodies)[..cut]).1 in {EndOfStream, ShortBody}
  {
    if bodies != [] {
      var frame, rest := Frame(bodies[0]), Stream(bodies[1..]);
      CutWithin(frame, rest, cut);
      if cut < |frame| {
        CutInFirst(bodies[0], cut, bodies);
      } else {
        ReadAllOfCutStream(bodies[1..], cut - |frame|);
        CutLater(bodies, rest[..cut - |frame|]);
      }
    }
  }
}
