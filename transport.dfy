/** The MCP server's stdio transport: the reader that takes one JSON-RPC
  * payload at a time off standard input, accepting both one JSON text per
  * line and the `Content-Length` framing of the Language Server Protocol's
  * Base Protocol, and the writer that answers in the format the request came
  * in. The byte stream is a `string` whose characters stand for bytes. */
module Transport {
  import opened Text

  /** How a payload was delimited on the wire. */
  datatype Format = JsonLine | Framed

  /** Why reading stopped: the input ended (`io.EOF`), it ended inside a
    * body (`io.ErrUnexpectedEOF`), or a header announced a length that is
    * not a number of bytes (`invalid Content-Length: "<value>"`). */
  datatype ReadError = EndOfInput | UnexpectedEnd | InvalidContentLength(value: string)

  datatype ReadResult = Payload(payload: string, format: Format) | Failed(format: Format, error: ReadError)

  // ------------------------------------------------------------- lines

  /** The first newline at or after `i`. */
  function LineEnd(s: string, i: nat): (e: Option<nat>)
    requires i <= |s|
    ensures e.Some? ==> i <= e.value < |s| && s[e.value] == '\n'
    ensures e.Some? ==> forall j :: i <= j < e.value ==> s[j] != '\n'
    ensures e.None? ==> forall j :: i <= j < |s| ==> s[j] != '\n'
    decreases |s| - i
  {
    if i == |s| then None else if s[i] == '\n' then Some(i) else LineEnd(s, i + 1)
  }

  /** What `ReadString('\n')` gives: the text through the first newline and
    * the input after it, or no line when no newline is left (Go then
    * returns `io.EOF` and the rest of the input, which the reader drops). */
  datatype LineRead = Line(text: string, rest: string) | NoLine

  function ReadLine(s: string): (r: LineRead)
    ensures r.NoLine? <==> '\n' !in s
    ensures r.Line? ==> s == r.text + r.rest && |r.text| >= 1 && r.text[|r.text| - 1] == '\n'
    ensures r.Line? ==> '\n' !in r.text[..|r.text| - 1]
  {
    var e := LineEnd(s, 0);
    if e.None? then
      assert forall j :: 0 <= j < |s| ==> s[j] != '\n';
      NoLine
    else
      var text := s[..e.value + 1];
      assert text[..|text| - 1] == s[..e.value];
      assert s == text + s[e.value + 1..];
      Line(text, s[e.value + 1..])
  }

  /** A line whose only newline is its last character is read as it stands. */
  lemma LineEndAt(s: string, i: nat, e: nat)
    requires i <= e < |s| && s[e] == '\n'
    requires forall j :: i <= j < e ==> s[j] != '\n'
    ensures LineEnd(s, i) == Some(e)
    decreases e - i
  {
    if i < e {
      LineEndAt(s, i + 1, e);
    }
  }

  lemma ReadLineOf(l: string, t: string)
    requires |l| >= 1 && l[|l| - 1] == '\n' && '\n' !in l[..|l| - 1]
    ensures ReadLine(l + t) == Line(l, t)
  {
    var s := l + t;
    forall j | 0 <= j < |l| - 1
      ensures s[j] != '\n'
    {
      assert s[j] == l[..|l| - 1][j];
    }
    LineEndAt(s, 0, |l| - 1);
    assert s[..|l|] == l;
    assert s[|l|..] == t;
  }

  /** `strings.TrimRight(line, "\r\n")`: the line without the carriage
    * returns and newlines at its end. */
  function TrimRightCrLf(s: string): (r: string)
    ensures |r| <= |s| && r == s[..|r|]
    ensures r == [] || (r[|r| - 1] != '\r' && r[|r| - 1] != '\n')
    ensures forall j :: |r| <= j < |s| ==> s[j] == '\r' || s[j] == '\n'
    decreases |s|
  {
    if |s| > 0 && (s[|s| - 1] == '\r' || s[|s| - 1] == '\n') then TrimRightCrLf(s[..|s| - 1]) else s
  }

  /** Trimming line ends takes off exactly the line-end characters after the
    * last other character. */
  lemma TrimRightCrLfOf(x: string, e: string)
    requires x == [] || (x[|x| - 1] != '\r' && x[|x| - 1] != '\n')
    requires forall j :: 0 <= j < |e| ==> e[j] == '\r' || e[j] == '\n'
    ensures TrimRightCrLf(x + e) == x
  {
    var s := x + e;
    var r := TrimRightCrLf(s);
    if |r| >= 1 {
      assert s[|r| - 1] == r[|r| - 1];
    }
    if |x| >= 1 {
      assert s[|x| - 1] == x[|x| - 1];
    }
    assert s[..|x|] == x;
  }

  // ----------------------------------------------------------- numbers

  const MinInt64: int := -0x8000_0000_0000_0000
  const MaxInt64: int := 0x7fff_ffff_ffff_ffff

  /** `strconv.Atoi` on a 64-bit platform: an optional sign and at least one
    * decimal digit, within the range of `int`. */
  function Atoi(s: string): (r: Option<int>)
    ensures r.Some? ==> MinInt64 <= r.value <= MaxInt64
    ensures r.Some? ==> |s| >= 1 && AllDigits(if s[0] == '-' || s[0] == '+' then s[1..] else s)
    ensures r.Some? && |s| >= 1 && s[0] == '-' ==> r.value <= 0
  {
    var digits := if |s| >= 1 && (s[0] == '-' || s[0] == '+') then s[1..] else s;
    if |digits| == 0 || !AllDigits(digits) then None
    else
      var v := if |s| >= 1 && s[0] == '-' then 0 - DigitsValue(digits) as int else DigitsValue(digits) as int;
      if MinInt64 <= v <= MaxInt64 then Some(v) else None
  }

  /** `Atoi` reads back the decimal form of any length `int` can hold. */
  lemma AtoiOfNatToString(n: nat)
    requires n <= MaxInt64
    ensures Atoi(NatToString(n)) == Some(n)
  {
    var s := NatToString(n);
    assert IsDigit(s[0]);
    DigitsValueOfNatToString(n);
  }

  // ----------------------------------------------------------- reading

  /** The header lines after `Content-Length`, up to and including the first
    * blank one: the input after them, or nothing when the input ends first. */
  function SkipHeaders(s: string): (r: Option<string>)
    ensures r.Some? ==> |r.value| < |s|
    decreases |s|
  {
    match ReadLine(s)
    case NoLine => None
    case Line(h, rest) =>
      if TrimSpace(TrimRightCrLf(h)) == "" then Some(rest) else SkipHeaders(rest)
  }

  /** `io.ReadFull` of `n` bytes: exactly the next `n` bytes; the end of
    * input before the first of them, or in the middle of them, is an error
    * and drains the input. */
  function TakeBody(s: string, n: nat): (res: (ReadResult, string))
    ensures res.0.Payload? <==> n <= |s|
    ensures res.0.Payload? ==> s == res.0.payload + res.1 && |res.0.payload| == n
    ensures res.0.Failed? ==> res.1 == [] && (res.0.error == EndOfInput <==> s == [])
  {
    if n <= |s| then (Payload(s[..n], Framed), s[n..])
    else if |s| == 0 then (Failed(Framed, EndOfInput), [])
    else (Failed(Framed, UnexpectedEnd), [])
  }

  /** What a trimmed line is to the reader: nothing (blank, or neither JSON
    * nor a header), a JSON text, or a `Content-Length` header, in any letter
    * case, with the value after the colon. */
  datatype LineKind = Skip | JsonText | Header(value: string)

  function Classify(trimmed: string): (k: LineKind)
    ensures k == JsonText <==> |trimmed| >= 1 && (trimmed[0] == '{' || trimmed[0] == '[')
    ensures k.Header? <==> trimmed != [] && k != JsonText && HasPrefix(ToLower(trimmed), "content-length:")
  {
    if trimmed == "" then Skip
    else if HasPrefix(trimmed, "{") || HasPrefix(trimmed, "[") then JsonText
    else HeaderOrSkip(ToLower(trimmed))
  }

  /** A lower-cased line that is not JSON: a header with the trimmed text
    * after `content-length:`, or nothing. */
  function HeaderOrSkip(lower: string): (k: LineKind)
    ensures k != JsonText
    ensures k.Header? <==> HasPrefix(lower, "content-length:")
  {
    if !HasPrefix(lower, "content-length:") then Skip
    else Header(TrimSpace(TrimPrefix(lower, "content-length:")))
  }

  /** What follows a `Content-Length` header with the given value: an
    * error for a value that is not a number of bytes, otherwise the header
    * lines up to a blank one and then exactly that many bytes. */
  function FramedBody(value: string, rest: string): (res: (ReadResult, string))
    ensures |res.1| <= |rest|
    ensures res.0.Payload? ==> res.0.format == Framed
    ensures res.0.Failed? && !res.0.error.InvalidContentLength? ==> res.1 == []
  {
    var contentLength := Atoi(value);
    if contentLength.None? || contentLength.value < 0 then
      (Failed(Framed, InvalidContentLength(value)), rest)
    else match SkipHeaders(rest)
      case None => (Failed(Framed, EndOfInput), [])
      case Some(body) => TakeBody(body, contentLength.value)
  }

  /** What one `ReadPayload` returns on the input `s`, and the input left
    * after it: lines are read until one is a JSON text, which is the
    * payload, or a `Content-Length` header, which a framed payload follows.
    * Only the reader's own errors drain the input; a bad length leaves it
    * just after the header line. */
  function Next(s: string): (res: (ReadResult, string))
    ensures |res.1| <= |s|
    ensures res.0.Payload? && res.0.format == JsonLine ==>
              |res.0.payload| >= 1 && (res.0.payload[0] == '{' || res.0.payload[0] == '[')
              && TrimSpace(res.0.payload) == res.0.payload
    ensures res.0.Failed? && !res.0.error.InvalidContentLength? ==> res.1 == []
    decreases |s|
  {
    match ReadLine(s)
    case NoLine => (Failed(JsonLine, EndOfInput), [])
    case Line(line, rest) =>
      var trimmed := TrimSpace(TrimRightCrLf(line));
      match Classify(trimmed)
      case Skip => Next(rest)
      case JsonText =>
        TrimSpaceIdempotent(TrimRightCrLf(line));
        (Payload(trimmed, JsonLine), rest)
      case Header(value) => FramedBody(value, rest)
  }

  /** `framedReader`: the unread part of standard input. */
  class FramedReader {
    var input: string

    constructor (stdin: string)
      ensures input == stdin
    {
      input := stdin;
    }

    /** `bufio.Reader.ReadString('\n')`. */
    method ReadString() returns (r: LineRead)
      modifies this
      ensures r == ReadLine(old(input))
      ensures input == (if r.Line? then r.rest else [])
    {
      var i := 0;
      while i < |input| && input[i] != '\n'
        invariant 0 <= i <= |input|
        invariant LineEnd(input, i) == LineEnd(input, 0)
      {
        i := i + 1;
      }
      if i == |input| {
        r := NoLine;
        input := [];
      } else {
        r := Line(input[..i + 1], input[i + 1..]);
        input := input[i + 1..];
      }
    }

    /** The header loop of `ReadPayload`: reads lines until a blank one. */
    method SkipHeaderLines() returns (ok: bool)
      modifies this
      ensures ok <==> SkipHeaders(old(input)).Some?
      ensures ok ==> input == SkipHeaders(old(input)).value
      ensures !ok ==> input == []
    {
      while true
        invariant SkipHeaders(input) == SkipHeaders(old(input))
        decreases |input|
      {
        var h := ReadString();
        if h.NoLine? {
          return false;
        }
        if TrimSpace(TrimRightCrLf(h.text)) == "" {
          return true;
        }
      }
    }

    /** `io.ReadFull` into a buffer of `n` bytes. */
    method ReadFull(n: nat) returns (r: ReadResult)
      modifies this
      ensures (r, input) == TakeBody(old(input), n)
    {
      if n <= |input| {
        r := Payload(input[..n], Framed);
        input := input[n..];
      } else {
        r := Failed(Framed, if |input| == 0 then EndOfInput else UnexpectedEnd);
        input := [];
      }
    }

    /** `ReadPayload`. */
    method ReadPayload() returns (r: ReadResult)
      modifies this
      ensures (r, input) == Next(old(input))
    {
      while true
        invariant Next(input) == Next(old(input))
        decreases |input|
      {
        var line := ReadString();
        if line.NoLine? {
          return Failed(JsonLine, EndOfInput);
        }
        var trimmed := TrimSpace(TrimRightCrLf(line.text));
        if trimmed == "" {
          continue;
        }
        if HasPrefix(trimmed, "{") || HasPrefix(trimmed, "[") {
          return Payload(trimmed, JsonLine);
        }
        if !HasPrefix(ToLower(trimmed), "content-length:") {
          continue;
        }
        var value := TrimSpace(TrimPrefix(ToLower(trimmed), "content-length:"));
        var contentLength := Atoi(value);
        if contentLength.None? || contentLength.value < 0 {
          return Failed(Framed, InvalidContentLength(value));
        }
        var ok := SkipHeaderLines();
        if !ok {
          return Failed(Framed, EndOfInput);
        }
        r := ReadFull(contentLength.value);
        return;
      }
    }
  }

  // ----------------------------------------------------------- writing

  /** The bytes `WritePayload` puts on the wire for one payload. */
  function Frame(payload: string, format: Format): string {
    match format
    case Framed => "Content-Length: " + NatToString(|payload|) + "\r\n\r\n" + payload
    case JsonLine => payload + "\n"
  }

  /** `framedWriter`: what has been flushed to standard output. */
  class FramedWriter {
    var output: string

    constructor ()
      ensures output == []
    {
      output := [];
    }

    /** `WritePayload`: a `Content-Length` header, a blank line and the
      * payload for a framed request; the payload and a newline otherwise. */
    method WritePayload(payload: string, format: Format)
      modifies this
      ensures output == old(output) + Frame(payload, format)
    {
      if format == Framed {
        output := output + "Content-Length: " + NatToString(|payload|) + "\r\n\r\n";
        output := output + payload;
      } else {
        output := output + payload;
        output := output + "\n";
      }
    }
  }

  // -------------------------------------------------------- round trips


  /** Cutting off a prefix leaves what followed it. */
  lemma TrimPrefixOf(k: string, t: string)
    ensures HasPrefix(k + t, k) && TrimPrefix(k + t, k) == t
  {
    assert (k + t)[..|k|] == k;
    assert (k + t)[|k|..] == t;
  }

  /** Trimming `w + d` for a blank `w` of one character and a number `d`
    * leaves the number. */
  lemma TrimSpaceOfSpacedDigits(d: string)
    requires |d| >= 1 && AllDigits(d)
    ensures TrimSpace(" " + d) == d
  {
    var s := " " + d;
    assert s[1..] == d;
    assert !IsSpace(d[0]) && !IsSpace(d[|d| - 1]);
    assert TrimLeftSpace(s) == TrimLeftSpace(d);
    TrimSpaceUnchanged(d);
  }

  /** A line of text ending in a digit loses just its line end. */
  lemma LineEndingInDigit(h: string)
    requires |h| >= 1 && IsDigit(h[|h| - 1])
    ensures TrimRightCrLf(h + "\r\n") == h
  {
    TrimRightCrLfOf(h, "\r\n");
  }

  /** Lower-casing leaves digits alone. */
  lemma ToLowerDigits(k: string, d: string)
    requires AllDigits(d)
    ensures ToLower(k + d) == ToLower(k) + d
  {
    var s := k + d;
    assert forall i :: |k| <= i < |s| ==> s[i] == d[i - |k|];
  }

  /** The header `WritePayload` writes, lower-cased: the key, a space and
    * the number. */
  lemma LowerHeader(d: string)
    requires AllDigits(d)
    ensures ToLower("Content-Length: " + d) == "content-length:" + (" " + d)
  {
    ToLowerDigits("Content-Length: ", d);
    assert ToLower("Content-Length: ") == "content-length:" + " ";
  }

  /** The lower-cased header `WritePayload` writes carries the number. */
  lemma HeaderOrSkipOf(d: string)
    requires |d| >= 1 && AllDigits(d)
    ensures HeaderOrSkip("content-length:" + (" " + d)) == Header(d)
  {
    TrimPrefixOf("content-length:", " " + d);
    TrimSpaceOfSpacedDigits(d);
  }

  /** A line that does not start like JSON is classified by its lower-cased
    * text. */
  lemma ClassifyNotJson(h: string)
    requires |h| >= 1 && h[0] != '{' && h[0] != '['
    ensures Classify(h) == HeaderOrSkip(ToLower(h))
  {
  }

  /** The header `WritePayload` writes is read as a `Content-Length` header
    * whose value is the number it carries. */
  lemma ClassifyHeader(d: string)
    requires |d| >= 1 && AllDigits(d)
    ensures Classify("Content-Length: " + d) == Header(d)
  {
    LowerHeader(d);
    ClassifyNotJson("Content-Length: " + d);
    HeaderOrSkipOf(d);
  }

  /** The header line `WritePayload` writes is read as one line. */
  lemma HeaderLineRead(d: string, t: string)
    requires |d| >= 1 && AllDigits(d)
    ensures ReadLine("Content-Length: " + d + "\r\n" + t) == Line("Content-Length: " + d + "\r\n", t)
  {
    var l := "Content-Length: " + d + "\r\n";
    assert l[..|l| - 1] == "Content-Length: " + d + "\r";
    ReadLineOf(l, t);
  }

  /** The blank line after the header ends the header lines. */
  lemma BlankLineEndsHeaders(t: string)
    ensures SkipHeaders("\r\n" + t) == Some(t)
  {
    ReadLineOf("\r\n", t);
    TrimRightCrLfOf([], "\r\n");
  }

  /** One step of the reader on a header line. */
  lemma NextOnHeader(s: string, line: string, rest: string, value: string)
    requires ReadLine(s) == Line(line, rest)
    requires Classify(TrimSpace(TrimRightCrLf(line))) == Header(value)
    ensures Next(s) == FramedBody(value, rest)
  {
  }

  /** A body of the announced length, after the blank line that ends the
    * headers, is read whole. */
  lemma FramedBodyOf(d: string, p: string, rest: string)
    requires Atoi(d) == Some(|p|)
    ensures FramedBody(d, "\r\n" + (p + rest)) == (Payload(p, Framed), rest)
  {
    BlankLineEndsHeaders(p + rest);
    assert (p + rest)[..|p|] == p && (p + rest)[|p|..] == rest;
  }

  /** The reader takes the header line `WritePayload` writes for a
    * `Content-Length` header with the number it carries. */
  lemma HeaderStep(d: string, t: string)
    requires |d| >= 1 && AllDigits(d)
    ensures Next("Content-Length: " + d + "\r\n" + t) == FramedBody(d, t)
  {
    var h := "Content-Length: " + d;
    HeaderLineRead(d, t);
    assert h[0] == 'C' && h[|h| - 1] == d[|d| - 1];
    LineEndingInDigit(h);
    TrimSpaceUnchanged(h);
    ClassifyHeader(d);
    NextOnHeader(h + "\r\n" + t, h + "\r\n", t, d);
  }

  /** One step of the reader on a JSON line. */
  lemma NextOnJson(s: string, line: string, rest: string)
    requires ReadLine(s) == Line(line, rest)
    requires Classify(TrimSpace(TrimRightCrLf(line))) == JsonText
    ensures Next(s) == (Payload(TrimSpace(TrimRightCrLf(line)), JsonLine), rest)
  {
  }

  /** A framed payload reads back as itself, framed, and reading goes on
    * right after it. */
  lemma FramedRoundTrip(p: string, rest: string)
    requires |p| <= MaxInt64
    ensures Next(Frame(p, Framed) + rest) == (Payload(p, Framed), rest)
  {
    var d := NatToString(|p|);
    var t := "\r\n" + (p + rest);
    assert Frame(p, Framed) + rest == "Content-Length: " + d + "\r\n" + t;
    HeaderStep(d, t);
    AtoiOfNatToString(|p|);
    FramedBodyOf(d, p, rest);
  }

  /** A body cut short after `k` of its bytes, following the blank line
    * that ends the headers, is an error. */
  lemma FramedBodyCut(d: string, p: string, k: nat)
    requires Atoi(d) == Some(|p|) && k < |p|
    ensures FramedBody(d, "\r\n" + p[..k]) == (Failed(Framed, if k == 0 then EndOfInput else UnexpectedEnd), [])
  {
    BlankLineEndsHeaders(p[..k]);
  }

  /** A framed body cut short is an error, `io.EOF` when none of it arrived
    * and `io.ErrUnexpectedEOF` when part of it did. */
  lemma TruncatedBody(p: string, k: nat)
    requires k < |p| <= MaxInt64
    ensures Next(Frame(p, Framed)[..|Frame(p, Framed)| - |p| + k]) ==
              (Failed(Framed, if k == 0 then EndOfInput else UnexpectedEnd), [])
  {
    var d := NatToString(|p|);
    var t := "\r\n" + p[..k];
    assert Frame(p, Framed)[..|Frame(p, Framed)| - |p| + k] == "Content-Length: " + d + "\r\n" + t;
    HeaderStep(d, t);
    AtoiOfNatToString(|p|);
    FramedBodyCut(d, p, k);
  }

  /** A payload that can travel as one JSON line: a single line that
    * starts with `{` or `[` and does not end in white space. */
  predicate IsJsonLine(p: string) {
    |p| >= 1 && (p[0] == '{' || p[0] == '[') && '\n' !in p && !IsSpace(p[|p| - 1])
  }

  /** A JSON-line payload and its newline are read as one line that trims
    * to the payload. */
  lemma JsonLineRead(p: string, rest: string)
    requires IsJsonLine(p)
    ensures ReadLine(p + "\n" + rest) == Line(p + "\n", rest)
    ensures TrimSpace(TrimRightCrLf(p + "\n")) == p
  {
    var line := p + "\n";
    assert line[..|line| - 1] == p;
    ReadLineOf(line, rest);
    assert p[|p| - 1] != '\r';
    TrimRightCrLfOf(p, "\n");
    TrimSpaceUnchanged(p);
  }

  /** A JSON-line payload reads back as itself. */
  lemma JsonLineRoundTrip(p: string, rest: string)
    requires IsJsonLine(p)
    ensures Next(Frame(p, JsonLine) + rest) == (Payload(p, JsonLine), rest)
  {
    JsonLineRead(p, rest);
    assert Classify(p) == JsonText;
    NextOnJson(p + "\n" + rest, p + "\n", rest);
  }

  /** Whatever the writer writes, the reader reads back, in the same format:
    * the reply to a request can be read like the request. */
  lemma WrittenReadsBack(p: string, format: Format, rest: string)
    requires |p| <= MaxInt64
    requires format == JsonLine ==> IsJsonLine(p)
    ensures Next(Frame(p, format) + rest) == (Payload(p, format), rest)
  {
    if format == Framed {
      FramedRoundTrip(p, rest);
    } else {
      JsonLineRoundTrip(p, rest);
    }
  }

  /** A line that is neither blank, nor JSON, nor a `Content-Length` header
    * is skipped: reading goes on as if it had not been there. */
  lemma OtherLineSkipped(l: string, rest: string)
    requires |l| >= 1 && l[|l| - 1] == '\n' && '\n' !in l[..|l| - 1]
    requires var t := TrimSpace(TrimRightCrLf(l));
             t == "" || (!HasPrefix(t, "{") && !HasPrefix(t, "[") && !HasPrefix(ToLower(t), "content-length:"))
    ensures Next(l + rest) == Next(rest)
  {
    ReadLineOf(l, rest);
  }

  /** Text after the last newline is not a payload, even when it is a whole
    * JSON text: the reader reports the end of input. */
  lemma UnterminatedLineIsEnd(s: string)
    requires '\n' !in s
    ensures Next(s) == (Failed(JsonLine, EndOfInput), [])
  {
    assert ReadLine(s) == NoLine;
  }
}
