/** Reading a serialised response back, as an HTTP client would: the header lines up to
    the empty line, the status code from the status line, the Content-Length and
    Content-Type values from the first header line that carries each, and the bytes
    after the empty line as the body. This is the partner of `Responses.Serialize`. */
module ResponseParser {
  import opened Common
  import opened Utf8
  import opened Text
  import opened Responses

  const CR: byte := 13
  const LF: byte := 10
  const SP: byte := 32

  /** Where the first CR LF pair of `b` starts. */
  function FindLineEnd(b: seq<byte>): (r: Option<nat>)
    ensures r.Some? ==> r.value + 1 < |b| && b[r.value] == CR && b[r.value + 1] == LF
    decreases |b|
  {
    if |b| < 2 then None
    else if b[0] == CR && b[1] == LF then Some(0)
    else match FindLineEnd(b[1..])
      case None => None
      case Some(i) => Some(i + 1)
  }

  /** The header lines up to the first empty line, and the bytes after it. */
  function ReadHead(b: seq<byte>): Option<(seq<seq<byte>>, seq<byte>)>
    decreases |b|
  {
    match FindLineEnd(b)
    case None => None
    case Some(i) =>
      if i == 0 then Some(([], b[2..]))
      else match ReadHead(b[i + 2..])
        case None => None
        case Some((lines, body)) => Some(([b[..i]] + lines, body))
  }

  /** Where the first `x` of `b` is. */
  function IndexOf(b: seq<byte>, x: byte): (r: Option<nat>)
    ensures r.Some? ==> r.value < |b|
    decreases |b|
  {
    if b == [] then None
    else if b[0] == x then Some(0)
    else match IndexOf(b[1..], x)
      case None => None
      case Some(i) => Some(i + 1)
  }

  /** The value of a run of ASCII decimal digits. */
  function DigitsValue(b: seq<byte>): Option<nat>
    decreases |b|
  {
    if b == [] then Some(0)
    else
      var d := b[|b| - 1];
      if !(0x30 <= d <= 0x39) then None
      else match DigitsValue(b[..|b| - 1])
        case None => None
        case Some(v) => Some(v * 10 + (d as int - 0x30))
  }

  /** A non-empty decimal number. */
  function ParseNat(b: seq<byte>): Option<nat> {
    if b == [] then None else DigitsValue(b)
  }

  /** The code of a status line `HTTP/1.1 <code> <phrase>`. */
  function ParseStatusLine(line: seq<byte>): Option<nat> {
    var prefix := Encode("HTTP/1.1 ");
    if !StartsWith(line, prefix) then None
    else
      var rest := line[|prefix|..];
      match IndexOf(rest, SP)
      case None => None
      case Some(i) => ParseNat(rest[..i])
  }

  /** What follows `name` on the first line that starts with it. */
  function HeaderValue(lines: seq<seq<byte>>, name: seq<byte>): Option<seq<byte>>
    decreases |lines|
  {
    if lines == [] then None
    else if StartsWith(lines[0], name) then Some(lines[0][|name|..])
    else HeaderValue(lines[1..], name)
  }

  datatype ParsedResponse = ParsedResponse(
    code: nat,
    contentType: seq<byte>,
    contentLength: nat,
    body: seq<byte>)

  function ParseResponse(b: seq<byte>): Option<ParsedResponse> {
    match ReadHead(b)
    case None => None
    case Some((lines, body)) => ParseHead(lines, body)
  }

  /** The response that a head (its lines) and the bytes after it stand for. */
  function ParseHead(lines: seq<seq<byte>>, body: seq<byte>): Option<ParsedResponse> {
    if lines == [] then None
    else
      match (ParseStatusLine(lines[0]),
             HeaderValue(lines[1..], Encode("Content-Length: ")),
             HeaderValue(lines[1..], Encode("Content-Type: ")))
      case (Some(code), Some(length), Some(contentType)) =>
        (match ParseNat(length)
         case Some(n) => Some(ParsedResponse(code, contentType, n, body))
         case None => None)
      case _ => None
  }

  // ---------------------------------------------------------------------------
  // Lines

  function TerminatedBytes(lines: seq<seq<byte>>): seq<byte> {
    if lines == [] then [] else lines[0] + [CR, LF] + TerminatedBytes(lines[1..])
  }

  function EncodeLines(lines: seq<string>): (r: seq<seq<byte>>)
    ensures |r| == |lines| && forall i | 0 <= i < |lines| :: r[i] == Encode(lines[i])
  {
    if lines == [] then [] else [Encode(lines[0])] + EncodeLines(lines[1..])
  }

  lemma EncodeLineEnding()
    ensures Encode(LineEnding) == [CR, LF]
  {
    assert LineEnding[1..] == "\n" && "\n"[1..] == "";
  }

  lemma {:induction false} EncodeTerminated(lines: seq<string>)
    ensures Encode(Terminated(lines)) == TerminatedBytes(EncodeLines(lines))
    decreases |lines|
  {
    if lines != [] {
      EncodeTerminated(lines[1..]);
      EncodeAppend(lines[0] + LineEnding, Terminated(lines[1..]));
      EncodeAppend(lines[0], LineEnding);
      EncodeLineEnding();
    }
  }

  lemma {:induction false} FindLineEndAfter(line: seq<byte>, rest: seq<byte>)
    requires CR !in line
    ensures FindLineEnd(line + [CR, LF] + rest) == Some(|line|)
    decreases |line|
  {
    var b := line + [CR, LF] + rest;
    if line != [] {
      assert b[1..] == line[1..] + [CR, LF] + rest;
      FindLineEndAfter(line[1..], rest);
    }
  }

  /** Reading the head back gives the lines that were written and the rest of the bytes,
      provided no line is empty or holds a CR. */
  lemma {:induction false} ReadHeadTerminated(lines: seq<seq<byte>>, body: seq<byte>)
    requires forall i | 0 <= i < |lines| :: lines[i] != [] && CR !in lines[i]
    ensures ReadHead(TerminatedBytes(lines) + [CR, LF] + body) == Some((lines, body))
    decreases |lines|
  {
    var b := TerminatedBytes(lines) + [CR, LF] + body;
    if lines == [] {
      assert b == [CR, LF] + body;
      FindLineEndAfter([], body);
      assert b[2..] == body;
    } else {
      var rest := TerminatedBytes(lines[1..]) + [CR, LF] + body;
      assert b == lines[0] + [CR, LF] + rest;
      FindLineEndAfter(lines[0], rest);
      assert b[..|lines[0]|] == lines[0];
      assert b[|lines[0]| + 2..] == rest;
      ReadHeadTerminated(lines[1..], body);
      assert lines == [lines[0]] + lines[1..];
    }
  }

  // ---------------------------------------------------------------------------
  // Numbers

  lemma {:induction false} ParseNatString(n: nat)
    ensures ParseNat(Encode(NatToString(n))) == Some(n)
    ensures SP !in Encode(NatToString(n)) && CR !in Encode(NatToString(n))
    decreases n
  {
    var s := NatToString(n);
    EncodeAvoidsAscii(s, ' ');
    EncodeAvoidsAscii(s, '\r');
    if n < 10 {
      assert s == [DigitChar(n)] && s[1..] == [];
      assert Encode(s) == EncodeChar(s[0]) + Encode(s[1..]);
      var b := Encode(s);
      assert DigitChar(n) as int == 0x30 + n;
      assert b == [(0x30 + n) as byte];
      assert b[..|b| - 1] == [];
      assert DigitsValue([]) == Some(0);
      assert DigitsValue(b) == Some(n);
    } else {
      ParseNatString(n / 10);
      var high := Encode(NatToString(n / 10));
      EncodeAppend(NatToString(n / 10), [DigitChar(n % 10)]);
      var b := Encode(s);
      assert b == high + [(0x30 + n % 10) as byte];
      assert b[..|b| - 1] == high;
    }
  }

  lemma {:induction false} IndexOfAfter(a: seq<byte>, x: byte, rest: seq<byte>)
    requires x !in a
    ensures IndexOf(a + [x] + rest, x) == Some(|a|)
    decreases |a|
  {
    if a != [] {
      assert (a + [x] + rest)[1..] == a[1..] + [x] + rest;
      IndexOfAfter(a[1..], x, rest);
    }
  }

  // ---------------------------------------------------------------------------
  // The round trip

  /** What a response must satisfy to be read back line by line: a non-negative code,
      and no CR in the Date value, the content type or an extra header, none of which
      is empty. */
  predicate Framable(p: ResponseParams, date: string) {
    p.code >= 0 && '\r' !in date && '\r' !in p.contentType
    && forall i | 0 <= i < |p.extraHeaders| :: p.extraHeaders[i] != [] && '\r' !in p.extraHeaders[i]
  }

  lemma StatusLineBytes(digits: string, phrase: string)
    ensures Encode("HTTP/1.1 " + digits + " " + phrase)
         == Encode("HTTP/1.1 ") + Encode(digits) + [SP] + Encode(phrase)
  {
    EncodeAppend("HTTP/1.1 " + digits + " ", phrase);
    EncodeAppend("HTTP/1.1 " + digits, " ");
    EncodeAppend("HTTP/1.1 ", digits);
    assert Encode(" ") == [SP];
  }

  lemma ParseStatusOf(digits: seq<byte>, phrase: seq<byte>, code: nat)
    requires ParseNat(digits) == Some(code) && SP !in digits
    ensures ParseStatusLine(Encode("HTTP/1.1 ") + digits + [SP] + phrase) == Some(code)
  {
    var prefix := Encode("HTTP/1.1 ");
    var rest := digits + [SP] + phrase;
    assert prefix + digits + [SP] + phrase == prefix + rest;
    StartsWithAppend(prefix, rest);
    CodeBeforeSpace(digits, phrase, code);
  }

  lemma CodeBeforeSpace(digits: seq<byte>, phrase: seq<byte>, code: nat)
    requires ParseNat(digits) == Some(code) && SP !in digits
    ensures var rest := digits + [SP] + phrase;
      IndexOf(rest, SP) == Some(|digits|) && ParseNat(rest[..|digits|]) == Some(code)
  {
    IndexOfAfter(digits, SP, phrase);
    assert (digits + [SP] + phrase)[..|digits|] == digits;
  }

  lemma StatusLineRoundTrip(code: nat)
    ensures ParseStatusLine(Encode("HTTP/1.1 " + IntToString(code) + " " + ReasonPhrase(code)))
         == Some(code)
  {
    ParseNatString(code);
    StatusLineBytes(NatToString(code), ReasonPhrase(code));
    ParseStatusOf(Encode(NatToString(code)), Encode(ReasonPhrase(code)), code);
  }

  /** Two texts, 7-bit up to index `k`, that differ at `k`: the encoding of one does
      not start with the encoding of the other. */
  lemma DifferentAt(s: string, t: string, k: nat)
    requires k < |s| && k < |t| && s[k] != t[k]
    requires forall i | 0 <= i <= k :: s[i] as int < 0x80 && t[i] as int < 0x80
    ensures !StartsWith(Encode(s), Encode(t))
  {
    EncodeAsciiPrefix(s, k + 1);
    EncodeAsciiPrefix(t, k + 1);
    assert Encode(s)[k] != Encode(t)[k];
  }

  lemma {:induction false} HeaderValueAt(lines: seq<seq<byte>>, name: seq<byte>, k: nat)
    requires k < |lines| && StartsWith(lines[k], name)
    requires forall j | 0 <= j < k :: !StartsWith(lines[j], name)
    ensures HeaderValue(lines, name) == Some(lines[k][|name|..])
    decreases k
  {
    if k > 0 {
      HeaderValueAt(lines[1..], name, k - 1);
    }
  }

  lemma {:induction false} StartsWithAppend(x: seq<byte>, y: seq<byte>)
    ensures StartsWith(x + y, x) && (x + y)[|x|..] == y
  {
    assert (x + y)[..|x|] == x;
  }

  /** Where the standard lines stand. */
  lemma StandardLines(p: ResponseParams, date: string)
    ensures |StandardHeaders(p, date)| == 6
    ensures StandardHeaders(p, date)[1] == "Date: " + date
    ensures StandardHeaders(p, date)[2] == "Server: SimpleHTTP/1.0"
    ensures StandardHeaders(p, date)[3] == "Content-Length: " + NatToString(|p.content|)
    ensures StandardHeaders(p, date)[4] == "Content-Type: " + p.contentType
  {
  }

  /** A Content-Length line names its header, and not Content-Type's. */
  lemma LengthLine(len: string)
    ensures !StartsWith(Encode("Content-Length: " + len), Encode("Content-Type: "))
  {
    DifferentAt("Content-Length: " + len, "Content-Type: ", 8);
  }

  /** A header line `name + value` starts with the name and holds the value after it. */
  lemma NamedLine(name: string, value: string)
    ensures StartsWith(Encode(name + value), Encode(name))
    ensures Encode(name + value)[|Encode(name)|..] == Encode(value)
  {
    EncodeAppend(name, value);
    StartsWithAppend(Encode(name), Encode(value));
  }

  /** Date and Server lines carry neither looked-up header. */
  lemma DateAndServerLines(date: string, name: string)
    requires name == "Content-Length: " || name == "Content-Type: "
    ensures !StartsWith(Encode("Date: " + date), Encode(name))
    ensures !StartsWith(Encode("Server: SimpleHTTP/1.0"), Encode(name))
  {
    DifferentAt("Date: " + date, name, 0);
    DifferentAt("Server: SimpleHTTP/1.0", name, 0);
  }

  lemma HeaderValueThird(tail: seq<seq<byte>>, name: seq<byte>, value: seq<byte>)
    requires |tail| >= 3
    requires !StartsWith(tail[0], name) && !StartsWith(tail[1], name)
    requires StartsWith(tail[2], name) && tail[2][|name|..] == value
    ensures HeaderValue(tail, name) == Some(value)
  {
    HeaderValueAt(tail, name, 2);
  }

  lemma HeaderValueFourth(tail: seq<seq<byte>>, name: seq<byte>, value: seq<byte>)
    requires |tail| >= 4
    requires !StartsWith(tail[0], name) && !StartsWith(tail[1], name) && !StartsWith(tail[2], name)
    requires StartsWith(tail[3], name) && tail[3][|name|..] == value
    ensures HeaderValue(tail, name) == Some(value)
  {
    HeaderValueAt(tail, name, 3);
  }

  /** Reading the two headers back from lines laid out as the standard ones are. */
  lemma LengthFrom(tail: seq<seq<byte>>, date: string, len: string)
    requires |tail| >= 3
    requires tail[0] == Encode("Date: " + date)
    requires tail[1] == Encode("Server: SimpleHTTP/1.0")
    requires tail[2] == Encode("Content-Length: " + len)
    ensures HeaderValue(tail, Encode("Content-Length: ")) == Some(Encode(len))
  {
    DateAndServerLines(date, "Content-Length: ");
    NamedLine("Content-Length: ", len);
    HeaderValueThird(tail, Encode("Content-Length: "), Encode(len));
  }

  lemma TypeFrom(tail: seq<seq<byte>>, date: string, len: string, contentType: string)
    requires |tail| >= 4
    requires tail[0] == Encode("Date: " + date)
    requires tail[1] == Encode("Server: SimpleHTTP/1.0")
    requires tail[2] == Encode("Content-Length: " + len)
    requires tail[3] == Encode("Content-Type: " + contentType)
    ensures HeaderValue(tail, Encode("Content-Type: ")) == Some(Encode(contentType))
  {
    DateAndServerLines(date, "Content-Type: ");
    LengthLine(len);
    NamedLine("Content-Type: ", contentType);
    HeaderValueFourth(tail, Encode("Content-Type: "), Encode(contentType));
  }

  /** The header lines a response is read back from. */
  lemma HeaderLinesReadBack(p: ResponseParams, date: string)
    ensures var lines := EncodeLines(StandardHeaders(p, date) + p.extraHeaders);
            HeaderValue(lines[1..], Encode("Content-Length: ")) == Some(Encode(NatToString(|p.content|)))
            && HeaderValue(lines[1..], Encode("Content-Type: ")) == Some(Encode(p.contentType))
  {
    var len := NatToString(|p.content|);
    var tail := EncodeLines(StandardHeaders(p, date) + p.extraHeaders)[1..];
    StandardTail(p, date);
    LengthFrom(tail, date, len);
    TypeFrom(tail, date, len, p.contentType);
  }

  /** The encoded lines after the status line start with the Date, Server,
      Content-Length and Content-Type lines. */
  lemma StandardTail(p: ResponseParams, date: string)
    ensures var tail := EncodeLines(StandardHeaders(p, date) + p.extraHeaders)[1..];
      && |tail| >= 4
      && tail[0] == Encode("Date: " + date)
      && tail[1] == Encode("Server: SimpleHTTP/1.0")
      && tail[2] == Encode("Content-Length: " + NatToString(|p.content|))
      && tail[3] == Encode("Content-Type: " + p.contentType)
  {
    var h := StandardHeaders(p, date) + p.extraHeaders;
    StandardLines(p, date);
    assert h[1] == "Date: " + date && h[2] == "Server: SimpleHTTP/1.0";
    assert h[3] == "Content-Length: " + NatToString(|p.content|) && h[4] == "Content-Type: " + p.contentType;
  }

  /** No line of a framable response is empty or holds a CR. */
  lemma LinesFramable(p: ResponseParams, date: string)
    requires Framable(p, date)
    ensures var lines := EncodeLines(StandardHeaders(p, date) + p.extraHeaders);
            forall i | 0 <= i < |lines| :: lines[i] != [] && CR !in lines[i]
  {
    var all := StandardHeaders(p, date) + p.extraHeaders;
    var lines := EncodeLines(all);
    forall i | 0 <= i < |lines|
      ensures lines[i] != [] && CR !in lines[i]
    {
      EncodeAvoidsAscii(all[i], '\r');
      if i < 6 {
        NoCrInStandardLine(p, date, i);
      }
    }
  }

  lemma SerializeShape(p: ResponseParams, date: string)
    ensures Serialize(p, date)
         == TerminatedBytes(EncodeLines(StandardHeaders(p, date) + p.extraHeaders)) + [CR, LF]
            + (if p.headerOnly then [] else p.content)
  {
    var all := StandardHeaders(p, date) + p.extraHeaders;
    EncodeAppend(Terminated(all), LineEnding);
    EncodeTerminated(all);
    EncodeLineEnding();
  }

  /** A head whose status line, Content-Length and Content-Type read back. */
  lemma ParseHeadOf(lines: seq<seq<byte>>, body: seq<byte>, code: nat, n: nat, contentType: seq<byte>)
    requires lines != [] && ParseStatusLine(lines[0]) == Some(code)
    requires HeaderValue(lines[1..], Encode("Content-Length: ")) == Some(Encode(NatToString(n)))
    requires HeaderValue(lines[1..], Encode("Content-Type: ")) == Some(contentType)
    ensures ParseHead(lines, body) == Some(ParsedResponse(code, contentType, n, body))
  {
    ParseNatString(n);
  }

  /** Every response the serialiser builds reads back with the code it was given, the
      content type it was given, a Content-Length equal to the length of the content,
      and as body exactly the content, or nothing for a header-only response. */
  lemma SerializeReadsBack(p: ResponseParams, date: string)
    requires Framable(p, date)
    ensures ParseResponse(Serialize(p, date))
         == Some(ParsedResponse(p.code, Encode(p.contentType), |p.content|,
                                if p.headerOnly then [] else p.content))
  {
    var lines := EncodeLines(StandardHeaders(p, date) + p.extraHeaders);
    var body := if p.headerOnly then [] else p.content;
    SerializeShape(p, date);
    LinesFramable(p, date);
    ReadHeadTerminated(lines, body);
    assert lines[0] == Encode(StandardHeaders(p, date)[0]);
    StatusLineRoundTrip(p.code);
    HeaderLinesReadBack(p, date);
    ParseHeadOf(lines, body, p.code, |p.content|, Encode(p.contentType));
  }

  /** The status a client reads from a response, if it parses. */
  function StatusOf(b: seq<byte>): Option<nat> {
    match ParseResponse(b)
    case None => None
    case Some(r) => Some(r.code)
  }

  /** The page of `_send_error` reads back as a `text/html` response with its status,
      its length, and the page as body. */
  lemma ErrorPageReadsBack(code: int, date: string)
    requires code >= 0 && '\r' !in date
    ensures ParseResponse(Serialize(ErrorResponse(code), date))
         == Some(ParsedResponse(code, Encode("text/html"), |ErrorResponse(code).content|,
                                ErrorResponse(code).content))
    ensures StatusOf(Serialize(ErrorResponse(code), date)) == Some(code as nat)
  {
    assert '\r' !in "text/html";
    SerializeReadsBack(ErrorResponse(code), date);
  }

  lemma NoCrInStandardLine(p: ResponseParams, date: string, i: nat)
    requires Framable(p, date) && i < 6
    ensures StandardHeaders(p, date)[i] != [] && '\r' !in StandardHeaders(p, date)[i]
  {
    var digits := NatToString(p.code);
    var len := NatToString(|p.content|);
    assert '\r' !in digits && '\r' !in len;
    assert '\r' !in "HTTP/1.1 " && '\r' !in "Date: " && '\r' !in "Content-Length: ";
    assert '\r' !in "Content-Type: " && '\r' !in "Server: SimpleHTTP/1.0" && '\r' !in "Connection: close";
  }
}
