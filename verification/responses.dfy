/** The response side of the handler (server/handler.py): the reason-phrase table,
    the header block of `_build_headers`, the bytes `_send_response` hands to
    `sendall`, and the error page of `_send_error`. */
module Responses {
  import opened Common
  import opened Utf8
  import opened Text

  const HttpOk := 200
  const HttpBadRequest := 400
  const HttpForbidden := 403
  const HttpNotFound := 404
  const HttpMethodNotAllowed := 405
  const HttpInternalError := 500
  const HttpGatewayTimeout := 504

  /** The dictionary of `_get_http_code_string`. */
  const ReasonPhrases: map<int, string> := map[
    HttpOk := "OK",
    HttpBadRequest := "Bad Request",
    HttpForbidden := "Forbidden",
    HttpNotFound := "Not Found",
    HttpMethodNotAllowed := "Method Not Allowed",
    HttpInternalError := "Internal Server Error",
    HttpGatewayTimeout := "Gateway Time Out"
  ]

  const LineEnding := "\r\n"

  /** `_get_http_code_string`: the fixed phrase of a known status, `Unknown` for any
      other code. No phrase breaks the status line. */
  function ReasonPhrase(code: int): (r: string)
    ensures r == "Unknown" <==> code !in ReasonPhrases
    ensures '\r' !in r && '\n' !in r
  {
    if code in ReasonPhrases then ReasonPhrases[code] else "Unknown"
  }

  /** `ResponseParams`; an absent `extra_headers` list is the empty sequence (the
      handler treats `None` and `[]` alike). */
  datatype ResponseParams = ResponseParams(
    code: int,
    contentType: string,
    content: seq<byte>,
    extraHeaders: seq<string>,
    headerOnly: bool)

  /** The six lines every response starts with, in their fixed order. */
  function StandardHeaders(p: ResponseParams, date: string): seq<string> {
    [ "HTTP/1.1 " + IntToString(p.code) + " " + ReasonPhrase(p.code),
      "Date: " + date,
      "Server: SimpleHTTP/1.0",
      "Content-Length: " + IntToString(|p.content|),
      "Content-Type: " + p.contentType,
      "Connection: close" ]
  }

  /** Every line followed by CRLF. */
  function Terminated(lines: seq<string>): string {
    if lines == [] then [] else lines[0] + LineEnding + Terminated(lines[1..])
  }

  /** The layout of a header block: the standard lines, then the extra headers in
      their order, each ended by CRLF, then an empty line. */
  function HeaderBlock(p: ResponseParams, date: string): string {
    Terminated(StandardHeaders(p, date) + p.extraHeaders) + LineEnding
  }

  /** A header block joined the way `_build_headers` joins it (the list with a final
      `"\r\n"` element, joined by `"\r\n"`) is laid out as `HeaderBlock` says. */
  lemma {:induction false} JoinedLines(lines: seq<string>)
    requires lines != []
    ensures Join(lines + [LineEnding], LineEnding) == Terminated(lines) + LineEnding
    decreases |lines|
  {
    var all := lines + [LineEnding];
    assert all[1..] == lines[1..] + [LineEnding];
    if |lines| == 1 {
      assert Join(all[1..], LineEnding) == LineEnding;
      assert Terminated(lines[1..]) == [];
    } else {
      JoinedLines(lines[1..]);
    }
  }

  /** `_build_headers`: the header block, UTF-8 encoded. */
  method BuildHeaders(p: ResponseParams, date: string) returns (header: seq<byte>)
    ensures header == Encode(HeaderBlock(p, date))
  {
    var headers := StandardHeaders(p, date);
    if |p.extraHeaders| > 0 {
      headers := headers + p.extraHeaders;
    }
    assert headers == StandardHeaders(p, date) + p.extraHeaders;
    headers := headers + [LineEnding];
    JoinedLines(StandardHeaders(p, date) + p.extraHeaders);
    header := Encode(Join(headers, LineEnding));
  }

  /** The bytes of a whole response: the header block, then the body unless the
      response is header-only. */
  function Serialize(p: ResponseParams, date: string): seq<byte> {
    Encode(HeaderBlock(p, date)) + (if p.headerOnly then [] else p.content)
  }

  /** What `sendall` (or `recv`) on the connection socket can raise: a
      `ConnectionResetError`, a `socket.timeout`, or another `OSError` with its errno.
      An `OSError` built with ECONNRESET or ETIMEDOUT is one of the first two, so
      `handle` answers a `SocketError` with those errnos as it answers them. */
  datatype SocketFault = ConnectionReset | TimedOut | SocketError(errno: int)

  /** One call of `_send_response` as the outside world decides it: the date the
      clock gives `_build_headers`, and the fault `sendall` raises, if any. */
  datatype SendSlot = SendSlot(date: string, failure: Option<SocketFault>)

  /** What one `_send_response` achieves: the whole response delivered, or the
      fault `sendall` raised. */
  function Transmit(p: ResponseParams, slot: SendSlot): Result<seq<byte>, SocketFault> {
    match slot.failure
    case None => Ok(Serialize(p, slot.date))
    case Some(f) => Err(f)
  }

  /** `_send_response`: the header block, the body unless header-only, then `sendall`. */
  method SendResponse(p: ResponseParams, slot: SendSlot) returns (r: Result<seq<byte>, SocketFault>)
    ensures r == Transmit(p, slot)
  {
    var response := BuildHeaders(p, slot.date);
    if !p.headerOnly {
      response := response + p.content;
    }
    assert response == Serialize(p, slot.date);
    if slot.failure.Some? {
      return Err(slot.failure.value);
    }
    return Ok(response);
  }

  /** `"<code> <phrase>"`, as the error page shows it. */
  function StatusLabel(code: int): string {
    IntToString(code) + " " + ReasonPhrase(code)
  }

  /** The HTML page `_send_error` sends. */
  function ErrorPage(code: int): string {
    "<html>\n<head>" + Title(code) + "</head>\n<body>" + Heading(code) + "</body>\n</html>"
  }

  function Title(code: int): string {
    "<title>" + StatusLabel(code) + "</title>"
  }

  function Heading(code: int): string {
    "<h1>" + StatusLabel(code) + "</h1>"
  }

  /** The response `_send_error` builds. */
  function ErrorResponse(code: int): ResponseParams {
    ResponseParams(code, "text/html", Encode(ErrorPage(code)), [], false)
  }

  /** `_send_error`: the error page sent as a `text/html` response. */
  method SendError(code: int, slot: SendSlot) returns (r: Result<seq<byte>, SocketFault>)
    ensures r == Transmit(ErrorResponse(code), slot)
  {
    var page := ErrorPage(code);
    var params := ResponseParams(code, "text/html", Encode(page), [], false);
    r := SendResponse(params, slot);
  }

  /** `_try_send_error`: `_send_error`, with any socket fault it raises swallowed.
      (Nothing else can escape `_send_error`, so the `sys.exit` branch is never taken.) */
  method TrySendError(code: int, slot: SendSlot) returns (delivered: Option<seq<byte>>)
    ensures delivered == if slot.failure.None? then Some(Serialize(ErrorResponse(code), slot.date)) else None
  {
    var r := SendError(code, slot);
    match r {
      case Ok(response) => delivered := Some(response);
      case Err(_) => delivered := None;
    }
  }

  // ---------------------------------------------------------------------------
  // Properties

  /** The error page names the status, `"<code> <phrase>"`, both in its title and in
      its heading. */
  lemma ErrorPageShowsStatus(code: int)
    ensures Contains(ErrorPage(code), "<title>" + StatusLabel(code) + "</title>")
    ensures Contains(ErrorPage(code), "<h1>" + StatusLabel(code) + "</h1>")
  {
    var a, b, c := "<html>\n<head>", "</head>\n<body>", "</body>\n</html>";
    assert ErrorPage(code) == a + Title(code) + (b + Heading(code) + c);
    ContainsInfix(a, Title(code), b + Heading(code) + c);
    assert ErrorPage(code) == (a + Title(code) + b) + Heading(code) + c;
    ContainsInfix(a + Title(code) + b, Heading(code), c);
  }

  /** A non-empty run of terminated lines ends with CRLF. */
  lemma {:induction false} TerminatedEnds(lines: seq<string>)
    requires lines != []
    ensures EndsWith(Terminated(lines), LineEnding)
    decreases |lines|
  {
    var head := lines[0] + LineEnding;
    var t := Terminated(lines[1..]);
    assert Terminated(lines) == head + t;
    if |lines| > 1 {
      TerminatedEnds(lines[1..]);
      assert (head + t)[|head + t| - 2..] == t[|t| - 2..];
    } else {
      assert head + t == head;
    }
  }

  /** The header block opens with the status line and closes with an empty line:
      it ends in CRLF CRLF. */
  lemma HeaderBlockLayout(p: ResponseParams, date: string)
    ensures StartsWith(HeaderBlock(p, date),
                       "HTTP/1.1 " + IntToString(p.code) + " " + ReasonPhrase(p.code) + LineEnding)
    ensures EndsWith(HeaderBlock(p, date), LineEnding + LineEnding)
  {
    var lines := StandardHeaders(p, date) + p.extraHeaders;
    var first := lines[0] + LineEnding;
    var t := Terminated(lines);
    assert t == first + Terminated(lines[1..]);
    assert t[..|first|] == first;
    TerminatedEnds(lines);
    assert (t + LineEnding)[|t| - 2..] == t[|t| - 2..] + LineEnding;
  }

  /** A HEAD response is the matching GET response without its body: the header
      blocks are equal (Content-Length included) and only the body differs. */
  lemma HeadIsGetWithoutBody(p: ResponseParams, date: string)
    ensures Serialize(p.(headerOnly := false), date)
         == Serialize(p.(headerOnly := true), date) + p.content
    ensures Serialize(p.(headerOnly := true), date) == Encode(HeaderBlock(p, date))
  {
  }
}
