# A verified model of the request handler of SimpleHTTP

This project models the per-connection request pipeline of a small static-file HTTP
server, the class `PartialHTTPRequestHandler` of `server/handler.py`.

What it models:

- **The bytes `recv` returns.** The pipeline decodes them as UTF-8 and takes the tokens of the first line.
- **Rejections.** A malformed line gets 400; a method other than `GET` or `HEAD` gets 405.
- **The path sanitiser** `_get_safe_path`. It has four layers:
  - textual removal of `../` and `..\`;
  - rejection of what is left suspicious;
  - joining onto the document root, with POSIX normalisation;
  - the `commonpath` containment check.
- **`process_request`.** It answers 404 for a missing path, serves `index.html` for a directory or a path with a trailing separator, and sends a 200 with the file otherwise.
- **The content type.** The type comes from the lookup and defaults to `application/octet-stream`. `; charset=utf-8` is appended to a `text/` type whose content is not 7-bit clean.
- **The serialised response.** A status line and a fixed-order header block come first, followed by the body unless the response is header-only.
- **The `except` clauses of `handle`.** Each maps a fault to the status of the error page that `_try_send_error` tries to send.

The modules follow the structure of the handler:

- `Common` (`common.dfy`): `Option` and `Result`, where `Err` stands for a raised exception.
- `Utf8` (`utf8.dfy`): bytes, strict UTF-8 encoding and decoding, strict ASCII decoding.
- `Text` (`text.dfy`): Python's `startswith`, `endswith`, `in`, `replace`, `split`, `join`, `split()` and `str(n)` over sequences.
- `Paths` (`paths.dfy`): `_get_safe_path`, with `os.path.normpath` as a fold over path components and `os.path.commonpath` as a common prefix of components.
- `Responses` (`responses.dfy`): `_get_http_code_string`, `_build_headers`, `_send_response`, `_send_error`, `_try_send_error`.
- `ResponseParser` (`response_parser.dfy`): reads a serialised response back the way an HTTP client does; this is the partner of the serialiser.
- `ContentType` (`content_type.dfy`): `_needs_charset`, `guess_content_type`.
- `Pipeline` (`pipeline.dfy`): `handle` and `process_request`.

The imperative procedures of the handler are methods. Each is proved against a function of
its inputs:

- `BuildHeaders` builds a list, extends it, appends to it and joins it; it is proved against `HeaderBlock`.
- `SendResponse` appends the body with `+=` and is proved against `Transmit`.
- `ProcessRequest` reassigns `safe_path` and returns early; it is proved against `ProcessPlan`.
- `Handle` and its `except` clauses are proved against `HandleSpec`.

The expression-level parts are functions with lemmas about them: the phrase table,
`_get_safe_path`, `_needs_charset` and `guess_content_type`.

The outside world is an input:

- The filesystem is a map from path components to `File(bytes) | Dir | Unreadable(errno)`.
- `urlparse` + `unquote` and `mimetypes.guess_type` are the two functions of `Pipeline.Env`.
- The connection is a `Pipeline.Peer`. It holds what `recv` returned, and for each of the at most two `sendall` calls of a connection, the Date string the clock gave and the fault `sendall` raised, if any.
- `Pipeline.Outcome` holds what the peer receives and whether `handle` re-raises.

The headline results are these:

- **`Paths.SafePathContained`.** Every path the sanitiser returns is the document root or lies below it, and consists of normal components only.
- **`Pipeline.EveryResponseReadsBack`.** Whatever the peer sends and whichever sends fail, everything the peer receives reads back as a well-formed response. Its status is in the phrase table. A 200 announces a Content-Length equal to the size of a regular file under the root, and carries that file as its body, or no body at all.

## Model

| member | source | states |
|---|---|---|
| Utf8.DecodeEncode | server/handler.py:141 | strict UTF-8 decoding undoes encoding for every string |
| Utf8.Decode | server/handler.py:141 | a decoded request has at most as many characters as bytes, and is empty exactly when no bytes were received |
| Utf8.DecodeSound | server/handler.py:141 | whatever strict UTF-8 decoding accepts re-encodes to exactly the bytes received |
| Utf8.DecodeExactly | server/handler.py:141 | decoding succeeds exactly on the byte strings that are the UTF-8 encoding of some string |
| Utf8.AsciiDecode | server/handler.py:133 | strict ASCII decoding succeeds exactly on 7-bit clean bytes, and then maps each byte to the same code point |
| Utf8.AsciiIsUtf8 | server/handler.py:133 | on 7-bit clean bytes the ASCII and UTF-8 decoders agree |
| Text.FirstLine | server/handler.py:146-147 | `split("\r\n")[0]` is a prefix of the request that holds no CRLF, and the request has a CRLF right after it unless it is all of it |
| Text.TokensSpec | server/handler.py:147 | `split()` gives non-empty words without whitespace which, concatenated, are exactly the non-whitespace characters of the line in order |
| Text.TokensOfToken | server/handler.py:147 | a single whitespace-free word splits into exactly itself |
| Text.TokensSplitAtSpace | server/handler.py:147 | any whitespace character separates tokens: the tokens of `a + [w] + b` are those of `a` followed by those of `b` |
| Text.TokensOfSpace | server/handler.py:147 | a line of whitespace only splits into no tokens |
| Text.JoinSplit | server/handler.py:115-118 | splitting a path at `/` and joining the pieces with `/` gives the path back |
| Text.ReplaceAbsent | server/handler.py:108 | `replace` leaves a text without the pattern unchanged |
| Text.RemoveKeeps | server/handler.py:108 | deleting a pattern keeps every character that the pattern does not contain |
| Paths.StripLeadingSeparators | server/handler.py:117 | `lstrip('/\\')` returns a suffix of its input that starts with neither separator, and everything it removed is `/` or `\\` |
| Paths.SafePathExact | server/handler.py:104-127 | a request that is still suspicious after layer 1 is rejected by layer 2; any other request is accepted exactly when its normalised join onto the root starts with the root's components, and then resolves to that join, marked directory-like exactly when the request ends in `/` |
| Paths.SafePathContained | server/handler.py:114-127 | every accepted path lies at or below the document root and has only normal components |
| Paths.JoinComponents | server/handler.py:115-118 | `os.path.join` of the root's string and the stripped request is the root's string, a separator unless the root is `/`, then the request; split at `/` it gives the root's components followed by the request's pieces |
| Paths.JoinedFromRoot | server/handler.py:115-118 | normalising the join onto a normalised root is a fold that starts from the root, and yields normal components |
| Paths.CommonPrefixRoot | server/handler.py:124 | the common path of a path and the root is the root exactly when the root is a prefix of the path |
| Paths.PathStringInjective | server/handler.py:124 | comparing path strings is comparing component sequences |
| Paths.TildeRejected | server/handler.py:107-112 | a request holding `~` is always rejected as suspicious |
| Paths.OverlappingTraversalRejected | server/handler.py:107-112 | `....//` becomes `../` after layer 1 and is rejected by layer 2 rather than repaired |
| Paths.DotDotRejectedByContainment | server/handler.py:107-125 | `..` and `/..` pass layers 1 and 2 and are rejected by the containment check below any root other than `/` |
| Paths.SlashIsRootDirectory | server/handler.py:105-124 | `/` resolves to the root, directory-like, and its string ends with a separator |
| Paths.EmptyIsRoot | server/handler.py:104-127 | the empty path resolves to the root, not directory-like |
| Paths.RenderEndsWithSlash | server/handler.py:120-121 | the returned string ends with a separator exactly when the request did, or when it is `/` itself |
| Responses.ReasonPhrase | server/handler.py:41-51 | the phrase is `Unknown` exactly for codes outside the table, and no phrase holds CR or LF |
| Responses.JoinedLines | server/handler.py:64-69 | joining the header list with its final `"\r\n"` element by `"\r\n"` ends every line with CRLF and adds one empty line |
| Responses.BuildHeaders | server/handler.py:53-69 | the bytes built are the UTF-8 encoding of the six standard lines in their order, then the extra headers in their order, each ended by CRLF, then an empty line |
| Responses.HeaderBlockLayout | server/handler.py:55-69 | the header block starts with `HTTP/1.1 <code> <phrase>` CRLF and ends with CRLF CRLF |
| Responses.SendResponse | server/handler.py:71-77 | the bytes handed to `sendall` are the header block followed by the body unless header-only; a failing `sendall` raises its fault |
| Responses.SendError | server/handler.py:79-93 | `_send_error` sends the error page as a `text/html` response with the given code |
| Responses.TrySendError | server/handler.py:95-102 | the error page is delivered when `sendall` works, and a socket fault is swallowed otherwise |
| Responses.ErrorPageShowsStatus | server/handler.py:80-84 | the error page holds `<code> <phrase>` in both its title and its heading |
| Responses.HeadIsGetWithoutBody | server/handler.py:71-77 | a header-only response is the full response with the body cut off; the header blocks, Content-Length included, are identical |
| ResponseParser.SerializeReadsBack | server/handler.py:53-77 | a serialised response reads back with its code and content type, a Content-Length equal to the content's length (header-only or not), and as body the content, or nothing when header-only |
| ResponseParser.HeaderLinesReadBack | server/handler.py:59-60 | the first Content-Length and Content-Type lines carry `len(content)` and the content type |
| ResponseParser.StatusLineRoundTrip | server/handler.py:56 | the status line reads back as the code it was built from |
| ResponseParser.ParseNatString | server/handler.py:59 | the decimal text of a number reads back as that number and holds no space or CR |
| ResponseParser.ErrorPageReadsBack | server/handler.py:79-93 | an error response reads back as `text/html` with its code, its page as body and the page's length as Content-Length |
| ContentType.NeedsCharsetExactly | server/handler.py:129-135 | `_needs_charset` is true exactly when some byte of the file is 0x80 or above |
| ContentType.ContentTypeExactly | server/handler.py:213-222 | the type is the lookup's answer, or `application/octet-stream` when there is none, with `; charset=utf-8` appended exactly when the type starts with `text/` and the file is not 7-bit clean |
| ContentType.ContentTypeHasNoCr | server/handler.py:213-222 | the content type holds no CR when the lookup's answer does not |
| Pipeline.StatusFor | server/handler.py:165-183 | each `except` clause sends a 4xx or 5xx status of the table, never 200; 400 exactly for a decoding fault; 404 exactly for an `OSError` with errno 2; 504 exactly for a timeout, whether `socket.timeout` or an `OSError` with ETIMEDOUT (from `open` too); 500 exactly for a connection reset (or an `OSError` with ECONNRESET) or an unexpected exception; 403 exactly for a rejected path or an `OSError` with any other errno |
| Pipeline.ProcessRequest | server/handler.py:186-210 | `process_request` delivers the response of its plan, or raises that plan's fault, or raises the socket fault of the `sendall` that fails |
| Pipeline.Handle | server/handler.py:137-184 | `handle` delivers exactly what `HandleSpec` says for every peer, and re-raises exactly when it says so |
| Pipeline.Respond | server/handler.py:145-163 | after a non-empty request decoded, the request line is checked, then `process_request` runs and its fault is reported |
| Pipeline.SendErrorOn | server/handler.py:149-158 | the 400 and 405 pages are sent with `_send_error`, and a failing send is a fault of `handle` |
| Pipeline.ReportFault | server/handler.py:165-184 | an `except` clause tries to send the fault's status and re-raises only an unexpected fault |
| Pipeline.Finish | server/handler.py:163-184 | a delivered response ends the connection; a fault goes to its `except` clause |
| Pipeline.ReportReadsBack | server/handler.py:165-184 | on a working send the peer reads back the fault's status; only an unexpected fault re-raises |
| Pipeline.ErrorReplyReadsBack | server/handler.py:149-158 | an error page planned by `handle` reaches the peer, who reads back its code |
| Pipeline.RecvFaultAnswered | server/handler.py:169-179 | a failed `recv` is answered 500 for a reset, 504 for a timeout, and by errno for another socket error (500 for ECONNRESET, 504 for ETIMEDOUT, 404 for ENOENT, 403 otherwise) |
| Pipeline.UndecodableAnswered | server/handler.py:141-167 | a request that is not UTF-8 is answered 400 and does not re-raise |
| Pipeline.SilentExactlyOnEmptyRead | server/handler.py:141-143 | no answer is planned exactly when `recv` returned no bytes, and then nothing is sent and nothing is raised |
| Pipeline.ShortRequestLineAnswered | server/handler.py:146-151 | a first line with fewer than two tokens is answered 400 |
| Pipeline.MethodNotAllowedAnswered | server/handler.py:154-158 | a method other than `GET` or `HEAD` is answered 405 |
| Pipeline.RejectedPathAnswered | server/handler.py:160-179 | a target the sanitiser rejects is answered 403 (the `OSError` clause, no errno) and is not re-raised |
| Pipeline.ConcludeRaises | server/handler.py:181-184 | carrying out a plan re-raises exactly for an unexpected fault |
| Pipeline.ProcessPlanFaults | server/handler.py:186-200 | before it sends anything, `process_request` raises only the sanitiser's PermissionError or the OSError of `open` |
| Pipeline.RaisesOnlyWhenUrlParsingFails | server/handler.py:160-184 | `handle` re-raises exactly when `urlparse` fails on the target of an otherwise acceptable request line |
| Pipeline.OutcomeSelection | server/handler.py:189-210 | a missing path gets 404, as does a non-directory written with a trailing separator; a regular file gets a 200 with its bytes and guessed type, header-only exactly for HEAD; an unreadable entry gets its `open` fault; a directory gets the same choice made on its `index.html`, or 404 when that is missing |
| Pipeline.IndexSelection | server/handler.py:193-197 | a directory is answered by its `index.html`, which is never written with a trailing separator |
| Pipeline.ChooseServesTarget | server/handler.py:189-199 | `process_request` either answers 404 or serves its target |
| Pipeline.TargetUnderRoot | server/handler.py:193-194 | appending `index.html` keeps a path under the root |
| Pipeline.ServeAnswers | server/handler.py:199-210 | a 200 carries the bytes of a regular file at the path, its guessed type and no extra header, and is header-only exactly for HEAD |
| Pipeline.ServedFilesLieUnderRoot | server/handler.py:186-210 | the only response `process_request` builds itself is a 200 carrying a regular file under the document root |
| Pipeline.ChooseServedUnderRoot | server/handler.py:189-210 | the same for a sanitised path under the root |
| Pipeline.HeadMatchesGet | server/handler.py:186-210 | HEAD and GET choose the same outcome; a 200 to HEAD is the 200 to GET without its body, with the same Content-Length |
| Pipeline.ChooseHeadMatchesGet | server/handler.py:189-208 | the same for a sanitised path |
| Pipeline.LinePlanSound | server/handler.py:145-210 | every response planned for a request line is either a framable 200 with a file under the root or an error page with a 4xx or 5xx status |
| Pipeline.EveryResponseReadsBack | server/handler.py:137-210 | everything the peer receives parses; its status is in the table; a 200 announces the length of a regular file under the root and carries that file or no body |
| Pipeline.ConcludeReadsBack | server/handler.py:163-184 | carrying out a sound plan delivers only responses that read back well |
| Pipeline.ReportReadsBackWell | server/handler.py:165-184 | an error report reads back well |
| Pipeline.ErrorPageReadsBackWell | server/handler.py:79-93 | an error page with a 4xx or 5xx status of the table reads back well |
| Pipeline.ServedReadsBack | server/handler.py:199-210 | a 200 carrying a file under the root reads back well |

### Edge cases of the code

- **An empty path.** `"".endswith('/')` is false, so the empty path resolves to the root without a trailing separator, that is, not directory-like (`Paths.EmptyIsRoot`). `process_request` still serves its `index.html`, because the root is a directory.
- **A path that is just `..`.** It holds no `../`, so layers 1 and 2 let it through. It is rejected only by the containment check of layer 4, and only when the root is not `/` (`Paths.DotDotRejectedByContainment`). Below `/` it resolves to `/` itself.
- **A HEAD request that fails.** `_send_error` does not look at the method, so it gets the full error page as body. Only a 200 to HEAD is header-only.

## Left out

- **Socket I/O.** `recv`, `sendall` and socket timeouts are inputs (`Pipeline.Peer`). The single read of at most `RECV_BUFFER_SIZE` bytes is not modelled as a limit: the received bytes are whatever the peer model says `recv` returned.
- **A failing `sendall`.** It is modelled as delivering nothing; a partial delivery before the fault is not modelled.
- **`_get_http_date`.** It reads the wall clock, so the Date string is an input of each send.
- **Library calls.** `urlparse` + `unquote` and `mimetypes.guess_type` are uninterpreted functions in `Pipeline.Env`. The ValueError `urlparse` can raise is the answer `None`, and it reaches the last `except` clause as an unexpected fault.
- **The filesystem.** `os.path.exists`, `os.path.isdir` and `open` work on an abstract map (`Pipeline.FileSystem`). Symbolic links and a filesystem that changes between the calls are not modelled. The second `open` made by `_needs_charset` is modelled as reading the same bytes that `process_request` read.
- **`sys.exit(1)` in `_try_send_error`.** It is not modelled. `_send_error` can raise only the socket faults that the first `except` clause swallows, so that branch is unreachable in the model.
- **Logging and threads.** The `print` calls, `threading.current_thread` and the thread pool of `server/httpd.py` are not modelled. The document root is taken, as `server/httpd.py` makes it, to be absolute and normalised: a sequence of normal components. `server/httpd.py` and `setup.py` are not part of this model.
- **Errno values and exception classes.** The errnos are Linux's (ENOENT 2, ECONNRESET 104, ETIMEDOUT 110). `socket.timeout` is `TimeoutError`, as from Python 3.10. Any `OSError` built with ECONNRESET or ETIMEDOUT is therefore caught by the reset or the timeout clause, wherever it is raised.
- **`ResponseParams.extra_headers`.** `None` and `[]` are both the empty sequence, since `_build_headers` treats them alike.
- **Paths.** They are POSIX paths. `\` is ordinary inside components; layers 1 and 2 look for it, and layer 3 strips leading `\` like leading `/`. The special case of `normpath` for a path starting with exactly two slashes is not modelled: the join always starts from the normalised root.
- ResponseParser.SerializeReadsBack: requires a non-negative code, non-empty extra header lines, and a Date string and header values without a carriage return, as `strftime` and the handler produce them.
- ResponseParser.ErrorPageReadsBack: requires a non-negative code and a Date string without a carriage return.
- Pipeline.EveryResponseReadsBack: requires Date strings without a carriage return, and a type lookup whose answers hold none (`Pipeline.CleanTypes`). A response with a CR in a header value would not read back line by line.
