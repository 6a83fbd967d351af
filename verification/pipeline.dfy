/** `handle` and `process_request` (server/handler.py): from what `recv` returns to
    what the peer receives. The filesystem, the clock, the socket and the library
    helpers `urlparse`/`unquote` and `mimetypes.guess_type` are inputs. */
module Pipeline {
  import opened Common
  import opened Utf8
  import opened Text
  import opened Paths
  import opened Responses
  import opened ContentType
  import opened ResponseParser

  const ENOENT := 2
  const ENOTDIR := 20
  const EISDIR := 21
  /** `errno.ECONNRESET` and `errno.ETIMEDOUT` (Linux): an `OSError` built with one
      of these is a `ConnectionResetError` or a `TimeoutError` (`socket.timeout`),
      which an earlier `except` clause of `handle` catches. */
  const ECONNRESET := 104
  const ETIMEDOUT := 110

  const IndexFile := "index.html"

  /** `HTTP_ALLOWED_METHODS`. */
  const AllowedMethods := ["GET", "HEAD"]

  // ---------------------------------------------------------------------------
  // The filesystem

  /** What the filesystem holds at an absolute path: a regular file, a directory, or
      an entry `open` fails on with the given errno. */
  datatype Node = File(content: seq<byte>) | Dir | Unreadable(errno: int)

  /** The filesystem, keyed by the components of absolute paths. */
  type FileSystem = map<seq<string>, Node>

  /** `os.path.exists` on the string `_get_safe_path` returned: a path written with a
      trailing separator only resolves to a directory. */
  predicate Exists(fs: FileSystem, p: ResolvedPath) {
    p.segs in fs && (EndsWith(Render(p), "/") ==> fs[p.segs].Dir?)
  }

  /** `os.path.isdir`. */
  predicate IsDir(fs: FileSystem, p: ResolvedPath) {
    p.segs in fs && fs[p.segs].Dir?
  }

  /** `open(path, 'rb').read()`: the bytes of a regular file, or the errno of the
      OSError `open` raises. */
  function ReadFile(fs: FileSystem, p: ResolvedPath): Result<seq<byte>, int> {
    if p.segs !in fs then Err(ENOENT)
    else match fs[p.segs]
      case Dir => Err(EISDIR)
      case Unreadable(e) => Err(e)
      case File(content) => if p.dirLike then Err(ENOTDIR) else Ok(content)
  }

  /** `os.path.join(path, 'index.html')`. */
  function IndexPath(p: ResolvedPath): ResolvedPath {
    ResolvedPath(p.segs + [IndexFile], false)
  }

  // ---------------------------------------------------------------------------
  // Faults and the status reported for each

  /** Everything that can escape into the `except` clauses of `handle`. */
  datatype Fault =
    | DecodeFailure                // UnicodeDecodeError while decoding the request
    | Socket(fault: SocketFault)   // raised by `recv` or `sendall`
    | PathRejected(why: Rejection) // the PermissionError of `_get_safe_path`: no errno
    | FileError(errno: int)        // the OSError `open` raises
    | Unexpected                   // anything else: the ValueError `urlparse` can raise

  /** The status `handle` tries to send for a fault, by its first matching `except`
      clause. Every fault is reported with a status of the phrase table, never 200. */
  function StatusFor(f: Fault): (code: int)
    ensures code in ReasonPhrases && 400 <= code < 600
    ensures code == HttpNotFound <==> f in {Socket(SocketError(ENOENT)), FileError(ENOENT)}
    ensures code == HttpBadRequest <==> f == DecodeFailure
    ensures code == HttpGatewayTimeout <==>
      f in {Socket(TimedOut), Socket(SocketError(ETIMEDOUT)), FileError(ETIMEDOUT)}
    ensures code == HttpForbidden <==>
      || f.PathRejected?
      || (f.FileError? && f.errno !in {ENOENT, ECONNRESET, ETIMEDOUT})
      || (f.Socket? && f.fault.SocketError? && f.fault.errno !in {ENOENT, ECONNRESET, ETIMEDOUT})
    ensures code == HttpInternalError <==>
      f in {Socket(ConnectionReset), Socket(SocketError(ECONNRESET)), FileError(ECONNRESET), Unexpected}
  {
    match f
    case DecodeFailure => HttpBadRequest
    case Socket(ConnectionReset) => HttpInternalError
    case Socket(TimedOut) => HttpGatewayTimeout
    case Socket(SocketError(e)) => OsErrorStatus(e)
    case PathRejected(_) => HttpForbidden
    case FileError(e) => OsErrorStatus(e)
    case Unexpected => HttpInternalError
  }

  /** The clause an `OSError` with errno `e` reaches: `except ConnectionResetError`,
      `except timeout`, or `except OSError` with its errno test. */
  function OsErrorStatus(e: int): int {
    if e == ECONNRESET then HttpInternalError
    else if e == ETIMEDOUT then HttpGatewayTimeout
    else if e == ENOENT then HttpNotFound
    else HttpForbidden
  }

  // ---------------------------------------------------------------------------
  // What the handler decides

  /** The library helpers the handler calls: `unquote(urlparse(target).path)` (`None`
      when `urlparse` raises ValueError) and the type `mimetypes.guess_type` finds. */
  datatype Env = Env(urlPath: string -> Option<string>, guessType: string -> Option<string>)

  /** What the handler decides to do: send a response (`_send_response`), send an
      error page (`_send_error`), or raise a fault before sending anything. */
  datatype Plan = Reply(response: ResponseParams) | ErrorReply(code: int) | Fail(fault: Fault)

  /** The last steps of `process_request`: read the file and answer 200 with it, its
      guessed type, and no body for HEAD. */
  function Serve(fs: FileSystem, env: Env, verb: string, p: ResolvedPath): Plan {
    match ReadFile(fs, p)
    case Err(e) => Fail(FileError(e))
    case Ok(content) =>
      Reply(ResponseParams(HttpOk, GuessContentType(Render(p), content, env.guessType),
                           content, [], verb == "HEAD"))
  }

  /** What `process_request` does once the path is sanitised: 404 for a path that
      does not exist; for a directory, or a path written with a trailing separator,
      its `index.html` (404 when that does not exist); otherwise the file itself. */
  function Choose(fs: FileSystem, env: Env, verb: string, safe: ResolvedPath): Plan {
    if !Exists(fs, safe) then ErrorReply(HttpNotFound)
    else if IsDir(fs, safe) || EndsWith(Render(safe), "/") then
      if !Exists(fs, IndexPath(safe)) then ErrorReply(HttpNotFound)
      else Serve(fs, env, verb, IndexPath(safe))
    else Serve(fs, env, verb, safe)
  }

  /** `process_request(method, path)`. */
  function ProcessPlan(root: seq<string>, fs: FileSystem, env: Env, verb: string, path: string): Plan
    requires NormalSegments(root)
  {
    match GetSafePath(root, path)
    case Err(why) => Fail(PathRejected(why))
    case Ok(safe) => Choose(fs, env, verb, safe)
  }

  /** What `handle` does with the bytes `recv` returned: a decoding fault, nothing
      for an empty request, otherwise what the request line asks for. */
  function RequestPlan(root: seq<string>, fs: FileSystem, env: Env, data: seq<byte>): Option<Plan>
    requires NormalSegments(root)
  {
    match Decode(data)
    case None => Some(Fail(DecodeFailure))
    case Some(text) => if text == "" then None else Some(LinePlan(root, fs, env, text))
  }

  /** What `handle` does with a non-empty decoded request: check the tokens of its
      first line, then pass the method and the decoded URL path to `process_request`. */
  function LinePlan(root: seq<string>, fs: FileSystem, env: Env, text: string): Plan
    requires NormalSegments(root)
  {
    var requestLine := Tokens(FirstLine(text));
    if |requestLine| < 2 then ErrorReply(HttpBadRequest)
    else if requestLine[0] !in AllowedMethods then ErrorReply(HttpMethodNotAllowed)
    else match env.urlPath(requestLine[1])
      case None => Fail(Unexpected)
      case Some(path) => ProcessPlan(root, fs, env, requestLine[0], path)
  }

  // ---------------------------------------------------------------------------
  // What the peer receives

  /** What `recv` does. */
  datatype RecvResult = Received(data: seq<byte>) | RecvFailed(fault: SocketFault)

  /** Everything outside the handler that decides one connection: what `recv`
      returns, and the two sends `handle` can make (the response, and the error
      report after a fault). */
  datatype Peer = Peer(received: RecvResult, first: SendSlot, second: SendSlot)

  /** The bytes the peer receives (if any), and whether `handle` re-raises. */
  datatype Outcome = Outcome(delivered: Option<seq<byte>>, raised: bool)

  /** A failed `sendall` as a fault of `handle`. */
  function AsFault(r: Result<seq<byte>, SocketFault>): Result<seq<byte>, Fault> {
    match r
    case Ok(bytes) => Ok(bytes)
    case Err(sf) => Err(Socket(sf))
  }

  /** Carrying out a plan on one send: the bytes delivered, or the fault. */
  function Attempt(plan: Plan, slot: SendSlot): Result<seq<byte>, Fault> {
    match plan
    case Fail(f) => Err(f)
    case Reply(p) => AsFault(Transmit(p, slot))
    case ErrorReply(code) => AsFault(Transmit(ErrorResponse(code), slot))
  }

  /** An `except` clause of `handle`: `_try_send_error` with the fault's status, then
      a re-raise for an unexpected fault. */
  function Report(f: Fault, slot: SendSlot): Outcome {
    Outcome(if slot.failure.None? then Some(Serialize(ErrorResponse(StatusFor(f)), slot.date)) else None,
            f == Unexpected)
  }

  /** The send an error report goes out on: a socket fault out of a plan was raised
      by its `sendall`, which used the first send; any other fault was raised before
      anything was sent. */
  function ReportSlot(f: Fault, peer: Peer): SendSlot {
    if f.Socket? then peer.second else peer.first
  }

  /** Carrying out a plan: the response delivered on the first send, or the fault
      reported. */
  function Conclude(plan: Plan, peer: Peer): Outcome {
    match Attempt(plan, peer.first)
    case Ok(bytes) => Outcome(Some(bytes), false)
    case Err(f) => Report(f, ReportSlot(f, peer))
  }

  /** The outcome of one connection. */
  function HandleSpec(root: seq<string>, fs: FileSystem, env: Env, peer: Peer): Outcome
    requires NormalSegments(root)
  {
    match peer.received
    case RecvFailed(sf) => Report(Socket(sf), peer.first)
    case Received(data) =>
      match RequestPlan(root, fs, env, data)
      case None => Outcome(None, false)
      case Some(plan) => Conclude(plan, peer)
  }

  // ---------------------------------------------------------------------------
  // The procedures

  /** `process_request`: the bytes delivered, or the fault raised. */
  method ProcessRequest(root: seq<string>, fs: FileSystem, env: Env, verb: string, path: string,
                        slot: SendSlot) returns (r: Result<seq<byte>, Fault>)
    requires NormalSegments(root)
    ensures r == Attempt(ProcessPlan(root, fs, env, verb, path), slot)
  {
    var checked := GetSafePath(root, path);
    if checked.Err? {
      return Err(PathRejected(checked.error));
    }
    var safePath := checked.value;
    ghost var plan := Choose(fs, env, verb, safePath);
    assert ProcessPlan(root, fs, env, verb, path) == plan;
    if !Exists(fs, safePath) {
      r := SendErrorOn(HttpNotFound, slot);
      return;
    }
    if IsDir(fs, safePath) || EndsWith(Render(safePath), "/") {
      safePath := IndexPath(safePath);
      if !Exists(fs, safePath) {
        r := SendErrorOn(HttpNotFound, slot);
        return;
      }
    }
    assert plan == Serve(fs, env, verb, safePath);
    var read := ReadFile(fs, safePath);
    if read.Err? {
      return Err(FileError(read.error));
    }
    var content := read.value;
    var contentType := GuessContentType(Render(safePath), content, env.guessType);
    var headerOnly := verb == "HEAD";
    var response := ResponseParams(HttpOk, contentType, content, [], headerOnly);
    var sent := SendResponse(response, slot);
    r := AsFault(sent);
  }

  /** One `except` clause of `handle`. */
  method ReportFault(f: Fault, slot: SendSlot) returns (o: Outcome)
    ensures o == Report(f, slot)
  {
    var delivered := TrySendError(StatusFor(f), slot);
    o := Outcome(delivered, f == Unexpected);
  }

  /** `handle`: one connection, from `recv` to the last send. */
  method Handle(root: seq<string>, fs: FileSystem, env: Env, peer: Peer) returns (o: Outcome)
    requires NormalSegments(root)
    ensures o == HandleSpec(root, fs, env, peer)
  {
    if peer.received.RecvFailed? {
      o := ReportFault(Socket(peer.received.fault), peer.first);
      return;
    }
    var decoded := Decode(peer.received.data);
    if decoded.None? {
      o := ReportFault(DecodeFailure, peer.first);
      return;
    }
    var requestData := decoded.value;
    if requestData == "" {
      return Outcome(None, false);
    }
    o := Respond(root, fs, env, requestData, peer);
  }

  /** The part of `handle` after a non-empty request decoded. */
  method Respond(root: seq<string>, fs: FileSystem, env: Env, requestData: string, peer: Peer)
    returns (o: Outcome)
    requires NormalSegments(root)
    ensures o == Conclude(LinePlan(root, fs, env, requestData), peer)
  {
    var requestLine := Tokens(FirstLine(requestData));
    var sent: Result<seq<byte>, Fault>;
    ghost var plan: Plan;
    if |requestLine| < 2 {
      plan := ErrorReply(HttpBadRequest);
      sent := SendErrorOn(HttpBadRequest, peer.first);
    } else if requestLine[0] !in AllowedMethods {
      plan := ErrorReply(HttpMethodNotAllowed);
      sent := SendErrorOn(HttpMethodNotAllowed, peer.first);
    } else {
      var path := env.urlPath(requestLine[1]);
      if path.None? {
        o := ReportFault(Unexpected, peer.first);
        return;
      }
      plan := ProcessPlan(root, fs, env, requestLine[0], path.value);
      sent := ProcessRequest(root, fs, env, requestLine[0], path.value, peer.first);
    }
    assert LinePlan(root, fs, env, requestData) == plan;
    o := Finish(sent, peer);
  }

  /** `_send_error(code)` inside `handle`: a socket fault it raises is a fault of
      `handle`. */
  method SendErrorOn(code: int, slot: SendSlot) returns (sent: Result<seq<byte>, Fault>)
    ensures sent == Attempt(ErrorReply(code), slot)
  {
    var s := SendError(code, slot);
    sent := AsFault(s);
  }

  /** The end of `handle`: a response delivered, or the fault `_try_send_error`
      reports. */
  method Finish(sent: Result<seq<byte>, Fault>, peer: Peer) returns (o: Outcome)
    ensures o == match sent
                 case Ok(bytes) => Outcome(Some(bytes), false)
                 case Err(f) => Report(f, ReportSlot(f, peer))
  {
    match sent {
      case Ok(bytes) =>
        o := Outcome(Some(bytes), false);
      case Err(f) =>
        o := ReportFault(f, ReportSlot(f, peer));
    }
  }

  // ---------------------------------------------------------------------------
  // Properties: what the peer reads back

  /** The status the peer reads back from what it received, if anything. */
  function StatusSeen(o: Outcome): Option<nat> {
    if o.delivered.Some? then StatusOf(o.delivered.value) else None
  }

  /** An error report on a working send reaches the peer, who reads back the
      fault's status; only an unexpected fault is re-raised. */
  lemma ReportReadsBack(f: Fault, slot: SendSlot)
    requires slot.failure.None? && '\r' !in slot.date
    ensures Report(f, slot).delivered.Some?
    ensures StatusSeen(Report(f, slot)) == Some(StatusFor(f) as nat)
    ensures Report(f, slot).raised <==> f == Unexpected
  {
    var code := StatusFor(f);
    ErrorPageReadsBack(code, slot.date);
    assert Report(f, slot).delivered == Some(Serialize(ErrorResponse(code), slot.date));
  }

  /** An error page planned by the handler reaches the peer when the first send
      works, and the peer reads back its status. */
  lemma ErrorReplyReadsBack(code: int, peer: Peer)
    requires code >= 0 && peer.first.failure.None? && '\r' !in peer.first.date
    ensures Conclude(ErrorReply(code), peer).delivered.Some?
    ensures StatusSeen(Conclude(ErrorReply(code), peer)) == Some(code as nat)
    ensures !Conclude(ErrorReply(code), peer).raised
  {
    assert Conclude(ErrorReply(code), peer).delivered
        == Some(Serialize(ErrorResponse(code), peer.first.date));
    ErrorPageReadsBack(code, peer.first.date);
  }

  /** A failed `recv` is answered, when the first send works, with the status of
      its fault: 500 for a reset, 504 for a timeout, 404 or 403 for another socket
      error. */
  lemma RecvFaultAnswered(root: seq<string>, fs: FileSystem, env: Env, peer: Peer)
    requires NormalSegments(root)
    requires peer.received.RecvFailed?
    requires peer.first.failure.None? && '\r' !in peer.first.date
    ensures StatusSeen(HandleSpec(root, fs, env, peer)) == Some(StatusFor(Socket(peer.received.fault)) as nat)
    ensures !HandleSpec(root, fs, env, peer).raised
  {
    ReportReadsBack(Socket(peer.received.fault), peer.first);
  }

  /** A request that is not UTF-8 is answered 400 when the first send works. */
  lemma UndecodableAnswered(root: seq<string>, fs: FileSystem, env: Env, peer: Peer)
    requires NormalSegments(root)
    requires peer.received.Received? && Decode(peer.received.data).None?
    requires peer.first.failure.None? && '\r' !in peer.first.date
    ensures StatusSeen(HandleSpec(root, fs, env, peer)) == Some(HttpBadRequest as nat)
    ensures !HandleSpec(root, fs, env, peer).raised
  {
    assert HandleSpec(root, fs, env, peer) == Report(DecodeFailure, peer.first);
    ReportReadsBack(DecodeFailure, peer.first);
  }

  /** An empty read gets no answer at all, and it is the only request that does. */
  lemma SilentExactlyOnEmptyRead(root: seq<string>, fs: FileSystem, env: Env, peer: Peer)
    requires NormalSegments(root)
    requires peer.received.Received?
    ensures RequestPlan(root, fs, env, peer.received.data).None? <==> peer.received.data == []
    ensures peer.received.data == [] ==> HandleSpec(root, fs, env, peer) == Outcome(None, false)
  {
  }

  /** The request-line rules of `handle`, as the peer sees them when the first send
      works: fewer than two tokens on the first line gets 400 ... */
  lemma ShortRequestLineAnswered(root: seq<string>, fs: FileSystem, env: Env, peer: Peer, text: string)
    requires NormalSegments(root)
    requires peer.received.Received? && Decode(peer.received.data) == Some(text) && text != ""
    requires peer.first.failure.None? && '\r' !in peer.first.date
    requires |Tokens(FirstLine(text))| < 2
    ensures StatusSeen(HandleSpec(root, fs, env, peer)) == Some(HttpBadRequest as nat)
  {
    var plan := LinePlan(root, fs, env, text);
    assert HandleSpec(root, fs, env, peer) == Conclude(plan, peer);
    ErrorReplyReadsBack(plan.code, peer);
  }

  /** ... and a method other than GET and HEAD gets 405. */
  lemma MethodNotAllowedAnswered(root: seq<string>, fs: FileSystem, env: Env, peer: Peer, text: string)
    requires NormalSegments(root)
    requires peer.received.Received? && Decode(peer.received.data) == Some(text) && text != ""
    requires peer.first.failure.None? && '\r' !in peer.first.date
    requires |Tokens(FirstLine(text))| >= 2 && Tokens(FirstLine(text))[0] !in AllowedMethods
    ensures StatusSeen(HandleSpec(root, fs, env, peer)) == Some(HttpMethodNotAllowed as nat)
  {
    var plan := LinePlan(root, fs, env, text);
    assert HandleSpec(root, fs, env, peer) == Conclude(plan, peer);
    ErrorReplyReadsBack(plan.code, peer);
  }

  /** A target the sanitiser rejects is answered 403 when the first send works,
      and the rejection is not re-raised. */
  lemma RejectedPathAnswered(root: seq<string>, fs: FileSystem, env: Env, peer: Peer, text: string, path: string)
    requires NormalSegments(root)
    requires peer.received.Received? && Decode(peer.received.data) == Some(text) && text != ""
    requires peer.first.failure.None? && '\r' !in peer.first.date
    requires |Tokens(FirstLine(text))| >= 2 && Tokens(FirstLine(text))[0] in AllowedMethods
    requires env.urlPath(Tokens(FirstLine(text))[1]) == Some(path) && GetSafePath(root, path).Err?
    ensures StatusSeen(HandleSpec(root, fs, env, peer)) == Some(HttpForbidden as nat)
    ensures !HandleSpec(root, fs, env, peer).raised
  {
    HandlesRequestLine(root, fs, env, peer, text);
    var why := RejectedLinePlan(root, fs, env, text, path);
    FailureReported(PathRejected(why), peer);
    ReportReadsBack(PathRejected(why), peer.first);
  }

  lemma RejectedLinePlan(root: seq<string>, fs: FileSystem, env: Env, text: string, path: string)
    returns (why: Rejection)
    requires NormalSegments(root)
    requires |Tokens(FirstLine(text))| >= 2 && Tokens(FirstLine(text))[0] in AllowedMethods
    requires env.urlPath(Tokens(FirstLine(text))[1]) == Some(path) && GetSafePath(root, path).Err?
    ensures LinePlan(root, fs, env, text) == Fail(PathRejected(why))
  {
    why := GetSafePath(root, path).error;
  }

  /** A fault other than a socket fault is reported on the first send. */
  lemma FailureReported(f: Fault, peer: Peer)
    requires !f.Socket?
    ensures Conclude(Fail(f), peer) == Report(f, peer.first)
  {
  }

  /** A non-empty UTF-8 request is handled as its request line asks. */
  lemma HandlesRequestLine(root: seq<string>, fs: FileSystem, env: Env, peer: Peer, text: string)
    requires NormalSegments(root)
    requires peer.received.Received? && Decode(peer.received.data) == Some(text) && text != ""
    ensures HandleSpec(root, fs, env, peer) == Conclude(LinePlan(root, fs, env, text), peer)
  {
  }

  // ---------------------------------------------------------------------------
  // Properties: which fault re-raises

  /** Carrying out a plan re-raises exactly for an unexpected fault. */
  lemma ConcludeRaises(plan: Plan, peer: Peer)
    ensures Conclude(plan, peer).raised <==> plan == Fail(Unexpected)
  {
  }

  /** `process_request` raises only the faults of the sanitiser and of `open`. */
  lemma ProcessPlanFaults(root: seq<string>, fs: FileSystem, env: Env, verb: string, path: string)
    requires NormalSegments(root)
    ensures ProcessPlan(root, fs, env, verb, path).Fail? ==>
      ProcessPlan(root, fs, env, verb, path).fault.PathRejected?
      || ProcessPlan(root, fs, env, verb, path).fault.FileError?
  {
    match GetSafePath(root, path)
    case Err(_) =>
    case Ok(safe) =>
      var plan := Choose(fs, env, verb, safe);
      assert plan.Fail? ==> plan.fault.FileError?;
  }

  /** `handle` re-raises exactly when `urlparse` fails on the target of an
      otherwise acceptable request line. */
  lemma RaisesOnlyWhenUrlParsingFails(root: seq<string>, fs: FileSystem, env: Env, peer: Peer)
    requires NormalSegments(root)
    ensures HandleSpec(root, fs, env, peer).raised <==>
      && peer.received.Received?
      && Decode(peer.received.data).Some?
      && Decode(peer.received.data).value != ""
      && var requestLine := Tokens(FirstLine(Decode(peer.received.data).value));
         && |requestLine| >= 2
         && requestLine[0] in AllowedMethods
         && env.urlPath(requestLine[1]).None?
  {
    match peer.received
    case RecvFailed(sf) =>
    case Received(data) =>
      match Decode(data)
      case None =>
        ConcludeRaises(Fail(DecodeFailure), peer);
      case Some(text) =>
        if text != "" {
          var plan := LinePlan(root, fs, env, text);
          assert HandleSpec(root, fs, env, peer) == Conclude(plan, peer);
          ConcludeRaises(plan, peer);
          var requestLine := Tokens(FirstLine(text));
          if |requestLine| >= 2 && requestLine[0] in AllowedMethods && env.urlPath(requestLine[1]).Some? {
            ProcessPlanFaults(root, fs, env, requestLine[0], env.urlPath(requestLine[1]).value);
          }
        }
  }

  // ---------------------------------------------------------------------------
  // Properties: how `process_request` chooses

  /** How `process_request` chooses its answer for a sanitised path: 404 for a
      missing entry or a non-directory written with a trailing separator; 200 with
      the file for a regular file; the `open` fault for an unreadable entry; and for
      a directory, the same choice made on its `index.html`, 404 when that is
      missing. */
  lemma OutcomeSelection(fs: FileSystem, env: Env, verb: string, safe: ResolvedPath)
    requires NormalSegments(safe.segs)
    ensures var plan := Choose(fs, env, verb, safe);
      && (safe.segs !in fs ==> plan == ErrorReply(HttpNotFound))
      && (safe.segs in fs && !fs[safe.segs].Dir? && safe.dirLike ==> plan == ErrorReply(HttpNotFound))
      && (safe.segs in fs && safe.segs != [] && !safe.dirLike ==>
            match fs[safe.segs]
            case File(c) =>
              plan == Reply(ResponseParams(HttpOk, GuessContentType(Render(safe), c, env.guessType),
                                           c, [], verb == "HEAD"))
            case Unreadable(e) => plan == Fail(FileError(e))
            case Dir => true)
      && (IsDir(fs, safe) ==>
            var index := safe.segs + [IndexFile];
            if index !in fs then plan == ErrorReply(HttpNotFound)
            else match fs[index]
              case File(c) =>
                plan == Reply(ResponseParams(HttpOk, GuessContentType(PathString(index), c, env.guessType),
                                             c, [], verb == "HEAD"))
              case Dir => plan == Fail(FileError(EISDIR))
              case Unreadable(e) => plan == Fail(FileError(e)))
  {
    RenderEndsWithSlash(safe);
    if IsDir(fs, safe) {
      IndexSelection(fs, env, verb, safe);
    }
  }

  /** A directory is answered by its `index.html`, which is never written with a
      trailing separator. */
  lemma IndexSelection(fs: FileSystem, env: Env, verb: string, safe: ResolvedPath)
    requires NormalSegments(safe.segs) && IsDir(fs, safe)
    ensures var index := safe.segs + [IndexFile];
      && !EndsWith(Render(IndexPath(safe)), "/")
      && Render(IndexPath(safe)) == PathString(index)
      && Choose(fs, env, verb, safe)
         == if index !in fs then ErrorReply(HttpNotFound) else Serve(fs, env, verb, IndexPath(safe))
  {
    var index := IndexPath(safe);
    assert NormalSegments(index.segs) by {
      assert NormalSegment(IndexFile);
    }
    RenderEndsWithSlash(index);
  }

  /** The path `process_request` opens: the sanitised path itself, or the
      `index.html` of a directory or of a path written with a trailing separator. */
  function Target(fs: FileSystem, safe: ResolvedPath): ResolvedPath {
    if IsDir(fs, safe) || EndsWith(Render(safe), "/") then IndexPath(safe) else safe
  }

  /** `process_request` either answers 404 or serves its target. */
  lemma ChooseServesTarget(fs: FileSystem, env: Env, verb: string, safe: ResolvedPath)
    ensures var plan := Choose(fs, env, verb, safe);
      plan == ErrorReply(HttpNotFound) || plan == Serve(fs, env, verb, Target(fs, safe))
  {
  }

  /** The target of a path under the root lies under the root too. */
  lemma TargetUnderRoot(root: seq<string>, fs: FileSystem, safe: ResolvedPath)
    requires StartsWith(safe.segs, root) && NormalSegments(safe.segs)
    ensures StartsWith(Target(fs, safe).segs, root) && NormalSegments(Target(fs, safe).segs)
  {
    var target := Target(fs, safe);
    if target != safe {
      assert NormalSegment(IndexFile);
      assert target.segs[..|root|] == safe.segs[..|root|];
    }
  }

  /** What `Serve` answers: the 200 it builds carries the bytes of a regular file
      at the path, its guessed type, no extra header, and no body exactly for HEAD. */
  lemma ServeAnswers(fs: FileSystem, env: Env, verb: string, p: ResolvedPath)
    ensures var plan := Serve(fs, env, verb, p);
      plan.Fail? || (
        && plan.Reply?
        && p.segs in fs && fs[p.segs] == File(plan.response.content)
        && plan.response == ResponseParams(HttpOk, GuessContentType(Render(p), plan.response.content, env.guessType),
                                           plan.response.content, [], verb == "HEAD"))
  {
  }

  /** A regular file under the document root holds the content of the response. */
  ghost predicate ServedFromUnderRoot(root: seq<string>, fs: FileSystem, p: ResponseParams) {
    exists key :: key in fs && fs[key] == File(p.content) && StartsWith(key, root) && NormalSegments(key)
  }

  /** The only response `process_request` builds itself is a 200 carrying a regular
      file under the document root (the sanitised path or its `index.html`), with no
      body exactly for HEAD. */
  lemma ServedFilesLieUnderRoot(root: seq<string>, fs: FileSystem, env: Env, verb: string, path: string)
    requires NormalSegments(root)
    ensures var plan := ProcessPlan(root, fs, env, verb, path);
      plan.Reply? ==>
        && plan.response.code == HttpOk
        && ServedFromUnderRoot(root, fs, plan.response)
        && plan.response.extraHeaders == []
        && (plan.response.headerOnly <==> verb == "HEAD")
  {
    match GetSafePath(root, path)
    case Err(_) =>
    case Ok(safe) =>
      SafePathContained(root, path);
      ChooseServedUnderRoot(root, fs, env, verb, safe);
  }

  lemma ChooseServedUnderRoot(root: seq<string>, fs: FileSystem, env: Env, verb: string, safe: ResolvedPath)
    requires StartsWith(safe.segs, root) && NormalSegments(safe.segs)
    ensures var plan := Choose(fs, env, verb, safe);
      plan.Reply? ==>
        && plan.response.code == HttpOk
        && ServedFromUnderRoot(root, fs, plan.response)
        && plan.response.extraHeaders == []
        && (plan.response.headerOnly <==> verb == "HEAD")
  {
    var target := Target(fs, safe);
    ChooseServesTarget(fs, env, verb, safe);
    TargetUnderRoot(root, fs, safe);
    ServeAnswers(fs, env, verb, target);
    var plan := Serve(fs, env, verb, target);
    if plan.Reply? {
      assert target.segs in fs && fs[target.segs] == File(plan.response.content);
    }
  }

  /** HEAD and GET choose the same outcome for the same path; a 200 to HEAD is the
      200 to GET without its body, announcing the same Content-Length. */
  lemma HeadMatchesGet(root: seq<string>, fs: FileSystem, env: Env, path: string, date: string)
    requires NormalSegments(root)
    ensures var get := ProcessPlan(root, fs, env, "GET", path);
            var head := ProcessPlan(root, fs, env, "HEAD", path);
      && (get.Reply? <==> head.Reply?)
      && (!get.Reply? ==> head == get)
      && (get.Reply? ==>
            && !get.response.headerOnly
            && head == Reply(get.response.(headerOnly := true))
            && Serialize(get.response, date) == Serialize(head.response, date) + get.response.content)
  {
    if GetSafePath(root, path).Ok? {
      var safe := GetSafePath(root, path).value;
      ChooseHeadMatchesGet(fs, env, safe);
      var get := Choose(fs, env, "GET", safe);
      if get.Reply? {
        HeadIsGetWithoutBody(get.response, date);
      }
    }
  }

  lemma ChooseHeadMatchesGet(fs: FileSystem, env: Env, safe: ResolvedPath)
    ensures var get := Choose(fs, env, "GET", safe);
            var head := Choose(fs, env, "HEAD", safe);
      && (get.Reply? <==> head.Reply?)
      && (!get.Reply? ==> head == get)
      && (get.Reply? ==> !get.response.headerOnly && head == Reply(get.response.(headerOnly := true)))
  {
    var target := Target(fs, safe);
    ServeAnswers(fs, env, "GET", target);
    ServeAnswers(fs, env, "HEAD", target);
  }

  // ---------------------------------------------------------------------------
  // The headline property

  /** A MIME-type lookup that never answers a type holding a carriage return. */
  ghost predicate CleanTypes(env: Env) {
    forall path: string :: env.guessType(path).Some? ==> '\r' !in env.guessType(path).value
  }

  /** Every answer the handler plans is a well-formed response: a 200 carrying a file
      under the document root, or an error page with a 4xx or 5xx status of the
      phrase table. */
  ghost predicate SoundPlan(root: seq<string>, fs: FileSystem, plan: Plan, date: string) {
    && (plan.Reply? ==>
          && Framable(plan.response, date)
          && plan.response.code == HttpOk
          && ServedFromUnderRoot(root, fs, plan.response))
    && (plan.ErrorReply? ==> plan.code in ReasonPhrases && 400 <= plan.code < 600)
  }

  lemma LinePlanSound(root: seq<string>, fs: FileSystem, env: Env, text: string, date: string)
    requires NormalSegments(root) && CleanTypes(env) && '\r' !in date
    ensures SoundPlan(root, fs, LinePlan(root, fs, env, text), date)
  {
    var plan := LinePlan(root, fs, env, text);
    if plan.Reply? {
      var requestLine := Tokens(FirstLine(text));
      var verb, path := requestLine[0], env.urlPath(requestLine[1]).value;
      assert plan == ProcessPlan(root, fs, env, verb, path);
      ServedFilesLieUnderRoot(root, fs, env, verb, path);
      var safe := GetSafePath(root, path).value;
      var target := Target(fs, safe);
      ChooseServesTarget(fs, env, verb, safe);
      ServeAnswers(fs, env, verb, target);
      ContentTypeHasNoCr(Render(target), plan.response.content, env.guessType);
    }
  }

  /** What a client can rely on in a response: it parses, its status is one of the
      phrase table, and a 200 announces the full length of a regular file under the
      document root, with that file as its body or no body. */
  ghost predicate ReadsBackWell(root: seq<string>, fs: FileSystem, b: seq<byte>) {
    var r := ParseResponse(b);
    && r.Some?
    && r.value.code in ReasonPhrases
    && (r.value.code == HttpOk ==>
          exists key :: key in fs && StartsWith(key, root) && fs[key].File?
                        && r.value.contentLength == |fs[key].content|
                        && (r.value.body == fs[key].content || r.value.body == []))
  }

  /** The headline property, whatever the peer sends and however the sends fail:
      every response the peer receives reads back well. */
  lemma EveryResponseReadsBack(root: seq<string>, fs: FileSystem, env: Env, peer: Peer)
    requires NormalSegments(root) && CleanTypes(env)
    requires '\r' !in peer.first.date && '\r' !in peer.second.date
    ensures var o := HandleSpec(root, fs, env, peer);
      o.delivered.Some? ==> ReadsBackWell(root, fs, o.delivered.value)
  {
    match peer.received
    case RecvFailed(sf) =>
      ReportReadsBackWell(root, fs, Socket(sf), peer.first);
    case Received(data) =>
      match Decode(data)
      case None =>
        ConcludeReadsBack(root, fs, Fail(DecodeFailure), peer);
      case Some(text) =>
        if text != "" {
          var plan := LinePlan(root, fs, env, text);
          LinePlanSound(root, fs, env, text, peer.first.date);
          ConcludeReadsBack(root, fs, plan, peer);
          assert HandleSpec(root, fs, env, peer) == Conclude(plan, peer);
        }
  }

  lemma ConcludeReadsBack(root: seq<string>, fs: FileSystem, plan: Plan, peer: Peer)
    requires '\r' !in peer.first.date && '\r' !in peer.second.date
    requires SoundPlan(root, fs, plan, peer.first.date)
    ensures var o := Conclude(plan, peer);
      o.delivered.Some? ==> ReadsBackWell(root, fs, o.delivered.value)
  {
    match Attempt(plan, peer.first)
    case Ok(bytes) =>
      if plan.Reply? {
        assert bytes == Serialize(plan.response, peer.first.date);
        ServedReadsBack(root, fs, plan.response, peer.first.date);
      } else {
        assert bytes == Serialize(ErrorResponse(plan.code), peer.first.date);
        ErrorPageReadsBackWell(root, fs, plan.code, peer.first.date);
      }
    case Err(f) =>
      ReportReadsBackWell(root, fs, f, ReportSlot(f, peer));
  }

  lemma ReportReadsBackWell(root: seq<string>, fs: FileSystem, f: Fault, slot: SendSlot)
    requires '\r' !in slot.date
    ensures Report(f, slot).delivered.Some? ==> ReadsBackWell(root, fs, Report(f, slot).delivered.value)
  {
    if slot.failure.None? {
      ErrorPageReadsBackWell(root, fs, StatusFor(f), slot.date);
    }
  }

  lemma ErrorPageReadsBackWell(root: seq<string>, fs: FileSystem, code: int, date: string)
    requires code in ReasonPhrases && 400 <= code < 600 && '\r' !in date
    ensures ReadsBackWell(root, fs, Serialize(ErrorResponse(code), date))
  {
    ErrorPageReadsBack(code, date);
  }

  lemma ServedReadsBack(root: seq<string>, fs: FileSystem, p: ResponseParams, date: string)
    requires Framable(p, date) && p.code == HttpOk && ServedFromUnderRoot(root, fs, p)
    ensures ReadsBackWell(root, fs, Serialize(p, date))
  {
    SerializeReadsBack(p, date);
    var key :| key in fs && fs[key] == File(p.content) && StartsWith(key, root) && NormalSegments(key);
    assert fs[key].File? && |fs[key].content| == |p.content|;
  }
}
