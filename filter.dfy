/** The per-connection decision pipeline of `filter::handler`: sniff the
    request line, complete the header, extract Content-Length and Content-Type,
    read the body, then decide. */
module Filter {
  import opened Bytes
  import opened Stream
  import opened Header
  import opened Decision

  /** `HEADER_FILTER_LEN` */
  const HeaderFilterLen: nat := 17

  /** The only request line prefix that is inspected. */
  const PostInbox: seq<byte> := Ascii("POST /inbox HTTP/")

  /** Why one of the three read loops stopped: its own goal was met (more than
      17 bytes, terminator found, body long enough), a read returned 0, a read
      failed, or the stage's deadline expired while the peer stayed silent. */
  datatype Stop = Enough | AtEof | IoFailed | Expired

  /** End state of a loop that fills one buffer. */
  datatype Fill = Fill(stop: Stop, pos: nat, buf: seq<byte>)

  /** End state of the header loop. */
  datatype Split = Split(stop: Stop, pos: nat, header: seq<byte>, body: seq<byte>)

  /** The sniff loop from cursor `pos` with `buf` read so far. */
  function SniffFrom(script: seq<Event>, pos: nat, buf: seq<byte>): (r: Fill)
    requires pos <= |script|
    ensures pos <= r.pos <= |script|
    decreases |script| - pos
  {
    match ReadAt(script, pos)
    case Silent => Fill(Expired, pos, buf)
    case Error => Fill(IoFailed, pos + 1, buf)
    case Eof => Fill(AtEof, pos, buf)
    case Received(b) =>
      if |buf + b| > HeaderFilterLen then Fill(Enough, pos + 1, buf + b)
      else SniffFrom(script, pos + 1, buf + b)
  }

  /** The header loop: look for the terminator in what is there, else read more. */
  function HeaderFrom(script: seq<Event>, pos: nat, header: seq<byte>): (r: Split)
    requires pos <= |script|
    ensures pos <= r.pos <= |script|
    decreases |script| - pos
  {
    match FirstTerminator(header)
    case Some(i) => Split(Enough, pos, header[..i + 4], header[i + 4..])
    case None =>
      match ReadAt(script, pos)
      case Silent => Split(Expired, pos, header, [])
      case Error => Split(IoFailed, pos + 1, header, [])
      case Eof => Split(AtEof, pos, header, [])
      case Received(b) => HeaderFrom(script, pos + 1, header + b)
  }

  /** The body loop: read while the body is shorter than `contentLength`. */
  function BodyFrom(script: seq<Event>, pos: nat, body: seq<byte>, contentLength: nat): (r: Fill)
    requires pos <= |script|
    ensures pos <= r.pos <= |script|
    decreases |script| - pos
  {
    if |body| >= contentLength then Fill(Enough, pos, body)
    else match ReadAt(script, pos)
      case Silent => Fill(Expired, pos, body)
      case Error => Fill(IoFailed, pos + 1, body)
      case Eof => Fill(AtEof, pos, body)
      case Received(b) => BodyFrom(script, pos + 1, body + b, contentLength)
  }

  /** What `timeout(..).await??` makes of a stopped loop, if it rejects. */
  function StageFailure(stop: Stop): (r: Option<RejectReason>)
    ensures r.None? <==> stop == Enough || stop == AtEof
    ensures r == Some(Timeout) <==> stop == Expired
    ensures r == Some(IO) <==> stop == IoFailed
  {
    match stop
    case Expired => Some(Timeout)
    case IoFailed => Some(IO)
    case _ => None
  }

  /** How handling a connection ends: the outcome, how far into the script the
      handler read (the relay resumes there on admission), and the reputation
      queries it issued. */
  datatype Run = Run(outcome: Outcome, consumed: nat, queries: seq<ReputationQuery>)

  /** `handler`, as a function of what the socket delivers and of the foreign
      calls. */
  function Handle(script: seq<Event>, env: Env): (r: Run)
    ensures r.consumed <= |script|
    ensures |r.queries| <= 2
    ensures r.outcome.Panic? ==> r.queries == []
    ensures r.outcome.Reject? && r.outcome.reason.Spam? ==> r.queries != []
    ensures r.queries != [] ==> r.outcome.Admit? || r.outcome.reason.Spam? || r.outcome.reason.Query?
  {
    var sniffed := SniffFrom(script, 0, []);
    if StageFailure(sniffed.stop).Some? then Run(Reject(StageFailure(sniffed.stop).value), sniffed.pos, [])
    else if |sniffed.buf| < HeaderFilterLen then Run(Reject(ConnectionTerminated), sniffed.pos, [])
    else if sniffed.buf[..HeaderFilterLen] != PostInbox then Run(Admit(sniffed.buf, []), sniffed.pos, [])
    else Inspect(script, env, HeaderFrom(script, sniffed.pos, sniffed.buf))
  }

  /** The inspected path once the header loop has stopped: field extraction
      and the media-type gate, then the body. */
  function Inspect(script: seq<Event>, env: Env, split: Split): (r: Run)
    requires split.pos <= |script|
    ensures split.pos <= r.consumed <= |script|
    ensures |r.queries| <= 2
    ensures r.outcome.Panic? ==> Extract(split.header).SlicePanic? && r.queries == [] && r.consumed == split.pos
    ensures r.outcome.Admit? ==> r.outcome.pendingHeader == split.header
    ensures r.outcome != Reject(ConnectionTerminated)
    ensures r.outcome.Reject? && r.outcome.reason.Spam? ==> r.queries != []
    ensures r.queries != [] ==> r.outcome.Admit? || r.outcome.reason.Spam? || r.outcome.reason.Query?
  {
    if StageFailure(split.stop).Some? then Run(Reject(StageFailure(split.stop).value), split.pos, [])
    else match Extract(split.header)
      case SlicePanic => Run(Panic, split.pos, [])
      case Extracted(fields) =>
        if fields.contentLength.None? then
          Run(Reject(MalformedHeader("content-length not found")), split.pos, [])
        else if fields.contentType.None? then
          Run(Reject(MalformedHeader("content-type not found")), split.pos, [])
        else if !ContentTypeOk(fields.contentType.value) then
          Run(Reject(BadRequest("content-type not application/activity+json")), split.pos, [])
        else
          var n := fields.contentLength.value;
          Conclude(env, split.header, n, BodyFrom(script, split.pos, split.body, n))
  }

  /** The end of the inspected path once the body loop has stopped: the exact
      length check, then the spam decision. */
  function Conclude(env: Env, header: seq<byte>, contentLength: nat, body: Fill): (r: Run)
    ensures r.consumed == body.pos
    ensures |r.queries| <= 2
    ensures r.outcome != Panic && r.outcome != Reject(ConnectionTerminated)
    ensures r.outcome.Admit? || r.queries != [] ==>
      StageFailure(body.stop).None? && |body.buf| == contentLength
    ensures r.outcome.Admit? ==> r.outcome == Admit(header, body.buf)
    ensures r.outcome.Reject? && r.outcome.reason.Spam? ==> r.queries != []
    ensures r.queries != [] ==> r.outcome.Admit? || r.outcome.reason.Spam? || r.outcome.reason.Query?
  {
    if StageFailure(body.stop).Some? then Run(Reject(StageFailure(body.stop).value), body.pos, [])
    else if |body.buf| != contentLength then Run(Reject(BadRequest("content-length mismatch")), body.pos, [])
    else
      var verdict := Decide(header, body.buf, env);
      Run(verdict.outcome, body.pos, verdict.queries)
  }

  /** The state `handler` keeps for one connection: the socket's read cursor
      and the `header` and `body` buffers. */
  class Session {
    const script: seq<Event>
    var pos: nat
    var header: seq<byte>
    var body: seq<byte>

    ghost predicate Valid()
      reads this
    {
      pos <= |script|
    }

    constructor (script: seq<Event>)
      ensures Valid()
      ensures this.script == script && pos == 0 && header == [] && body == []
    {
      this.script := script;
      pos := 0;
      header := [];
      body := [];
    }

    /** One `try_read_buf`; a would-block is not an outcome of its own. */
    method TryRead() returns (r: ReadResult)
      requires Valid()
      modifies this`pos
      ensures Valid()
      ensures r == ReadAt(script, old(pos)) && pos == After(script, old(pos))
    {
      r := ReadAt(script, pos);
      pos := After(script, pos);
    }

    /** The sniff loop: read until more than 17 bytes, end-of-stream, an error
        or the deadline. */
    method Sniff() returns (stop: Stop)
      requires Valid()
      modifies this`pos, this`header
      ensures Valid()
      ensures Fill(stop, pos, header) == SniffFrom(script, old(pos), old(header))
    {
      while true
        invariant Valid()
        invariant SniffFrom(script, pos, header) == SniffFrom(script, old(pos), old(header))
        decreases |script| - pos
      {
        var r := TryRead();
        match r
        case Received(b) =>
          header := header + b;
          if |header| > HeaderFilterLen {
            return Enough;
          }
        case Eof => return AtEof;
        case Error => return IoFailed;
        case Silent => return Expired;
      }
    }

    /** The header loop: rescan the whole buffer for `\r\n\r\n`; on a hit move
        what follows into `body` and cut `header` after the terminator; else
        read more. End-of-stream just leaves the loop. */
    method CompleteHeader() returns (stop: Stop)
      requires Valid() && body == []
      modifies this`pos, this`header, this`body
      ensures Valid()
      ensures Split(stop, pos, header, body) == HeaderFrom(script, old(pos), old(header))
    {
      while true
        invariant Valid() && body == []
        invariant HeaderFrom(script, pos, header) == HeaderFrom(script, old(pos), old(header))
        decreases |script| - pos
      {
        var found := ScanTerminator(header);
        if found.Some? {
          var i := found.value;
          assert TerminatorAt(header, i);
          body := body + header[i + 4..];
          header := header[..i + 4];
          return Enough;
        }
        var r := TryRead();
        match r
        case Received(b) => header := header + b;
        case Eof => return AtEof;
        case Error => return IoFailed;
        case Silent => return Expired;
      }
    }

    /** The body loop: read while the body is shorter than the Content-Length. */
    method ReadBody(contentLength: nat) returns (stop: Stop)
      requires Valid()
      modifies this`pos, this`body
      ensures Valid()
      ensures Fill(stop, pos, body) == BodyFrom(script, old(pos), old(body), contentLength)
    {
      while |body| < contentLength
        invariant Valid()
        invariant BodyFrom(script, pos, body, contentLength) == BodyFrom(script, old(pos), old(body), contentLength)
        decreases |script| - pos
      {
        var r := TryRead();
        match r
        case Received(b) => body := body + b;
        case Eof => return AtEof;
        case Error => return IoFailed;
        case Silent => return Expired;
      }
      return Enough;
    }
  }

  /** `handler`: the three read stages on one session, the field extraction,
      the media-type gate, the length check and the spam decision. */
  method Handler(script: seq<Event>, env: Env) returns (run: Run)
    ensures run == Handle(script, env)
  {
    var session := new Session(script);
    var stop := session.Sniff();
    if stop == Expired {
      return Run(Reject(Timeout), session.pos, []);
    } else if stop == IoFailed {
      return Run(Reject(IO), session.pos, []);
    }
    if |session.header| < HeaderFilterLen {
      return Run(Reject(ConnectionTerminated), session.pos, []);
    }
    if session.header[..HeaderFilterLen] != PostInbox {
      return Run(Admit(session.header, session.body), session.pos, []);
    }

    stop := session.CompleteHeader();
    if stop == Expired {
      return Run(Reject(Timeout), session.pos, []);
    } else if stop == IoFailed {
      return Run(Reject(IO), session.pos, []);
    }

    var extraction := ExtractFields(session.header);
    if extraction.SlicePanic? {
      return Run(Panic, session.pos, []);
    }
    var contentLength := extraction.fields.contentLength;
    var contentType := extraction.fields.contentType;
    if contentLength.None? {
      return Run(Reject(MalformedHeader("content-length not found")), session.pos, []);
    }
    if contentType.None? {
      return Run(Reject(MalformedHeader("content-type not found")), session.pos, []);
    }
    if !ContentTypeOk(contentType.value) {
      return Run(Reject(BadRequest("content-type not application/activity+json")), session.pos, []);
    }

    stop := session.ReadBody(contentLength.value);
    if stop == Expired {
      return Run(Reject(Timeout), session.pos, []);
    } else if stop == IoFailed {
      return Run(Reject(IO), session.pos, []);
    }
    if |session.body| != contentLength.value {
      return Run(Reject(BadRequest("content-length mismatch")), session.pos, []);
    }

    var verdict := Decide(session.header, session.body, env);
    return Run(verdict.outcome, session.pos, verdict.queries);
  }
}
