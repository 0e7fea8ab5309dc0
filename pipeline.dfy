/** Properties of the pipeline: what each read stage consumes, and what the
    handler as a whole guarantees about a connection. */
module Pipeline {
  import opened Bytes
  import opened Stream
  import opened Header
  import opened Decision
  import opened Filter

  /** A read that delivered bytes. */
  predicate Chunk(e: Event)
  {
    e.Data? && e.bytes != []
  }

  /** The bytes of the first `b` reads are those of the first `a` reads
      followed by those of the reads in between. */
  lemma FlattenFromStart(script: seq<Event>, a: nat, b: nat)
    requires a <= b <= |script|
    ensures Flatten(script[..b]) == Flatten(script[..a]) + Flatten(script[a..b])
  {
    FlattenConcat(script, 0, a, b);
    assert script[0..a] == script[..a];
    assert script[0..b] == script[..b];
  }

  // ---------------------------------------------------------------------------
  // The three read stages

  lemma {:induction false} SniffFacts(script: seq<Event>, pos: nat, buf: seq<byte>)
    requires pos <= |script|
    ensures var r := SniffFrom(script, pos, buf);
      r.buf == buf + Flatten(script[pos..r.pos]) &&
      (r.stop == Enough ==> |r.buf| > HeaderFilterLen) &&
      (r.stop == AtEof ==> r.pos < |script| && script[r.pos] == Data([])) &&
      (r.stop == AtEof && |buf| <= HeaderFilterLen ==> |r.buf| <= HeaderFilterLen) &&
      (r.stop == Enough || r.stop == AtEof ==> forall j | pos <= j < r.pos :: Chunk(script[j]))
    decreases |script| - pos
  {
    var r := SniffFrom(script, pos, buf);
    match ReadAt(script, pos)
    case Silent =>
    case Error =>
      FlattenStep(script, pos, pos + 1);
    case Eof =>
    case Received(b) =>
      FlattenStep(script, pos, r.pos);
      if |buf + b| <= HeaderFilterLen {
        SniffFacts(script, pos + 1, buf + b);
      }
  }

  /** The sniffed buffer is exactly what the reads it consumed delivered. */
  lemma SniffBytes(script: seq<Event>)
    ensures var r := SniffFrom(script, 0, []);
      r.buf == Flatten(script[..r.pos]) &&
      (r.stop == Enough ==> |r.buf| > HeaderFilterLen)
  {
    var r := SniffFrom(script, 0, []);
    SniffFacts(script, 0, []);
    assert script[0..r.pos] == script[..r.pos];
  }

  /** `r` is `all` split at its first terminator, stopped on that terminator
      exactly when there is one. */
  predicate SplitOf(r: Split, all: seq<byte>)
  {
    r.header == HeaderPart(all) && r.body == BodyPart(all) &&
    (r.stop == Enough <==> FirstTerminator(all).Some?)
  }

  /** The header stage splits the bytes it started with plus what it read
      into header and body part, and stops short only without a terminator. */
  lemma {:induction false} HeaderFacts(script: seq<Event>, pos: nat, header: seq<byte>)
    requires pos <= |script|
    ensures var r := HeaderFrom(script, pos, header);
      SplitOf(r, header + Flatten(script[pos..r.pos]))
    decreases |script| - pos
  {
    if FirstTerminator(header).None? && ReadAt(script, pos).Received? {
      HeaderFacts(script, pos + 1, header + script[pos].bytes);
      HeaderFactsRead(script, pos, header);
    } else {
      HeaderFactsStop(script, pos, header);
    }
  }

  /** A header stage that stops without reading splits what it holds. */
  lemma HeaderFactsStop(script: seq<Event>, pos: nat, header: seq<byte>)
    requires pos <= |script|
    requires !(FirstTerminator(header).None? && ReadAt(script, pos).Received?)
    ensures var r := HeaderFrom(script, pos, header);
      SplitOf(r, header + Flatten(script[pos..r.pos]))
  {
    var r := HeaderFrom(script, pos, header);
    if FirstTerminator(header).None? && ReadAt(script, pos).Error? {
      assert r.pos == pos + 1;
      assert header + Flatten(script[pos..r.pos]) == header by {
        FlattenStep(script, pos, pos + 1);
        assert script[pos + 1..pos + 1] == [];
      }
    } else {
      assert r.pos == pos;
      assert header + Flatten(script[pos..r.pos]) == header by {
        assert script[pos..pos] == [];
      }
    }
  }

  /** A chunk read by the header stage joins what it splits. */
  lemma HeaderFactsRead(script: seq<Event>, pos: nat, header: seq<byte>)
    requires pos < |script| && FirstTerminator(header).None? && ReadAt(script, pos).Received?
    requires var b := script[pos].bytes;
      var r := HeaderFrom(script, pos + 1, header + b);
      SplitOf(r, (header + b) + Flatten(script[pos + 1..r.pos]))
    ensures var r := HeaderFrom(script, pos, header);
      SplitOf(r, header + Flatten(script[pos..r.pos]))
  {
    HeaderStep(script, pos, header);
    ReadJoins(script, pos, header, HeaderFrom(script, pos + 1, header + script[pos].bytes).pos);
  }

  /** The bytes of reads `pos` up to `q`, after `buf`, are those of read `pos`
      and then the rest. */
  lemma ReadJoins(script: seq<Event>, pos: nat, buf: seq<byte>, q: nat)
    requires pos < q <= |script| && Chunk(script[pos])
    ensures buf + Flatten(script[pos..q]) == (buf + script[pos].bytes) + Flatten(script[pos + 1..q])
  {
    FlattenStep(script, pos, q);
  }

  /** The header stage stops on end-of-stream only at a read that returned 0,
      and reads only chunks unless it failed. */
  lemma {:induction false} HeaderStopFacts(script: seq<Event>, pos: nat, header: seq<byte>)
    requires pos <= |script|
    ensures var r := HeaderFrom(script, pos, header);
      (r.stop == AtEof ==> r.pos < |script| && script[r.pos] == Data([])) &&
      (r.stop == Enough || r.stop == AtEof ==> forall j | pos <= j < r.pos :: Chunk(script[j]))
    decreases |script| - pos
  {
    if FirstTerminator(header).None? && ReadAt(script, pos).Received? {
      HeaderStopFacts(script, pos + 1, header + script[pos].bytes);
    }
  }

  /** The header stage hands on the header cut after its first terminator, and
      what followed it as the start of the body; the cut header ends with
      `\r\n\r\n` and holds no earlier one. */
  lemma HeaderSplitSound(script: seq<Event>, pos: nat, header: seq<byte>)
    requires pos <= |script|
    requires HeaderFrom(script, pos, header).stop == Enough
    ensures var r := HeaderFrom(script, pos, header);
      r.header + r.body == header + Flatten(script[pos..r.pos]) &&
      |r.header| >= 4 && r.header[|r.header| - 4..] == Terminator &&
      FirstTerminator(r.header) == Some(|r.header| - 4)
  {
    var r := HeaderFrom(script, pos, header);
    HeaderFacts(script, pos, header);
    var all := header + Flatten(script[pos..r.pos]);
    HeaderBodyRejoin(all);
    var i := FirstTerminator(all).value;
    CutAtFirstTerminator(all, i);
  }

  /** Started on everything read so far, the header stage splits everything
      read when it stops. */
  lemma HeaderBytes(script: seq<Event>, pos: nat, buf: seq<byte>)
    requires pos <= |script| && buf == Flatten(script[..pos])
    ensures var r := HeaderFrom(script, pos, buf);
      r.header == HeaderPart(Flatten(script[..r.pos])) &&
      r.body == BodyPart(Flatten(script[..r.pos])) &&
      r.header + r.body == Flatten(script[..r.pos])
  {
    var r := HeaderFrom(script, pos, buf);
    HeaderFacts(script, pos, buf);
    FlattenFromStart(script, pos, r.pos);
    HeaderBodyRejoin(Flatten(script[..r.pos]));
  }

  lemma {:induction false} BodyFacts(script: seq<Event>, pos: nat, body: seq<byte>, n: nat)
    requires pos <= |script|
    ensures var r := BodyFrom(script, pos, body, n);
      r.buf == body + Flatten(script[pos..r.pos]) &&
      (r.stop == Enough ==> |r.buf| >= n) &&
      (r.stop == AtEof ==> |r.buf| < n && r.pos < |script| && script[r.pos] == Data([])) &&
      (r.pos > pos ==> |body| < n)
    decreases |script| - pos
  {
    var r := BodyFrom(script, pos, body, n);
    if |body| < n {
      match ReadAt(script, pos)
      case Silent =>
      case Error =>
        FlattenStep(script, pos, pos + 1);
      case Eof =>
      case Received(b) =>
        FlattenStep(script, pos, r.pos);
        BodyFacts(script, pos + 1, body + b, n);
    }
  }

  // ---------------------------------------------------------------------------
  // The request line

  /** The request line survives the cut at the terminator: `\r\n\r\n` cannot
      start inside `POST /inbox HTTP/`. */
  lemma RequestLineSurvivesCut(all: seq<byte>)
    requires StartsWith(all, PostInbox)
    ensures FirstTerminator(all).Some? ==> FirstTerminator(all).value >= HeaderFilterLen
    ensures StartsWith(HeaderPart(all), PostInbox)
  {
    if FirstTerminator(all).Some? {
      var i := FirstTerminator(all).value;
      assert forall j | 0 <= j < |PostInbox| :: PostInbox[j] != CR;
      assert all[i] == CR by {
        assert TerminatorAt(all, i);
        assert all[i..i + 4][0] == all[i];
      }
      assert i >= HeaderFilterLen;
      assert all[..i + 4][..HeaderFilterLen] == all[..HeaderFilterLen];
    }
  }

  /** The header the inspected path works on still begins with the request
      line that selected it. */
  lemma InspectedHeaderKeepsRequestLine(script: seq<Event>, pos: nat, buf: seq<byte>)
    requires pos <= |script| && StartsWith(buf, PostInbox)
    ensures StartsWith(HeaderFrom(script, pos, buf).header, PostInbox)
  {
    var r := HeaderFrom(script, pos, buf);
    var all := buf + Flatten(script[pos..r.pos]);
    HeaderFacts(script, pos, buf);
    assert all[..|PostInbox|] == buf[..|PostInbox|];
    RequestLineSurvivesCut(all);
  }

  // ---------------------------------------------------------------------------
  // The handler

  /** On the inspected path an admission hands on the cut header unchanged and
      the body as the header stage's surplus plus what the body loop read. */
  lemma InspectedAdmissionBytes(script: seq<Event>, env: Env, split: Split)
    requires split.pos <= |script|
    requires Inspect(script, env, split).outcome.Admit?
    ensures var run := Inspect(script, env, split);
      split.pos <= run.consumed <= |script| &&
      run.outcome.pendingHeader == split.header &&
      run.outcome.pendingBody == split.body + Flatten(script[split.pos..run.consumed])
  {
    var fields := Extract(split.header).fields;
    var n := fields.contentLength.value;
    var body := BodyFrom(script, split.pos, split.body, n);
    assert Inspect(script, env, split) == Conclude(env, split.header, n, body);
    BodyFacts(script, split.pos, split.body, n);
  }

  lemma InspectedAdmissionReplays(script: seq<Event>, env: Env, split: Split)
    requires split.pos <= |script| && split.header + split.body == Flatten(script[..split.pos])
    requires Inspect(script, env, split).outcome.Admit?
    ensures var run := Inspect(script, env, split);
      run.consumed <= |script| &&
      run.outcome.pendingHeader + run.outcome.pendingBody == Flatten(script[..run.consumed])
  {
    var run := Inspect(script, env, split);
    InspectedAdmissionBytes(script, env, split);
    ReplayJoin(script, split.pos, run.consumed, split.header, split.body,
               run.outcome.pendingHeader, run.outcome.pendingBody);
  }

  /** A header and body read up to `p`, with the body extended by the reads
      up to `q`, are what the first `q` reads delivered. */
  lemma ReplayJoin(script: seq<Event>, p: nat, q: nat, header: seq<byte>, body: seq<byte>,
                   h: seq<byte>, b: seq<byte>)
    requires p <= q <= |script| && header + body == Flatten(script[..p])
    requires h == header && b == body + Flatten(script[p..q])
    ensures h + b == Flatten(script[..q])
  {
    FlattenFromStart(script, p, q);
  }

  /** An admission hands on exactly the bytes of the reads the handler made. */
  lemma AdmittedBytesRead(script: seq<Event>, env: Env)
    requires Handle(script, env).outcome.Admit?
    ensures var run := Handle(script, env);
      run.consumed <= |script| &&
      run.outcome.pendingHeader + run.outcome.pendingBody == Flatten(script[..run.consumed])
  {
    var run := Handle(script, env);
    var sniffed := SniffFrom(script, 0, []);
    SniffBytes(script);
    if sniffed.buf[..HeaderFilterLen] != PostInbox {
      assert run == Run(Admit(sniffed.buf, []), sniffed.pos, []);
    } else {
      var split := HeaderFrom(script, sniffed.pos, sniffed.buf);
      assert run == Inspect(script, env, split);
      HeaderBytes(script, sniffed.pos, sniffed.buf);
      InspectedAdmissionReplays(script, env, split);
    }
  }

  /** Whatever the handler admits is exactly the bytes it has read, in order,
      so replaying them before relaying the rest of the socket delivers the
      client's stream unchanged: no byte lost, repeated or reordered. */
  lemma AdmissionReplaysEveryByte(script: seq<Event>, env: Env)
    ensures var run := Handle(script, env);
      run.outcome.Admit? ==> (
        run.consumed <= |script| &&
        run.outcome.pendingHeader + run.outcome.pendingBody == Flatten(script[..run.consumed]) &&
        run.outcome.pendingHeader + run.outcome.pendingBody + Flatten(script[run.consumed..]) == Flatten(script))
  {
    var run := Handle(script, env);
    if run.outcome.Admit? {
      AdmittedBytesRead(script, env);
      FlattenSplit(script, run.consumed);
    }
  }

  /** The client closed the stream (a read returned 0) after fewer than 17
      bytes, in reads that each delivered something. */
  ghost predicate ShortStream(script: seq<Event>, k: nat)
  {
    k < |script| && script[k] == Data([]) &&
    (forall j | 0 <= j < k :: Chunk(script[j])) &&
    |Flatten(script[..k])| < HeaderFilterLen
  }

  lemma {:induction false} SniffReachesEof(script: seq<Event>, pos: nat, buf: seq<byte>, k: nat)
    requires pos <= k < |script| && script[k] == Data([])
    requires forall j | pos <= j < k :: Chunk(script[j])
    requires |buf + Flatten(script[pos..k])| <= HeaderFilterLen
    ensures SniffFrom(script, pos, buf) == Fill(AtEof, k, buf + Flatten(script[pos..k]))
    decreases k - pos
  {
    if pos < k {
      var b := script[pos].bytes;
      FlattenStep(script, pos, k);
      assert buf + Flatten(script[pos..k]) == (buf + b) + Flatten(script[pos + 1..k]);
      SniffReachesEof(script, pos + 1, buf + b, k);
    }
  }

  /** Connection terminated: exactly when the stream ends before 17 bytes
      arrive; the handler then reads nothing more and queries nothing. */
  lemma ShortStreamTerminated(script: seq<Event>, env: Env)
    ensures Handle(script, env).outcome == Reject(ConnectionTerminated) <==> exists k: nat :: ShortStream(script, k)
    ensures forall k: nat | ShortStream(script, k) :: Handle(script, env) == Run(Reject(ConnectionTerminated), k, [])
  {
    if Handle(script, env).outcome == Reject(ConnectionTerminated) {
      TerminatedOnlyShort(script, env);
    }
    forall k: nat | ShortStream(script, k)
      ensures Handle(script, env) == Run(Reject(ConnectionTerminated), k, [])
    {
      ShortStreamTerminatedAt(script, env, k);
    }
  }

  /** `ConnectionTerminated` comes only from a sniff that ended short. */
  lemma TerminatedOnlyShort(script: seq<Event>, env: Env)
    requires Handle(script, env).outcome == Reject(ConnectionTerminated)
    ensures ShortStream(script, SniffFrom(script, 0, []).pos)
  {
    var sniffed := SniffFrom(script, 0, []);
    SniffFacts(script, 0, []);
    assert script[0..sniffed.pos] == script[..sniffed.pos];
  }

  /** A stream that ends short is terminated where it ends. */
  lemma ShortStreamTerminatedAt(script: seq<Event>, env: Env, k: nat)
    requires ShortStream(script, k)
    ensures Handle(script, env) == Run(Reject(ConnectionTerminated), k, [])
  {
    assert script[0..k] == script[..k];
    SniffReachesEof(script, 0, [], k);
  }

  lemma {:induction false} SniffFillsWithin(script: seq<Event>, pos: nat, buf: seq<byte>, k: nat)
    requires pos <= k <= |script|
    requires forall j | pos <= j < k :: Chunk(script[j])
    requires |buf| <= HeaderFilterLen < |buf + Flatten(script[pos..k])|
    ensures SniffFrom(script, pos, buf).stop == Enough && SniffFrom(script, pos, buf).pos <= k
    decreases k - pos
  {
    if pos < k {
      var b := script[pos].bytes;
      FlattenStep(script, pos, k);
      assert buf + Flatten(script[pos..k]) == (buf + b) + Flatten(script[pos + 1..k]);
      if |buf + b| <= HeaderFilterLen {
        SniffFillsWithin(script, pos + 1, buf + b, k);
      }
    }
  }

  /** A stream that does not begin with `POST /inbox HTTP/` is admitted as it
      was sniffed: the sniffed bytes verbatim and no body, after reading no
      further than needed for more than 17 bytes (or up to end-of-stream after
      exactly 17), with no reputation query. */
  lemma NonTargetAdmittedVerbatim(script: seq<Event>, env: Env, k: nat)
    requires k <= |script|
    requires forall j | 0 <= j < k :: Chunk(script[j])
    requires |Flatten(script[..k])| >= HeaderFilterLen
    requires |Flatten(script[..k])| > HeaderFilterLen || (k < |script| && script[k] == Data([]))
    requires Flatten(script[..k])[..HeaderFilterLen] != PostInbox
    ensures var run := Handle(script, env);
      run.consumed <= k && run.queries == [] &&
      run.outcome == Admit(Flatten(script[..run.consumed]), []) &&
      |run.outcome.pendingHeader| >= HeaderFilterLen &&
      (|Flatten(script[..k])| > HeaderFilterLen ==> |run.outcome.pendingHeader| > HeaderFilterLen) &&
      run.outcome.pendingHeader[..HeaderFilterLen] == Flatten(script[..k])[..HeaderFilterLen]
  {
    if |Flatten(script[..k])| > HeaderFilterLen {
      SniffedWithin(script, k);
    } else {
      assert script[0..k] == script[..k];
      SniffReachesEof(script, 0, [], k);
    }
  }

  /** More than 17 bytes in the first `k` reads: the sniff stops on its goal
      within them, holding what it read, which begins as those bytes do. */
  lemma SniffedWithin(script: seq<Event>, k: nat)
    requires k <= |script|
    requires forall j | 0 <= j < k :: Chunk(script[j])
    requires |Flatten(script[..k])| > HeaderFilterLen
    ensures var s := SniffFrom(script, 0, []);
      s.stop == Enough && s.pos <= k && s.buf == Flatten(script[..s.pos]) &&
      |s.buf| > HeaderFilterLen && s.buf[..HeaderFilterLen] == Flatten(script[..k])[..HeaderFilterLen]
  {
    assert script[0..k] == script[..k];
    var s := SniffFrom(script, 0, []);
    SniffFillsWithin(script, 0, [], k);
    SniffBytes(script);
    FlattenPrefix(script, 0, s.pos, k);
    assert script[0..s.pos] == script[..s.pos];
  }

  /** Every admission that did not come from the inspected path is the bare
      sniffed prefix: no body, no query, nothing read past the sniff. */
  lemma UninspectedAdmission(script: seq<Event>, env: Env)
    ensures var run := Handle(script, env);
      run.outcome.Admit? && !StartsWith(run.outcome.pendingHeader, PostInbox) ==> (
        run.outcome.pendingHeader == SniffFrom(script, 0, []).buf &&
        run.outcome.pendingBody == [] && run.queries == [] &&
        run.consumed == SniffFrom(script, 0, []).pos)
  {
    var run := Handle(script, env);
    var sniffed := SniffFrom(script, 0, []);
    if StageFailure(sniffed.stop).None? && |sniffed.buf| >= HeaderFilterLen && sniffed.buf[..HeaderFilterLen] == PostInbox {
      var split := HeaderFrom(script, sniffed.pos, sniffed.buf);
      assert run == Inspect(script, env, split);
      InspectedHeaderKeepsRequestLine(script, sniffed.pos, sniffed.buf);
      if run.outcome.Admit? {
        InspectedAdmissionBytes(script, env, split);
      }
    }
  }

  /** Reading `k` events completes the header stage: the k-th delivered chunk
      is the one that completes the first `\r\n\r\n`, or the stream ends at
      `k` without one. */
  ghost predicate HeaderRead(script: seq<Event>, k: nat)
  {
    k <= |script| &&
    (forall j | 0 <= j < k :: Chunk(script[j])) &&
    ((k > 0 && FirstTerminator(Flatten(script[..k])).Some? && FirstTerminator(Flatten(script[..k - 1])).None?) ||
     (k < |script| && script[k] == Data([]) && FirstTerminator(Flatten(script[..k])).None?))
  }

  /** Before the `k`-th read no terminator has arrived. */
  lemma NoEarlyTerminator(script: seq<Event>, pos: nat, k: nat)
    requires pos < k && HeaderRead(script, k)
    ensures FirstTerminator(Flatten(script[..pos])).None?
  {
    var buf := Flatten(script[..pos]);
    FlattenFromStart(script, pos, k - 1);
    FlattenFromStart(script, pos, k);
    if FirstTerminator(buf).Some? {
      TerminatorPersists(buf, Flatten(script[pos..k - 1]));
      TerminatorPersists(buf, Flatten(script[pos..k]));
      assert false;
    }
  }

  /** Without a terminator yet, a chunk read by the header stage is appended
      and the search goes on. */
  lemma HeaderStep(script: seq<Event>, pos: nat, buf: seq<byte>)
    requires pos < |script| && Chunk(script[pos]) && FirstTerminator(buf).None?
    ensures HeaderFrom(script, pos, buf) == HeaderFrom(script, pos + 1, buf + script[pos].bytes)
  {
  }

  /** One more read appends what it delivered. */
  lemma FlattenExtend(script: seq<Event>, pos: nat)
    requires pos < |script|
    ensures Flatten(script[..pos + 1]) == Flatten(script[..pos]) + Delivered(script[pos])
  {
    FlattenFromStart(script, pos, pos + 1);
    FlattenStep(script, pos, pos + 1);
    assert script[pos + 1..pos + 1] == [];
  }

  /** At the `k`-th read the header stage stops: on the terminator it already
      holds, or on end-of-stream. */
  lemma HeaderStopsAtK(script: seq<Event>, k: nat)
    requires HeaderRead(script, k)
    ensures var r := HeaderFrom(script, k, Flatten(script[..k]));
      r.pos == k && (r.stop == Enough || r.stop == AtEof) &&
      r.header == HeaderPart(Flatten(script[..k])) && r.body == BodyPart(Flatten(script[..k]))
  {
  }

  lemma {:induction false} HeaderReachesK(script: seq<Event>, pos: nat, k: nat)
    requires pos <= k && HeaderRead(script, k)
    ensures var r := HeaderFrom(script, pos, Flatten(script[..pos]));
      r.pos == k && (r.stop == Enough || r.stop == AtEof) &&
      r.header == HeaderPart(Flatten(script[..k])) && r.body == BodyPart(Flatten(script[..k]))
    decreases k - pos
  {
    if pos < k {
      NoEarlyTerminator(script, pos, k);
      HeaderStep(script, pos, Flatten(script[..pos]));
      FlattenExtend(script, pos);
      HeaderReachesK(script, pos + 1, k);
    } else {
      HeaderStopsAtK(script, k);
    }
  }

  /** Sniffing a request whose header is complete after `k` reads stops
      within those reads, on the request line. */
  lemma SniffWithinHeader(script: seq<Event>, k: nat)
    requires HeaderRead(script, k) && StartsWith(Flatten(script[..k]), PostInbox)
    ensures var s := SniffFrom(script, 0, []);
      StageFailure(s.stop).None? && s.pos <= k &&
      s.buf == Flatten(script[..s.pos]) && StartsWith(s.buf, PostInbox)
  {
    var all := Flatten(script[..k]);
    var s := SniffFrom(script, 0, []);
    SniffBytes(script);
    assert script[0..k] == script[..k];
    if |all| > HeaderFilterLen {
      SniffFillsWithin(script, 0, [], k);
    } else {
      RequestLineSurvivesCut(all);
      assert k < |script| && script[k] == Data([]);
      SniffReachesEof(script, 0, [], k);
    }
    FlattenPrefix(script, 0, s.pos, k);
    assert script[0..s.pos] == script[..s.pos];
    assert s.buf[..HeaderFilterLen] == all[..HeaderFilterLen];
  }

  /** The header gate once the header stage has stopped without failing:
      extraction runs on the header, and a panic, a missing field or a
      foreign media type ends the connection right there, without a body read
      or a query; a surplus beyond Content-Length is a mismatch at once. */
  lemma InspectGate(script: seq<Event>, env: Env, split: Split)
    requires split.pos <= |script| && StageFailure(split.stop).None?
    ensures var run := Inspect(script, env, split);
      match Extract(split.header)
      case SlicePanic => run == Run(Panic, split.pos, [])
      case Extracted(fields) =>
        (fields.contentLength.None? ==>
           run == Run(Reject(MalformedHeader("content-length not found")), split.pos, [])) &&
        (fields.contentLength.Some? && fields.contentType.None? ==>
           run == Run(Reject(MalformedHeader("content-type not found")), split.pos, [])) &&
        (fields.contentLength.Some? && fields.contentType.Some? && !ContentTypeOk(fields.contentType.value) ==>
           run == Run(Reject(BadRequest("content-type not application/activity+json")), split.pos, [])) &&
        (fields.contentLength.Some? && fields.contentType.Some? && ContentTypeOk(fields.contentType.value) ==> (
           run.consumed >= split.pos &&
           (|split.body| > fields.contentLength.value ==>
              run == Run(Reject(BadRequest("content-length mismatch")), split.pos, []))))
  {
  }

  /** The body gate: a body cut short by end-of-stream, longer than the
      Content-Length already when the body stage starts, or pushed past it by
      the read that ended the stage, is a length mismatch; a deadline is a
      `Timeout` and a failed read `IO`, whatever the length; an admitted body
      has exactly Content-Length bytes. */
  lemma BodyLengthChecked(script: seq<Event>, env: Env, header: seq<byte>, pos: nat, body: seq<byte>, n: nat)
    requires pos <= |script|
    ensures var r := BodyFrom(script, pos, body, n);
      var run := Conclude(env, header, n, r);
      (r.stop == AtEof || |body| > n ==>
         run == Run(Reject(BadRequest("content-length mismatch")), r.pos, [])) &&
      (r.stop == Enough && |r.buf| != n ==>
         run == Run(Reject(BadRequest("content-length mismatch")), r.pos, [])) &&
      (r.stop == Expired ==> run == Run(Reject(Timeout), r.pos, [])) &&
      (r.stop == IoFailed ==> run == Run(Reject(IO), r.pos, [])) &&
      (run.outcome.Admit? ==> r.stop == Enough && |run.outcome.pendingBody| == n)
  {
    BodyFacts(script, pos, body, n);
  }

  /** The header gate, for a request line `POST /inbox HTTP/` whose header is
      complete after `k` reads (terminated, or cut short by end-of-stream):
      extraction runs on that header, and a panic, a missing field or a
      foreign media type ends the connection right there, before any body
      read and without a query; a body surplus beyond Content-Length that
      came with the header is a mismatch without further reading. */
  lemma HeaderGate(script: seq<Event>, env: Env, k: nat)
    requires HeaderRead(script, k)
    requires StartsWith(Flatten(script[..k]), PostInbox)
    ensures var h := HeaderPart(Flatten(script[..k]));
      var run := Handle(script, env);
      match Extract(h)
      case SlicePanic => run == Run(Panic, k, [])
      case Extracted(fields) =>
        (fields.contentLength.None? ==>
           run == Run(Reject(MalformedHeader("content-length not found")), k, [])) &&
        (fields.contentLength.Some? && fields.contentType.None? ==>
           run == Run(Reject(MalformedHeader("content-type not found")), k, [])) &&
        (fields.contentLength.Some? && fields.contentType.Some? && !ContentTypeOk(fields.contentType.value) ==>
           run == Run(Reject(BadRequest("content-type not application/activity+json")), k, [])) &&
        (fields.contentLength.Some? && fields.contentType.Some? && ContentTypeOk(fields.contentType.value) ==> (
           run.consumed >= k &&
           (|BodyPart(Flatten(script[..k]))| > fields.contentLength.value ==>
              run == Run(Reject(BadRequest("content-length mismatch")), k, []))))
  {
    var s := SniffFrom(script, 0, []);
    SniffWithinHeader(script, k);
    HeaderReachesK(script, s.pos, k);
    var split := HeaderFrom(script, s.pos, s.buf);
    assert Handle(script, env) == Inspect(script, env, split);
    InspectGate(script, env, split);
  }

  /** What the inspected path checked before admitting. */
  lemma InspectedAdmissionGated(script: seq<Event>, env: Env, split: Split)
    requires split.pos <= |script|
    requires Inspect(script, env, split).outcome.Admit?
    ensures var run := Inspect(script, env, split);
      var b := run.outcome.pendingBody;
      run.outcome.pendingHeader == split.header &&
      Extract(split.header).Extracted? &&
      Extract(split.header).fields.contentLength == Some(|b|) &&
      Extract(split.header).fields.contentType.Some? &&
      ContentTypeOk(Extract(split.header).fields.contentType.value) &&
      env.parseJson(b).Some? &&
      (IsCreate(env.parseJson(b).value.activityType) <==> run.queries != [])
  {
    var fields := Extract(split.header).fields;
    var n := fields.contentLength.value;
    var body := BodyFrom(script, split.pos, split.body, n);
    assert Inspect(script, env, split) == Conclude(env, split.header, n, body);
  }

  /** An admission on the inspected path had both fields, an accepted media
      type, a body of exactly Content-Length bytes that is JSON, and, for a
      Create activity only, consulted the reputation lookups. */
  lemma InspectedAdmissionChecked(script: seq<Event>, env: Env)
    requires Handle(script, env).outcome.Admit?
    requires StartsWith(Handle(script, env).outcome.pendingHeader, PostInbox)
    ensures var h := Handle(script, env).outcome.pendingHeader;
      var b := Handle(script, env).outcome.pendingBody;
      Extract(h).Extracted? &&
      Extract(h).fields.contentLength == Some(|b|) &&
      Extract(h).fields.contentType.Some? && ContentTypeOk(Extract(h).fields.contentType.value) &&
      env.parseJson(b).Some? &&
      (IsCreate(env.parseJson(b).value.activityType) <==> Handle(script, env).queries != [])
  {
    var run := Handle(script, env);
    var s := SniffFrom(script, 0, []);
    assert StageFailure(s.stop).None? && |s.buf| >= HeaderFilterLen && s.buf[..HeaderFilterLen] == PostInbox;
    var split := HeaderFrom(script, s.pos, s.buf);
    assert run == Inspect(script, env, split);
    InspectedAdmissionGated(script, env, split);
  }

  // ---------------------------------------------------------------------------
  // Stages that do not finish

  /** The reads of a stage stop at `k` without a result: past the script's end
      the peer stays silent until the stage's deadline, and an error event is
      a failed read. */
  predicate Stalls(script: seq<Event>, k: nat)
  {
    k == |script| || (k < |script| && script[k] == IoError)
  }

  /** What `timeout(..).await??` makes of a stall at `k`: `Timeout` for the
      deadline, `IO` for the failed read, with nothing queried. */
  function StallRun(script: seq<Event>, k: nat): Run
    requires Stalls(script, k)
  {
    if k == |script| then Run(Reject(Timeout), k, []) else Run(Reject(IO), k + 1, [])
  }

  lemma {:induction false} SniffStallsAt(script: seq<Event>, pos: nat, buf: seq<byte>, k: nat)
    requires pos <= k && Stalls(script, k)
    requires forall j | pos <= j < k :: Chunk(script[j])
    requires |buf + Flatten(script[pos..k])| <= HeaderFilterLen
    ensures var r := SniffFrom(script, pos, buf);
      r.stop == (if k == |script| then Expired else IoFailed) && r.pos == StallRun(script, k).consumed
    decreases k - pos
  {
    if pos < k {
      var b := script[pos].bytes;
      FlattenStep(script, pos, k);
      assert buf + Flatten(script[pos..k]) == (buf + b) + Flatten(script[pos + 1..k]);
      SniffStallsAt(script, pos + 1, buf + b, k);
    }
  }

  /** A peer that falls silent, or a read that fails, before more than 17
      bytes have arrived ends the connection as `Timeout` or `IO`, not as
      `ConnectionTerminated`, and nothing is queried. */
  lemma SniffStalls(script: seq<Event>, env: Env, k: nat)
    requires Stalls(script, k)
    requires forall j | 0 <= j < k :: Chunk(script[j])
    requires |Flatten(script[..k])| <= HeaderFilterLen
    ensures Handle(script, env) == StallRun(script, k)
  {
    assert script[0..k] == script[..k];
    SniffStallsAt(script, 0, [], k);
  }

  lemma {:induction false} HeaderStallsAt(script: seq<Event>, pos: nat, k: nat)
    requires pos <= k && Stalls(script, k)
    requires forall j | pos <= j < k :: Chunk(script[j])
    requires FirstTerminator(Flatten(script[..k])).None?
    ensures var r := HeaderFrom(script, pos, Flatten(script[..pos]));
      r.stop == (if k == |script| then Expired else IoFailed) && r.pos == StallRun(script, k).consumed
    decreases k - pos
  {
    if pos < k {
      FlattenFromStart(script, pos, k);
      if FirstTerminator(Flatten(script[..pos])).Some? {
        TerminatorPersists(Flatten(script[..pos]), Flatten(script[pos..k]));
        assert false;
      }
      HeaderStep(script, pos, Flatten(script[..pos]));
      FlattenExtend(script, pos);
      HeaderStallsAt(script, pos + 1, k);
    }
  }

  /** A `POST /inbox HTTP/` request whose header never completes, because the
      peer falls silent or a read fails before a `\r\n\r\n` arrives, ends
      as `Timeout` or `IO`, and nothing is queried. */
  lemma HeaderStalls(script: seq<Event>, env: Env, k: nat)
    requires Stalls(script, k)
    requires forall j | 0 <= j < k :: Chunk(script[j])
    requires StartsWith(Flatten(script[..k]), PostInbox)
    requires FirstTerminator(Flatten(script[..k])).None?
    ensures Handle(script, env) == StallRun(script, k)
  {
    var all := Flatten(script[..k]);
    assert script[0..k] == script[..k];
    if |all| == HeaderFilterLen {
      SniffStallsAt(script, 0, [], k);
    } else {
      SniffFillsWithin(script, 0, [], k);
      var s := SniffFrom(script, 0, []);
      SniffBytes(script);
      FlattenPrefix(script, 0, s.pos, k);
      assert script[0..s.pos] == script[..s.pos];
      assert s.buf[..HeaderFilterLen] == all[..HeaderFilterLen];
      HeaderStallsAt(script, s.pos, k);
      assert Handle(script, env) == Inspect(script, env, HeaderFrom(script, s.pos, s.buf));
    }
  }

  lemma {:induction false} BodyStallsAt(script: seq<Event>, pos: nat, body: seq<byte>, n: nat, k: nat)
    requires pos <= k && Stalls(script, k)
    requires forall j | pos <= j < k :: Chunk(script[j])
    requires |body + Flatten(script[pos..k])| < n
    ensures var r := BodyFrom(script, pos, body, n);
      r.stop == (if k == |script| then Expired else IoFailed) && r.pos == StallRun(script, k).consumed
    decreases k - pos
  {
    if pos < k {
      var b := script[pos].bytes;
      FlattenStep(script, pos, k);
      assert body + Flatten(script[pos..k]) == (body + b) + Flatten(script[pos + 1..k]);
      BodyStallsAt(script, pos + 1, body + b, n, k);
    } else {
      assert script[pos..k] == [];
    }
  }

  /** A body that stays short of its Content-Length because the peer falls
      silent or a read fails is a `Timeout` or `IO`, never a length mismatch,
      and nothing is queried: here the header of a `POST /inbox HTTP/`
      request is complete with its terminator after `k` reads and passes the
      header gate, and the reads from `k` up to the stall at `m` leave the
      body short. */
  lemma BodyStalls(script: seq<Event>, env: Env, k: nat, m: nat)
    requires HeaderRead(script, k) && StartsWith(Flatten(script[..k]), PostInbox)
    requires FirstTerminator(Flatten(script[..k])).Some?
    requires k <= m && Stalls(script, m)
    requires forall j | k <= j < m :: Chunk(script[j])
    requires var h := HeaderPart(Flatten(script[..k]));
      Extract(h).Extracted? && Extract(h).fields.contentLength.Some? &&
      Extract(h).fields.contentType.Some? && ContentTypeOk(Extract(h).fields.contentType.value) &&
      |BodyPart(Flatten(script[..k])) + Flatten(script[k..m])| < Extract(h).fields.contentLength.value
    ensures Handle(script, env) == StallRun(script, m)
  {
    var split := InspectedAtK(script, env, k);
    var n := Extract(split.header).fields.contentLength.value;
    BodyStallsAt(script, k, split.body, n, m);
    InspectReadsBody(script, env, split);
  }

  /** The body stage stops as soon as the body holds Content-Length bytes:
      with read `m` if the reads from `pos` reach the length there and not
      before, and with every byte of those reads in the body. */
  lemma {:induction false} BodyFillsAt(script: seq<Event>, pos: nat, body: seq<byte>, n: nat, m: nat)
    requires pos <= m <= |script|
    requires forall j | pos <= j < m :: Chunk(script[j])
    requires n <= |body + Flatten(script[pos..m])|
    requires pos == m || |body + Flatten(script[pos..m - 1])| < n
    ensures BodyFrom(script, pos, body, n) == Fill(Enough, m, body + Flatten(script[pos..m]))
    decreases m - pos
  {
    if pos < m {
      var b := script[pos].bytes;
      ReadJoins(script, pos, body, m);
      if pos + 1 < m {
        ReadJoins(script, pos, body, m - 1);
      }
      BodyFillsAt(script, pos + 1, body + b, n, m);
    } else {
      assert script[pos..m] == [];
    }
  }

  /** A `POST /inbox HTTP/` request whose header is complete after `k` reads
      and passes the header gate, and whose body reaches exactly its
      Content-Length with read `m` and not before, is decided on that header
      and that body: the outcome and the queries are those of `Decide`, and
      the handler has taken `m` reads. */
  lemma InspectedDecides(script: seq<Event>, env: Env, k: nat, m: nat)
    requires HeaderRead(script, k) && StartsWith(Flatten(script[..k]), PostInbox)
    requires k <= m <= |script|
    requires forall j | k <= j < m :: Chunk(script[j])
    requires var h := HeaderPart(Flatten(script[..k]));
      Extract(h).Extracted? && Extract(h).fields.contentLength.Some? &&
      Extract(h).fields.contentType.Some? && ContentTypeOk(Extract(h).fields.contentType.value)
    requires var all := Flatten(script[..k]);
      var n := Extract(HeaderPart(all)).fields.contentLength.value;
      |BodyPart(all) + Flatten(script[k..m])| == n &&
      (k == m || |BodyPart(all) + Flatten(script[k..m - 1])| < n)
    ensures var all := Flatten(script[..k]);
      var verdict := Decide(HeaderPart(all), BodyPart(all) + Flatten(script[k..m]), env);
      Handle(script, env) == Run(verdict.outcome, m, verdict.queries)
  {
    var split := InspectedAtK(script, env, k);
    var n := Extract(split.header).fields.contentLength.value;
    BodyFillsAt(script, k, split.body, n, m);
    InspectReadsBody(script, env, split);
  }

  /** The header stage of a `POST /inbox HTTP/` request whose header is
      complete after `k` reads ends there, and the handler goes on with it. */
  lemma InspectedAtK(script: seq<Event>, env: Env, k: nat) returns (split: Split)
    requires HeaderRead(script, k) && StartsWith(Flatten(script[..k]), PostInbox)
    ensures split.pos == k && (split.stop == Enough || split.stop == AtEof)
    ensures Handle(script, env) == Inspect(script, env, split)
    ensures split.header == HeaderPart(Flatten(script[..k])) && split.body == BodyPart(Flatten(script[..k]))
    ensures split.stop == AtEof ==> k < |script| && script[k] == Data([])
  {
    var s := SniffFrom(script, 0, []);
    SniffWithinHeader(script, k);
    HeaderReachesK(script, s.pos, k);
    HeaderStopFacts(script, s.pos, s.buf);
    split := HeaderFrom(script, s.pos, s.buf);
  }

  /** Past the header gate the handler reads the body. */
  lemma InspectReadsBody(script: seq<Event>, env: Env, split: Split)
    requires split.pos <= |script| && StageFailure(split.stop).None?
    requires Extract(split.header).Extracted?
    requires var fields := Extract(split.header).fields;
      fields.contentLength.Some? && fields.contentType.Some? && ContentTypeOk(fields.contentType.value)
    ensures var n := Extract(split.header).fields.contentLength.value;
      Inspect(script, env, split) == Conclude(env, split.header, n, BodyFrom(script, split.pos, split.body, n))
  {
  }
}
