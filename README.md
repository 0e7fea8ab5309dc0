# spam-musubi filter, modelled in Dafny

spam-musubi is a TCP proxy in front of an ActivityPub server. For every
incoming connection, its `filter::handler` (src/filter/mod.rs) makes one
decision: **admit** the connection or **reject** it with a reason.

- **Admit.** The handler hands back the bytes it has already read, as a
  pending header and a pending body. The relay replays them upstream and then
  copies the rest of the socket.
- **Reject.** The handler returns one of the `RejectReason` values.

The handler runs in five stages:

1. **Sniff.** Read until the buffer holds more than 17 bytes, the client
   closes the stream, a read fails, or a 100 ms deadline expires. A stream
   that ends below 17 bytes is `ConnectionTerminated`. Anything that does not
   begin with `POST /inbox HTTP/` is admitted untouched.
2. **Header.** Rescan the buffer for the first `\r\n\r\n` and read more until
   it appears. The bytes after it become the start of the body, and the header
   is cut right after it. End-of-stream just ends this stage.
3. **Fields.** Split the header on `\n`. `Content-Length` and `Content-Type`
   are taken from the first line spelled exactly in canonical or lower case
   that yields a value: a length that is not UTF-8 or does not parse as a
   `usize` is skipped, and so is a type that is not UTF-8. The value is the
   slice from column 16 (14 for the type) up to the line's last byte. That
   slice panics on a bare `Content-Length: ` or `Content-Type: ` line met
   while its field is still unset. A missing field is `MalformedHeader`. A
   media type that does not start with `application/activity+json` or
   `application/ld+json` is `BadRequest`.
4. **Body.** Read while the body is shorter than Content-Length. Any other
   length afterwards is a `BadRequest` mismatch.
5. **Decision.** The body must be JSON. Only a `Create` activity is judged,
   by a two-tier reputation rule:
   - an unknown instance is spam;
   - an instance with fewer than 5 followers and fewer than 5 followings
     leads to a look-up of the actor;
   - an unknown actor, or one with no followers and no followings, is spam.

## How the model is built

- **Socket.** The socket is a finite *script* of read events (`Stream`):
  - `Data(bytes)` is a read that returned bytes;
  - `Data([])` is end-of-stream, which is sticky;
  - `IoError` is a failed read;
  - running off the end of the script is a peer that stays silent until the
    stage's deadline, i.e. `Timeout`.
- **Read loops.** Each of the three read loops is:
  - a method of the `Filter.Session` class, which holds the read cursor and
    the `header` and `body` buffers, mutated in place as in the source;
  - proved equal to a tail-recursive specification function (`SniffFrom`,
    `HeaderFrom`, `BodyFrom`) through its loop invariant.
- **Whole handler.** `Filter.Handler` runs the stages on one session. It is
  proved equal to the function `Filter.Handle`. That function is what the
  pipeline lemmas (`Pipeline`) are about.
- **Outcome.** A run ends in `Admit(pendingHeader, pendingBody)`,
  `Reject(reason)` or `Panic`, the slice panic of stage 3. The run also
  records how many script events were consumed and which reputation queries
  were issued, in order.
- **Foreign calls.** JSON parsing, URL parsing and the two database look-ups
  are the function fields of `Decision.Env`. A look-up returns a record, no
  record, or an error.

Points where the code may surprise a reader, all modelled as the code does
them:

- the activity type `"create"` is accepted as well as `"Create"`
  (src/filter/mod.rs:209);
- a failing database look-up ends the connection with a `Query` rejection
  through `?` (src/filter/mod.rs:230, 235), distinct from the `Spam`
  rejection for a missing record;
- the value slice drops the last byte of the line whatever that byte is
  (src/filter/mod.rs:140, 147), not only a carriage return;
- end-of-stream during the header stage is not a rejection: extraction runs
  on the unterminated header (src/filter/mod.rs:114);
- the slice panic at src/filter/mod.rs:140 and 147 happens when a bare
  `Content-Length: ` or `Content-Type: ` line comes before any line that
  yields that field, whether the bare line ends in `\n` or is the
  unterminated last piece of the header. A bare line after the field is set
  is skipped (src/filter/mod.rs:137, 145). `Header.ExtractionCharacterised`
  states exactly when the panic happens.

## Model

| member | source | states |
|---|---|---|
| Bytes.CharWidth | src/filter/mod.rs:140 | the width of the well-formed UTF-8 sequence at the start of a byte string never exceeds its length; an ASCII byte is one character and a continuation byte starts none |
| Bytes.AsciiIsUtf8 | src/filter/mod.rs:140-142 | every ASCII byte string passes the `from_utf8` check |
| Bytes.ValidUtf8 | src/filter/mod.rs:140-147 | `from_utf8` accepts no text that starts with a continuation byte, and valid text ends in an ASCII or a continuation byte |
| Bytes.WholeCharacters | src/filter/mod.rs:140-147 | valid text is made of whole characters: every byte of it that is not a continuation byte starts a complete, well-formed UTF-8 sequence, so a character cut short (`[0xE2, 0x82]`) is never valid |
| Bytes.ParseUsize | src/filter/mod.rs:142 | `usize::from_str` yields a value only for non-empty ASCII text and only up to `usize::MAX` |
| Bytes.ParseDecimalRoundTrip | src/filter/mod.rs:142 | parsing the decimal rendering of n, with or without a leading `+`, gives n back exactly when n fits a 64-bit `usize`, and is an error otherwise |
| Bytes.NoMinusSign | src/filter/mod.rs:142 | a leading `-` is never accepted |
| Bytes.SplitLines | src/filter/mod.rs:133 | splitting on `\n` gives at least one piece and no piece holds a `\n` |
| Bytes.JoinSplitLines | src/filter/mod.rs:133 | the pieces joined with `\n` give back the header: the split loses no byte |
| Bytes.SplitJoinLines | src/filter/mod.rs:133 | any non-empty list of newline-free pieces is what splitting their join gives, so the split is the unique such decomposition |
| Stream.ReadAt | src/filter/mod.rs:58-71 | one `try_read_buf` reports bytes (a non-empty chunk), end-of-stream (exactly at an empty chunk), an error (exactly at an error event) or silence (exactly past the script's end) |
| Stream.After | src/filter/mod.rs:58-71 | the cursor advances by one exactly on received bytes or an error; end-of-stream and silence leave it in place |
| Header.TerminatorFrom | src/filter/mod.rs:98-99 | the index found is a `\r\n\r\n` window with none before it from the start point, and no index means no such window |
| Header.ScanTerminator | src/filter/mod.rs:98-105 | the `windows(4)` scan returns the index of the first `\r\n\r\n`, or none when there is none |
| Header.CutAtFirstTerminator | src/filter/mod.rs:101-102 | truncating after the first terminator leaves a header that ends with `\r\n\r\n` and holds no earlier one |
| Header.TerminatorPersists | src/filter/mod.rs:97-113 | reading more bytes never moves a terminator already present, so rescanning the whole buffer finds the same one |
| Header.HeaderBodyRejoin | src/filter/mod.rs:101-102 | the truncated header followed by the moved bytes is the buffer they came from |
| Header.LengthAt | src/filter/mod.rs:137-143 | a line yields a Content-Length only if it starts with an accepted name and is long enough for the slice, and the value fits a `usize` |
| Header.TypeAt | src/filter/mod.rs:144-148 | a line yields a Content-Type only if it starts with an accepted name and is long enough for the slice, and the value is UTF-8 |
| Header.ScanLine | src/filter/mod.rs:137-148 | one iteration of the field loop panics exactly when an unset field's line is too short for its slice, and otherwise fills each unset field from the line |
| Header.ExtractFrom | src/filter/mod.rs:133-149 | from any field state, the loop never overwrites a field already set; a Content-Length it sets fits a `usize` and a Content-Type it sets is UTF-8 |
| Header.Extract | src/filter/mod.rs:131-149 | on a whole header, a Content-Length found fits a `usize` and a Content-Type found is UTF-8 text |
| Header.ExtractFields | src/filter/mod.rs:131-149 | the extraction on a header computes the extraction function: the same fields, or the same panic |
| Header.ScanLineAt | src/filter/mod.rs:133-148 | one iteration on line i, seen from the loop: it panics where the extraction from line i does, and otherwise leaves the field state from which the extraction goes on at line i + 1 |
| Header.ExtractLines | src/filter/mod.rs:133-149 | the field loop over the header's lines, with its early exit once both fields are set and its panic, computes the extraction from the first line with both fields unset |
| Header.ExtractFromSpec | src/filter/mod.rs:133-149 | from any line and field state, the loop panics exactly when a too-short line names a field still unset before any earlier line yields it; each unset field ends as the value of the first line that yields it, and absent when none does |
| Header.PanicSpec | src/filter/mod.rs:133-147 | from any line and field state, the loop panics exactly when a too-short line names a field that no earlier line has set |
| Header.LengthSpec | src/filter/mod.rs:133-142 | from any line and field state, a loop that does not panic keeps a set Content-Length, and otherwise ends with the value of the first line that yields one, or none when no line does |
| Header.TypeSpec | src/filter/mod.rs:133-148 | the same for Content-Type: a set type is kept, otherwise the first line that yields one gives it, or none when no line does |
| Header.ExtractionCharacterised | src/filter/mod.rs:131-153 | on a whole header: a panic exactly at a bare field line preceding every line that yields that field; otherwise each field is the first line's value, and the `MalformedHeader` cases are exactly those where no line yields it |
| Header.LengthIgnoresUtf8Check | src/filter/mod.rs:140-142 | the UTF-8 step never rejects a Content-Length value that the integer parse would accept |
| Header.MixedCaseIgnored | src/filter/mod.rs:138 | a mixed-case `Content-length: ` line neither sets the field nor panics |
| Header.ContentTypeOk | src/filter/mod.rs:155-159 | an accepted media type is an `application/` type at least as long as `application/ld+json` |
| Header.ContentTypeParametersIgnored | src/filter/mod.rs:155-159 | the check is a prefix test: anything after an accepted type, such as a parameter, keeps it accepted |
| Decision.Decide | src/filter/mod.rs:195-242 | the decision admits only with header and body unchanged; it never panics and rejects only as invalid request, spam or query failure; an invalid request carries the body and follows no query, and spam carries the body and follows at least one; it queries only for a parsed Create activity, the instance first and then the user, at most two queries; an admission means the body parsed, and it queried exactly when the activity is a Create |
| Decision.IsCreate | src/filter/mod.rs:205-209 | a Create activity has a string type of six letters, `reate` after a first letter that may be either case; no other spelling counts |
| Decision.MalformedJsonRejected | src/filter/mod.rs:195-197 | a body that is not JSON is `InvalidRequest("malformed JSON")` carrying the body, with no query |
| Decision.NonCreateAdmitted | src/filter/mod.rs:205-213 | anything but a `Create`/`create` activity is admitted unchanged, with no query |
| Decision.InvalidActorRejected | src/filter/mod.rs:215-227 | for a Create activity, a missing or unparsable actor is `InvalidRequest("invalid actor")` and an actor URL without a host is `InvalidRequest("invalid actor (no host)")`, both carrying the body, with no query |
| Decision.TwoTierRule | src/filter/mod.rs:215-242 | for a Create activity with an actor host, the instance is queried first: no record is spam; a query error is a `Query` rejection; a trusted instance is admitted without a user query; for a small instance the user is queried, and the outcome is spam exactly for a missing or dormant user, admission exactly for an active one, and `Query` exactly on a query error |
| Decision.SpamOnlyFromReputation | src/filter/mod.rs:228-240 | spam is found only in a Create activity, and only from a missing instance record or a small instance together with a missing or dormant user |
| Decision.MoreReputationStillAdmitted | src/filter/mod.rs:232-240 | more followers or followings, for the instance or the user, never turn an admitted activity into a rejected one |
| Filter.SniffFrom | src/filter/mod.rs:53-72 | the sniff loop only moves the cursor forward and stays within the script |
| Filter.HeaderFrom | src/filter/mod.rs:97-122 | the header loop only moves the cursor forward and stays within the script |
| Filter.BodyFrom | src/filter/mod.rs:165-179 | the body loop only moves the cursor forward and stays within the script |
| Filter.StageFailure | src/filter/mod.rs:76-79 | a stage's `timeout(..).await??` (here and at lines 124-128 and 182-186) rejects exactly when the deadline expired, as `Timeout`, or a read failed, as `IO`; end-of-stream and the stage's own goal let the handler go on |
| Filter.Handle | src/filter/mod.rs:43-243 | the handler reads no further than the stream, queries at most twice, never panics after a query, finds spam only after a reputation query, and after a query ends only in admission, spam or a query failure |
| Filter.Inspect | src/filter/mod.rs:130-190 | the inspected path reads on from the header stage and never back; it panics only when extraction panics, then with no further read and no query; it admits only with the cut header; it never reports `ConnectionTerminated`; spam only after a query |
| Filter.Conclude | src/filter/mod.rs:186-242 | after the body stage: an admission, or any query, needs a body stage that did not fail and a body of exactly Content-Length bytes; an admission hands on the header and that body; no panic and no `ConnectionTerminated`; spam only after a query |
| Filter.Session.constructor | src/filter/mod.rs:48-50 | a connection starts at the beginning of the stream with empty header and body buffers |
| Filter.Session.TryRead | src/filter/mod.rs:58-71 | one read reports what the script holds at the cursor and advances it as `Stream.After` says |
| Filter.Session.Sniff | src/filter/mod.rs:49-79 | the sniff loop ends in the state and stop reason of its specification function |
| Filter.Session.CompleteHeader | src/filter/mod.rs:93-128 | the header loop, with its in-place move of the surplus into the body and its truncation, ends in the state and stop reason of its specification function |
| Filter.Session.ReadBody | src/filter/mod.rs:162-186 | the body loop ends in the state and stop reason of its specification function |
| Filter.Handler | src/filter/mod.rs:43-243 | the handler on a session returns exactly the run the pipeline function defines |
| Pipeline.SniffFacts | src/filter/mod.rs:53-72 | the sniffed buffer is the bytes of the reads consumed; it stops on enough bytes only with more than 17, and on end-of-stream only at an empty chunk, having read only non-empty chunks |
| Pipeline.SniffBytes | src/filter/mod.rs:49-79 | the sniffed bytes are exactly what the consumed reads delivered, and more than 17 when the goal was met |
| Pipeline.HeaderFacts | src/filter/mod.rs:97-122 | the header stage splits everything it holds at its first terminator, and stops on its goal exactly when there is one |
| Pipeline.HeaderStopFacts | src/filter/mod.rs:113-121 | the header stage stops on end-of-stream only at an empty chunk, and unless a read failed it consumed only non-empty chunks |
| Pipeline.HeaderSplitSound | src/filter/mod.rs:98-103 | after a successful split, header followed by body is every byte read so far, and the header ends with `\r\n\r\n` with no earlier occurrence |
| Pipeline.HeaderBytes | src/filter/mod.rs:93-128 | started on everything read so far, the header stage's header and body are the split of every byte read when it stops |
| Pipeline.BodyFacts | src/filter/mod.rs:165-179 | the body is the surplus plus the bytes of the reads consumed; it stops on its goal only with at least Content-Length bytes, and on end-of-stream only short and at an empty chunk; it reads nothing once the body is long enough |
| Pipeline.RequestLineSurvivesCut | src/filter/mod.rs:88-103 | a terminator never starts inside the request line, so the cut header still begins with `POST /inbox HTTP/` |
| Pipeline.InspectedHeaderKeepsRequestLine | src/filter/mod.rs:88-128 | the header the inspected path works on still begins with `POST /inbox HTTP/` |
| Pipeline.InspectedAdmissionBytes | src/filter/mod.rs:162-242 | an inspected admission hands on the cut header unchanged and the body as the surplus plus what the body loop read |
| Pipeline.InspectedAdmissionReplays | src/filter/mod.rs:162-242 | an inspected admission hands on exactly the bytes read up to where the body loop stopped |
| Pipeline.AdmittedBytesRead | src/filter/mod.rs:43-243 | every admission hands on exactly the bytes of the reads the handler made |
| Pipeline.AdmissionReplaysEveryByte | src/filter/mod.rs:43-243 | the pending header and body followed by the unread rest of the socket are the client's whole stream: no byte is lost, repeated or reordered |
| Pipeline.SniffReachesEof | src/filter/mod.rs:53-72 | reads of non-empty chunks totalling at most 17 bytes followed by end-of-stream end the sniff right there with those bytes |
| Pipeline.ShortStreamTerminated | src/filter/mod.rs:59-84 | `ConnectionTerminated` happens exactly when the stream closes after fewer than 17 bytes, and then nothing past the close is read and nothing is queried |
| Pipeline.TerminatedOnlyShort | src/filter/mod.rs:59-84 | a `ConnectionTerminated` run ended its sniff on a stream that closed after fewer than 17 bytes |
| Pipeline.ShortStreamTerminatedAt | src/filter/mod.rs:59-84 | a stream that closes after fewer than 17 bytes is `ConnectionTerminated` where it closes, with no query |
| Pipeline.SniffFillsWithin | src/filter/mod.rs:60-63 | once the reads delivered more than 17 bytes the sniff has stopped on its goal, no later |
| Pipeline.NonTargetAdmittedVerbatim | src/filter/mod.rs:59-90 | a stream not starting with `POST /inbox HTTP/` is admitted with the sniffed bytes verbatim and no body, with no query, after no more reads than it takes to exceed 17 bytes, or up to end-of-stream after exactly 17 |
| Pipeline.SniffedWithin | src/filter/mod.rs:53-72 | once the first reads deliver more than 17 bytes, the sniff stops on its goal within them, holding their bytes, which begin as the stream does |
| Pipeline.UninspectedAdmission | src/filter/mod.rs:86-90 | an admission whose header does not start with the request line is the bare sniff: sniffed bytes, no body, no query, nothing read past the sniff |
| Pipeline.NoEarlyTerminator | src/filter/mod.rs:98-105 | before the read that completes the first terminator, no terminator is in the buffer |
| Pipeline.HeaderStep | src/filter/mod.rs:113-115 | without a terminator, a chunk read by the header stage is appended and the search goes on |
| Pipeline.HeaderStopsAtK | src/filter/mod.rs:97-114 | at the read where the terminator is complete, or where the stream ends, the header stage stops with the header and body split of everything read |
| Pipeline.HeaderReachesK | src/filter/mod.rs:97-122 | from any earlier cursor, the header stage runs to that read and stops there with that split |
| Pipeline.SniffWithinHeader | src/filter/mod.rs:49-90 | for a request whose header is complete after k reads, the sniff stops within them, successfully, on the request line |
| Pipeline.InspectGate | src/filter/mod.rs:130-190 | after the header stage: a slice panic, a missing field or a foreign media type ends the run at once with no body read and no query; otherwise the body stage reads on, and a surplus beyond Content-Length is a mismatch at once |
| Pipeline.BodyLengthChecked | src/filter/mod.rs:162-190 | a body cut short by end-of-stream, already longer than Content-Length, or pushed past it by the last read, is a length mismatch; a deadline is `Timeout` and a failed read `IO`; an admitted body has exactly Content-Length bytes |
| Pipeline.HeaderGate | src/filter/mod.rs:130-159 | for a `POST /inbox` request whose header is complete after k reads, the handler's result on panic, missing fields, foreign media type and surplus body is fixed by the header alone, at read k, with no query |
| Pipeline.InspectedAtK | src/filter/mod.rs:93-130 | for a `POST /inbox` request whose header is complete after k reads, the header stage stops at read k, on the terminator or end-of-stream, and the handler goes on with that header and body split |
| Pipeline.InspectedAdmissionGated | src/filter/mod.rs:150-242 | an admission after the header stage had both fields, an accepted media type, a body of exactly Content-Length bytes that is JSON, and queried exactly for a Create activity |
| Pipeline.InspectedAdmissionChecked | src/filter/mod.rs:150-242 | every admission whose header starts with `POST /inbox HTTP/` satisfied all of the above |
| Pipeline.SniffStallsAt | src/filter/mod.rs:53-79 | reads of non-empty chunks totalling at most 17 bytes, then silence or a failed read, stop the sniff there on the deadline or the failure |
| Pipeline.SniffStalls | src/filter/mod.rs:53-84 | a peer that falls silent, or a read that fails, before more than 17 bytes arrive ends the connection as `Timeout` or `IO`, not `ConnectionTerminated`, with no query |
| Pipeline.HeaderStallsAt | src/filter/mod.rs:97-128 | reads without a complete terminator, then silence or a failed read, stop the header stage there on the deadline or the failure |
| Pipeline.HeaderStalls | src/filter/mod.rs:93-128 | a `POST /inbox` request whose header never completes, because the peer falls silent or a read fails, ends as `Timeout` or `IO` with no query |
| Pipeline.InspectReadsBody | src/filter/mod.rs:155-162 | past the header gate the handler goes on to the body stage with the Content-Length found and the body bytes that came with the header |
| Pipeline.BodyFillsAt | src/filter/mod.rs:162-186 | reads that bring the body to Content-Length with read m and not before stop the body stage at m, with every byte read in the body |
| Pipeline.InspectedDecides | src/filter/mod.rs:162-243 | a `POST /inbox` request whose header passes the gate and whose body reaches exactly Content-Length with read m is decided by `Decide` on that header and body, after m reads |
| Pipeline.BodyStallsAt | src/filter/mod.rs:165-186 | reads that leave the body short of Content-Length, then silence or a failed read, stop the body stage there on the deadline or the failure |
| Pipeline.BodyStalls | src/filter/mod.rs:162-190 | a body left short of Content-Length by a silent peer or a failed read is `Timeout` or `IO`, never a length mismatch, with no query |

## Left out

- Deadlines, the 100 µs back-off sleeps and the timeout constants
  (src/filter/mod.rs:13-15, 55, 110, 167). A stage times out when the script
  runs out, i.e. when the peer stays silent. Bytes arriving after a deadline
  are not modelled.
- Would-block reads (src/filter/mod.rs:66, 116, 173). They only repeat the
  loop, so the script lists only the reads that returned something. How much
  `try_read_buf` reads at once, as limited by buffer capacity, is folded into
  how the script chunks the stream.
- `serde_json`, `Url` parsing and `host_str`. These are the function fields of
  `Decision.Env`, and only the members the handler looks at (`type`, `actor`)
  are passed on.
- `String::from_utf8_lossy` on diagnostics. Reject reasons carry the raw body
  bytes instead of the lossy rendering.
- The query module: the Postgres pool and SQL text (src/query/mod.rs,
  src/query.rs and src/query/constants.rs are not part of this model). Each
  look-up is a record, no record, or an error.
- src/main.rs is not part of this model: argument parsing, the accept loop,
  the relay that replays the pending bytes and copies the socket, and logging.
  `Pipeline.AdmissionReplaysEveryByte` states the property the relay relies
  on.
- Logging (`trace!`, `info!`) has no effect on the outcome and is omitted.
- The `incoming_stream` field of `Admit`: the socket is the unread rest of the
  script, located by the run's `consumed` count.
- Decision.Stats: follower counts are unbounded integers, not `i32`; overflow
  is not modelled.
- Bytes.ParseUsize: assumes a 64-bit target, so `usize::MAX` is 2^64 - 1.
- Decision.MoreReputationStillAdmitted: assumes the user look-up never
  returns negative counts. With negative counts, raising one of them to 0 can
  make a user dormant, and the monotonicity does not hold.
- Filter.SniffFrom: its contract states only cursor bounds. What the stage
  computes is stated by `Pipeline.SniffFacts`, `Pipeline.SniffReachesEof` and
  `Pipeline.SniffFillsWithin`.
- Filter.HeaderFrom: its contract states only cursor bounds. What the stage
  computes is stated by `Pipeline.HeaderFacts` and `Pipeline.HeaderSplitSound`.
- Filter.BodyFrom: its contract states only cursor bounds. What the stage
  computes is stated by `Pipeline.BodyFacts`.
