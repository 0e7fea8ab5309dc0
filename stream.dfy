/** The client socket as the filter sees it: the outcomes of successive
    non-blocking reads (`try_read_buf`), in order. */
module Stream {
  import opened Bytes

  /** One read that did not merely "would block". `Data([])` is a read that
      returned 0, i.e. end-of-stream; the end of the script stands for a peer
      that sends nothing more before the current stage's deadline. */
  datatype Event = Data(bytes: seq<byte>) | IoError

  /** What one `try_read_buf` call reports. */
  datatype ReadResult = Received(bytes: seq<byte>) | Eof | Error | Silent

  function ReadAt(script: seq<Event>, pos: nat): (r: ReadResult)
    ensures r.Received? ==> pos < |script| && script[pos] == Data(r.bytes) && r.bytes != []
    ensures r.Eof? <==> pos < |script| && script[pos] == Data([])
    ensures r.Error? <==> pos < |script| && script[pos] == IoError
    ensures r.Silent? <==> pos >= |script|
  {
    if pos >= |script| then Silent
    else match script[pos]
      case IoError => Error
      case Data(b) => if b == [] then Eof else Received(b)
  }

  /** The read cursor after one read at `pos`: end-of-stream is sticky (a
      closed socket keeps returning 0) and a silent peer consumes nothing. */
  function After(script: seq<Event>, pos: nat): (next: nat)
    requires pos <= |script|
    ensures next <= |script|
    ensures next == pos + 1 <==> ReadAt(script, pos).Received? || ReadAt(script, pos).Error?
    ensures next == pos || next == pos + 1
  {
    match ReadAt(script, pos)
    case Received(_) => pos + 1
    case Error => pos + 1
    case _ => pos
  }

  function Delivered(e: Event): seq<byte>
  {
    if e.Data? then e.bytes else []
  }

  /** Every byte the events deliver, in order. */
  function Flatten(events: seq<Event>): seq<byte>
    decreases |events|
  {
    if events == [] then [] else Delivered(events[0]) + Flatten(events[1..])
  }

  /** Reading on from a cursor neither loses nor repeats a byte. */
  lemma {:induction false} FlattenSplit(events: seq<Event>, k: nat)
    requires k <= |events|
    ensures Flatten(events[..k]) + Flatten(events[k..]) == Flatten(events)
    decreases k
  {
    if k > 0 {
      FlattenSplit(events[1..], k - 1);
      assert events[..k][1..] == events[1..][..k - 1];
      assert events[1..][k - 1..] == events[k..];
    }
  }

  lemma FlattenConcat(events: seq<Event>, a: nat, b: nat, c: nat)
    requires a <= b <= c <= |events|
    ensures Flatten(events[a..b]) + Flatten(events[b..c]) == Flatten(events[a..c])
  {
    FlattenSplit(events[a..c], b - a);
    assert events[a..c][..b - a] == events[a..b];
    assert events[a..c][b - a..] == events[b..c];
  }

  /** One more received chunk extends the delivered bytes by that chunk. */
  lemma FlattenStep(events: seq<Event>, a: nat, b: nat)
    requires a < b <= |events|
    ensures Flatten(events[a..b]) == Delivered(events[a]) + Flatten(events[a + 1..b])
  {
    assert events[a..b][1..] == events[a + 1..b];
  }

  /** A prefix of the events delivers a prefix of the bytes. */
  lemma FlattenPrefix(events: seq<Event>, a: nat, b: nat, c: nat)
    requires a <= b <= c <= |events|
    ensures |Flatten(events[a..b])| <= |Flatten(events[a..c])|
    ensures Flatten(events[a..c])[..|Flatten(events[a..b])|] == Flatten(events[a..b])
  {
    FlattenConcat(events, a, b, c);
  }
}
