/** The hand-rolled HTTP header handling of the filter: the search for the
    blank line that ends the header, the extraction of Content-Length and
    Content-Type, and the media-type gate. */
module Header {
  import opened Bytes

  /** `b"\r\n\r\n"` */
  const Terminator: seq<byte> := [CR, LF, CR, LF]

  predicate TerminatorAt(h: seq<byte>, i: nat)
  {
    i + 4 <= |h| && h[i..i + 4] == Terminator
  }

  /** The first 4-byte window of `h`, at or after `k`, that is `\r\n\r\n`. */
  function TerminatorFrom(h: seq<byte>, k: nat): (r: Option<nat>)
    ensures r.Some? ==> k <= r.value && TerminatorAt(h, r.value)
    ensures r.Some? ==> forall j | k <= j < r.value :: !TerminatorAt(h, j)
    ensures r.None? ==> forall j | k <= j :: !TerminatorAt(h, j)
    decreases |h| - k
  {
    if k + 4 > |h| then None
    else if h[k..k + 4] == Terminator then Some(k)
    else TerminatorFrom(h, k + 1)
  }

  /** Index of the first `\r\n\r\n` in `h`, if any. */
  function FirstTerminator(h: seq<byte>): Option<nat>
  {
    TerminatorFrom(h, 0)
  }

  /** The `header.windows(4).enumerate()` scan: returns the index of the first
      window equal to `\r\n\r\n`. */
  method ScanTerminator(h: seq<byte>) returns (found: Option<nat>)
    ensures found == FirstTerminator(h)
  {
    var i := 0;
    while i + 4 <= |h|
      invariant TerminatorFrom(h, i) == FirstTerminator(h)
      decreases |h| - i
    {
      if h[i..i + 4] == Terminator {
        return Some(i);
      }
      i := i + 1;
    }
    return None;
  }

  /** Cutting a buffer right after its first terminator leaves a header that
      ends with `\r\n\r\n` and holds no earlier one. */
  lemma CutAtFirstTerminator(h: seq<byte>, i: nat)
    requires FirstTerminator(h) == Some(i)
    ensures i + 4 <= |h|
    ensures h[..i + 4][i..] == Terminator
    ensures FirstTerminator(h[..i + 4]) == Some(i)
  {
    var cut := h[..i + 4];
    assert TerminatorAt(cut, i) by { assert cut[i..i + 4] == h[i..i + 4]; }
    forall j | 0 <= j < i
      ensures !TerminatorAt(cut, j)
    {
      assert !TerminatorAt(h, j);
      assert cut[j..j + 4] == h[j..j + 4];
    }
    TerminatorUnique(cut, i);
  }

  /** A terminator with none before it is the one the scan finds. */
  lemma TerminatorUnique(h: seq<byte>, i: nat)
    requires TerminatorAt(h, i)
    requires forall j | 0 <= j < i :: !TerminatorAt(h, j)
    ensures FirstTerminator(h) == Some(i)
  {
  }

  /** Appending bytes never moves the first terminator already present. */
  lemma TerminatorPersists(h: seq<byte>, extra: seq<byte>)
    requires FirstTerminator(h).Some?
    ensures FirstTerminator(h + extra) == FirstTerminator(h)
  {
    var i := FirstTerminator(h).value;
    var longer := h + extra;
    assert longer[i..i + 4] == h[i..i + 4];
    forall j | 0 <= j < i
      ensures !TerminatorAt(longer, j)
    {
      assert !TerminatorAt(h, j);
      assert longer[j..j + 4] == h[j..j + 4];
    }
    TerminatorUnique(longer, i);
  }

  /** The header as the filter keeps it: up to and including the first
      terminator, or everything when there is none. */
  function HeaderPart(bytes: seq<byte>): seq<byte>
  {
    match FirstTerminator(bytes)
    case Some(i) => bytes[..i + 4]
    case None => bytes
  }

  /** The bytes after the first terminator, which start the body. */
  function BodyPart(bytes: seq<byte>): seq<byte>
  {
    match FirstTerminator(bytes)
    case Some(i) => bytes[i + 4..]
    case None => []
  }

  /** Header and body part put back together give the bytes they came from. */
  lemma HeaderBodyRejoin(bytes: seq<byte>)
    ensures HeaderPart(bytes) + BodyPart(bytes) == bytes
  {
    match FirstTerminator(bytes)
    case Some(i) =>
      assert bytes[..i + 4] + bytes[i + 4..] == bytes;
    case None =>
  }

  // ---------------------------------------------------------------------------
  // Field extraction

  const LengthName: seq<byte> := Ascii("Content-Length: ")
  const LowerLengthName: seq<byte> := Ascii("content-length: ")
  const TypeName: seq<byte> := Ascii("Content-Type: ")
  const LowerTypeName: seq<byte> := Ascii("content-type: ")

  /** A line whose Content-Length the loop looks at: canonical or all-lowercase
      name, followed by `": "`; no other spelling. */
  predicate IsLengthLine(line: seq<byte>)
  {
    StartsWith(line, LengthName) || StartsWith(line, LowerLengthName)
  }

  predicate IsTypeLine(line: seq<byte>)
  {
    StartsWith(line, TypeName) || StartsWith(line, LowerTypeName)
  }

  /** `line[16..line.len() - 1]` panics on these: the name and nothing after it. */
  predicate BareLengthLine(line: seq<byte>)
  {
    IsLengthLine(line) && |line| < 17
  }

  predicate BareTypeLine(line: seq<byte>)
  {
    IsTypeLine(line) && |line| < 15
  }

  /** The Content-Length a single line yields: its bytes from column 16 up to,
      not including, its last byte, when they are UTF-8 and a `usize`. */
  function LengthAt(line: seq<byte>): (r: Option<nat>)
    ensures r.Some? ==> IsLengthLine(line) && |line| >= 17 && r.value <= UsizeMax
  {
    if IsLengthLine(line) && |line| >= 17 then
      var v := line[16..|line| - 1];
      if ValidUtf8(v) then ParseUsize(v) else None
    else None
  }

  /** The Content-Type a single line yields: its bytes from column 14 up to,
      not including, its last byte, when they are UTF-8. */
  function TypeAt(line: seq<byte>): (r: Option<seq<byte>>)
    ensures r.Some? ==> IsTypeLine(line) && |line| >= 15 && ValidUtf8(r.value)
  {
    if IsTypeLine(line) && |line| >= 15 then
      var v := line[14..|line| - 1];
      if ValidUtf8(v) then Some(v) else None
    else None
  }

  datatype Fields = Fields(contentLength: Option<nat>, contentType: Option<seq<byte>>)

  /** Result of the extraction loop; `SlicePanic` is the index panic at
      `line[16..line.len() - 1]` or `line[14..line.len() - 1]`. */
  datatype Extraction = Extracted(fields: Fields) | SlicePanic

  /** The extraction loop from line `i` on, with the two options as they stand. */
  function ExtractFrom(lines: seq<seq<byte>>, i: nat, cl: Option<nat>, ct: Option<seq<byte>>): (r: Extraction)
    requires i <= |lines|
    ensures r.Extracted? && cl.Some? ==> r.fields.contentLength == cl
    ensures r.Extracted? && ct.Some? ==> r.fields.contentType == ct
    ensures r.Extracted? && cl.None? && r.fields.contentLength.Some? ==> r.fields.contentLength.value <= UsizeMax
    ensures r.Extracted? && ct.None? && r.fields.contentType.Some? ==> ValidUtf8(r.fields.contentType.value)
    decreases |lines| - i
  {
    if i == |lines| || (cl.Some? && ct.Some?) then Extracted(Fields(cl, ct))
    else
      var line := lines[i];
      if cl.None? && BareLengthLine(line) then SlicePanic
      else
        var cl' := if cl.None? && IsLengthLine(line) then LengthAt(line) else cl;
        if ct.None? && BareTypeLine(line) then SlicePanic
        else
          var ct' := if ct.None? && IsTypeLine(line) then TypeAt(line) else ct;
          ExtractFrom(lines, i + 1, cl', ct')
  }

  /** The extraction loop over the header's lines: a Content-Length it finds
      fits a `usize` and a Content-Type it finds is UTF-8 text. */
  function Extract(header: seq<byte>): (r: Extraction)
    ensures r.Extracted? && r.fields.contentLength.Some? ==> r.fields.contentLength.value <= UsizeMax
    ensures r.Extracted? && r.fields.contentType.Some? ==> ValidUtf8(r.fields.contentType.value)
  {
    ExtractFrom(SplitLines(header), 0, None, None)
  }

  /** The `for line in header.split(..)` loop over mutable `content_length`
      and `content_type` options. */
  method ExtractFields(header: seq<byte>) returns (e: Extraction)
    ensures e == Extract(header)
  {
    var lines := SplitLines(header);
    e := ExtractLines(lines);
  }

  /** The loop itself, over the lines of the header. */
  method ExtractLines(lines: seq<seq<byte>>) returns (e: Extraction)
    ensures e == ExtractFrom(lines, 0, None, None)
  {
    var contentLength: Option<nat> := None;
    var contentType: Option<seq<byte>> := None;
    var i := 0;
    while i < |lines|
      invariant i <= |lines|
      invariant ExtractFrom(lines, i, contentLength, contentType) == ExtractFrom(lines, 0, None, None)
      decreases |lines| - i
    {
      if contentLength.Some? && contentType.Some? {
        break;
      }
      var panics, cl, ct := ScanLineAt(lines, i, contentLength, contentType);
      if panics {
        return SlicePanic;
      }
      contentLength, contentType := cl, ct;
      i := i + 1;
    }
    ExtractFromDone(lines, i, contentLength, contentType);
    return Extracted(Fields(contentLength, contentType));
  }

  /** `ScanLine` on line `i`, seen from the loop: it panics where the
      extraction does, and otherwise the rest of the extraction goes on from
      line `i + 1` with the fields it leaves. */
  method ScanLineAt(lines: seq<seq<byte>>, i: nat, contentLength: Option<nat>, contentType: Option<seq<byte>>)
    returns (panics: bool, cl: Option<nat>, ct: Option<seq<byte>>)
    requires i < |lines| && !(contentLength.Some? && contentType.Some?)
    ensures panics ==> ExtractFrom(lines, i, contentLength, contentType) == SlicePanic
    ensures !panics ==> ExtractFrom(lines, i, contentLength, contentType) == ExtractFrom(lines, i + 1, cl, ct)
  {
    panics, cl, ct := ScanLine(lines[i], contentLength, contentType);
    if panics {
      ExtractFromPanics(lines, i, contentLength, contentType);
    } else {
      ExtractFromStep(lines, i, contentLength, contentType, cl, ct);
    }
  }

  /** The body of the extraction loop for one line: a field line fills the
      field if it is still unset, and a field line too short for the value
      slice panics. */
  method ScanLine(line: seq<byte>, contentLength: Option<nat>, contentType: Option<seq<byte>>)
    returns (panics: bool, cl: Option<nat>, ct: Option<seq<byte>>)
    ensures panics <==> (contentLength.None? && BareLengthLine(line)) || (contentType.None? && BareTypeLine(line))
    ensures !panics ==> cl == if contentLength.None? && IsLengthLine(line) then LengthAt(line) else contentLength
    ensures !panics ==> ct == if contentType.None? && IsTypeLine(line) then TypeAt(line) else contentType
  {
    cl, ct := contentLength, contentType;
    if contentLength.None? && IsLengthLine(line) {
      if |line| < 17 {
        return true, cl, ct;
      }
      var value := line[16..|line| - 1];
      cl := if ValidUtf8(value) then ParseUsize(value) else None;
    }
    if contentType.None? && IsTypeLine(line) {
      if |line| < 15 {
        return true, cl, ct;
      }
      var value := line[14..|line| - 1];
      ct := if ValidUtf8(value) then Some(value) else None;
    }
    return false, cl, ct;
  }

  /** One line of the extraction loop that does not panic. */
  lemma ExtractFromStep(lines: seq<seq<byte>>, i: nat, cl: Option<nat>, ct: Option<seq<byte>>,
                         cl': Option<nat>, ct': Option<seq<byte>>)
    requires i < |lines| && !(cl.Some? && ct.Some?)
    requires !(cl.None? && BareLengthLine(lines[i])) && !(ct.None? && BareTypeLine(lines[i]))
    requires cl' == if cl.None? && IsLengthLine(lines[i]) then LengthAt(lines[i]) else cl
    requires ct' == if ct.None? && IsTypeLine(lines[i]) then TypeAt(lines[i]) else ct
    ensures ExtractFrom(lines, i, cl, ct) == ExtractFrom(lines, i + 1, cl', ct')
  {
  }

  /** A field line too short for its slice panics while its field is unset. */
  lemma ExtractFromPanics(lines: seq<seq<byte>>, i: nat, cl: Option<nat>, ct: Option<seq<byte>>)
    requires i < |lines| && !(cl.Some? && ct.Some?)
    requires (cl.None? && BareLengthLine(lines[i])) || (ct.None? && BareTypeLine(lines[i]))
    ensures ExtractFrom(lines, i, cl, ct) == SlicePanic
  {
  }

  /** The loop ends with the fields as they stand once the lines run out or
      both fields are set. */
  lemma ExtractFromDone(lines: seq<seq<byte>>, i: nat, cl: Option<nat>, ct: Option<seq<byte>>)
    requires i <= |lines| && (i == |lines| || (cl.Some? && ct.Some?))
    ensures ExtractFrom(lines, i, cl, ct) == Extracted(Fields(cl, ct))
  {
  }

  /** Line `j` is where the loop panics, given where it started: the field the
      line names is still unset there. */
  ghost predicate PanicsAt(lines: seq<seq<byte>>, i: nat, j: nat, cl: Option<nat>, ct: Option<seq<byte>>)
    requires i <= j < |lines|
  {
    (cl.None? && BareLengthLine(lines[j]) && forall k | i <= k < j :: LengthAt(lines[k]).None?)
    || (ct.None? && BareTypeLine(lines[j]) && forall k | i <= k < j :: TypeAt(lines[k]).None?)
  }

  /** The first line, at or after `i`, that yields a Content-Length. */
  ghost predicate FirstLengthLine(lines: seq<seq<byte>>, i: nat, j: int)
  {
    i <= j < |lines| && LengthAt(lines[j]).Some? &&
    forall k | i <= k < j :: LengthAt(lines[k]).None?
  }

  ghost predicate FirstTypeLine(lines: seq<seq<byte>>, i: nat, j: int)
  {
    i <= j < |lines| && TypeAt(lines[j]).Some? &&
    forall k | i <= k < j :: TypeAt(lines[k]).None?
  }

  /** The general form of the extraction theorem below: its panic half and its
      fields half. */
  lemma ExtractFromSpec(lines: seq<seq<byte>>, i: nat, cl: Option<nat>, ct: Option<seq<byte>>)
    requires i <= |lines|
    ensures ExtractFrom(lines, i, cl, ct).SlicePanic? <==>
              exists j | i <= j < |lines| :: PanicsAt(lines, i, j, cl, ct)
    ensures ExtractFrom(lines, i, cl, ct).Extracted? ==>
      var f := ExtractFrom(lines, i, cl, ct).fields;
      (cl.Some? ==> f.contentLength == cl) &&
      (ct.Some? ==> f.contentType == ct) &&
      (cl.None? ==> (f.contentLength.None? <==> forall j | i <= j < |lines| :: LengthAt(lines[j]).None?)) &&
      (cl.None? ==> forall n :: f.contentLength == Some(n) <==>
                      exists j :: FirstLengthLine(lines, i, j) && LengthAt(lines[j]) == Some(n)) &&
      (ct.None? ==> (f.contentType.None? <==> forall j | i <= j < |lines| :: TypeAt(lines[j]).None?)) &&
      (ct.None? ==> forall t :: f.contentType == Some(t) <==>
                      exists j :: FirstTypeLine(lines, i, j) && TypeAt(lines[j]) == Some(t))
  {
    PanicSpec(lines, i, cl, ct);
    FieldsSpec(lines, i, cl, ct);
  }

  /** From any line and field state, the loop panics exactly at a line that
      `PanicsAt` describes; by induction on the lines still to be read. */
  lemma {:induction false} PanicSpec(lines: seq<seq<byte>>, i: nat, cl: Option<nat>, ct: Option<seq<byte>>)
    requires i <= |lines|
    ensures ExtractFrom(lines, i, cl, ct).SlicePanic? <==>
              exists j | i <= j < |lines| :: PanicsAt(lines, i, j, cl, ct)
    decreases |lines| - i
  {
    if i == |lines| {
    } else if cl.Some? && ct.Some? {
    } else {
      var line := lines[i];
      if (cl.None? && BareLengthLine(line)) || (ct.None? && BareTypeLine(line)) {
        ExtractFromPanics(lines, i, cl, ct);
        assert PanicsAt(lines, i, i, cl, ct);
      } else {
        var cl' := if cl.None? && IsLengthLine(line) then LengthAt(line) else cl;
        var ct' := if ct.None? && IsTypeLine(line) then TypeAt(line) else ct;
        PanicSpec(lines, i + 1, cl', ct');
        PanicStep(lines, i, i + 1, cl, ct, cl', ct');
      }
    }
  }

  /** A line that does not panic passes the panic claim from line `i + 1` back
      to line `i`. */
  lemma PanicStep(lines: seq<seq<byte>>, i: nat, next: nat, cl: Option<nat>, ct: Option<seq<byte>>,
                  cl': Option<nat>, ct': Option<seq<byte>>)
    requires i < |lines| && next == i + 1 && !(cl.Some? && ct.Some?)
    requires !(cl.None? && BareLengthLine(lines[i])) && !(ct.None? && BareTypeLine(lines[i]))
    requires cl' == if cl.None? && IsLengthLine(lines[i]) then LengthAt(lines[i]) else cl
    requires ct' == if ct.None? && IsTypeLine(lines[i]) then TypeAt(lines[i]) else ct
    requires ExtractFrom(lines, next, cl', ct').SlicePanic? <==>
               exists j | next <= j < |lines| :: PanicsAt(lines, next, j, cl', ct')
    ensures ExtractFrom(lines, i, cl, ct).SlicePanic? <==>
              exists j | i <= j < |lines| :: PanicsAt(lines, i, j, cl, ct)
  {
    ExtractFromStep(lines, i, cl, ct, cl', ct');
    assert cl.None? ==> cl' == LengthAt(lines[i]);
    assert ct.None? ==> ct' == TypeAt(lines[i]);
    PanicShift(lines, i, next, cl, ct, cl', ct');
  }

  /** From any line and field state, a set field is kept, and an unset field
      ends as the value of the first line that yields it, or absent when none
      does. */
  lemma FieldsSpec(lines: seq<seq<byte>>, i: nat, cl: Option<nat>, ct: Option<seq<byte>>)
    requires i <= |lines|
    ensures ExtractFrom(lines, i, cl, ct).Extracted? ==>
      var f := ExtractFrom(lines, i, cl, ct).fields;
      (cl.Some? ==> f.contentLength == cl) &&
      (ct.Some? ==> f.contentType == ct) &&
      (cl.None? ==> (f.contentLength.None? <==> forall j | i <= j < |lines| :: LengthAt(lines[j]).None?)) &&
      (cl.None? ==> forall n :: f.contentLength == Some(n) <==>
                      exists j :: FirstLengthLine(lines, i, j) && LengthAt(lines[j]) == Some(n)) &&
      (ct.None? ==> (f.contentType.None? <==> forall j | i <= j < |lines| :: TypeAt(lines[j]).None?)) &&
      (ct.None? ==> forall t :: f.contentType == Some(t) <==>
                      exists j :: FirstTypeLine(lines, i, j) && TypeAt(lines[j]) == Some(t))
  {
    LengthSpec(lines, i, cl, ct);
    TypeSpec(lines, i, cl, ct);
  }

  /** What the loop makes of Content-Length from line `i` on, if it does not
      panic: a set value is kept; an unset one ends as the value of the first
      line that yields one, or absent when no line does. */
  ghost predicate LengthFound(lines: seq<seq<byte>>, i: nat, cl: Option<nat>, ct: Option<seq<byte>>)
    requires i <= |lines|
  {
    ExtractFrom(lines, i, cl, ct).Extracted? ==>
      var v := ExtractFrom(lines, i, cl, ct).fields.contentLength;
      (cl.Some? ==> v == cl) &&
      (cl.None? ==> (v.None? <==> forall j | i <= j < |lines| :: LengthAt(lines[j]).None?)) &&
      (cl.None? ==> forall n :: v == Some(n) <==>
                      exists j :: FirstLengthLine(lines, i, j) && LengthAt(lines[j]) == Some(n))
  }

  /** The same for Content-Type. */
  ghost predicate TypeFound(lines: seq<seq<byte>>, i: nat, cl: Option<nat>, ct: Option<seq<byte>>)
    requires i <= |lines|
  {
    ExtractFrom(lines, i, cl, ct).Extracted? ==>
      var v := ExtractFrom(lines, i, cl, ct).fields.contentType;
      (ct.Some? ==> v == ct) &&
      (ct.None? ==> (v.None? <==> forall j | i <= j < |lines| :: TypeAt(lines[j]).None?)) &&
      (ct.None? ==> forall t :: v == Some(t) <==>
                      exists j :: FirstTypeLine(lines, i, j) && TypeAt(lines[j]) == Some(t))
  }

  /** The Content-Length half of `FieldsSpec`, by induction on the lines still
      to be read. */
  lemma {:induction false} LengthSpec(lines: seq<seq<byte>>, i: nat, cl: Option<nat>, ct: Option<seq<byte>>)
    requires i <= |lines|
    ensures LengthFound(lines, i, cl, ct)
    decreases |lines| - i
  {
    if i < |lines| && !(cl.Some? && ct.Some?) {
      var line := lines[i];
      if !(cl.None? && BareLengthLine(line)) && !(ct.None? && BareTypeLine(line)) {
        var cl' := if cl.None? && IsLengthLine(line) then LengthAt(line) else cl;
        var ct' := if ct.None? && IsTypeLine(line) then TypeAt(line) else ct;
        LengthSpec(lines, i + 1, cl', ct');
        LengthStep(lines, i, cl, ct, cl', ct');
      }
    }
  }

  /** A line that does not panic passes `LengthFound` from line `i + 1` back
      to line `i`. */
  lemma LengthStep(lines: seq<seq<byte>>, i: nat, cl: Option<nat>, ct: Option<seq<byte>>,
                   cl': Option<nat>, ct': Option<seq<byte>>)
    requires i < |lines| && !(cl.Some? && ct.Some?)
    requires !(cl.None? && BareLengthLine(lines[i])) && !(ct.None? && BareTypeLine(lines[i]))
    requires cl' == if cl.None? && IsLengthLine(lines[i]) then LengthAt(lines[i]) else cl
    requires ct' == if ct.None? && IsTypeLine(lines[i]) then TypeAt(lines[i]) else ct
    requires LengthFound(lines, i + 1, cl', ct')
    ensures LengthFound(lines, i, cl, ct)
  {
    ExtractFromStep(lines, i, cl, ct, cl', ct');
    assert cl.None? ==> cl' == LengthAt(lines[i]);
    if ExtractFrom(lines, i, cl, ct).Extracted? && cl.None? {
      LengthShift(lines, i, ExtractFrom(lines, i, cl, ct).fields.contentLength);
    }
  }

  /** The Content-Type half of `FieldsSpec`, by induction on the lines still
      to be read. */
  lemma {:induction false} TypeSpec(lines: seq<seq<byte>>, i: nat, cl: Option<nat>, ct: Option<seq<byte>>)
    requires i <= |lines|
    ensures TypeFound(lines, i, cl, ct)
    decreases |lines| - i
  {
    if i < |lines| && !(cl.Some? && ct.Some?) {
      var line := lines[i];
      if !(cl.None? && BareLengthLine(line)) && !(ct.None? && BareTypeLine(line)) {
        var cl' := if cl.None? && IsLengthLine(line) then LengthAt(line) else cl;
        var ct' := if ct.None? && IsTypeLine(line) then TypeAt(line) else ct;
        TypeSpec(lines, i + 1, cl', ct');
        TypeStep(lines, i, cl, ct, cl', ct');
      }
    }
  }

  /** A line that does not panic passes `TypeFound` from line `i + 1` back to
      line `i`. */
  lemma TypeStep(lines: seq<seq<byte>>, i: nat, cl: Option<nat>, ct: Option<seq<byte>>,
                 cl': Option<nat>, ct': Option<seq<byte>>)
    requires i < |lines| && !(cl.Some? && ct.Some?)
    requires !(cl.None? && BareLengthLine(lines[i])) && !(ct.None? && BareTypeLine(lines[i]))
    requires cl' == if cl.None? && IsLengthLine(lines[i]) then LengthAt(lines[i]) else cl
    requires ct' == if ct.None? && IsTypeLine(lines[i]) then TypeAt(lines[i]) else ct
    requires TypeFound(lines, i + 1, cl', ct')
    ensures TypeFound(lines, i, cl, ct)
  {
    ExtractFromStep(lines, i, cl, ct, cl', ct');
    assert ct.None? ==> ct' == TypeAt(lines[i]);
    if ExtractFrom(lines, i, cl, ct).Extracted? && ct.None? {
      TypeShift(lines, i, ExtractFrom(lines, i, cl, ct).fields.contentType);
    }
  }

  /** The panic condition seen from line `i` equals the one seen from `i + 1`
      with the options as line `i` leaves them (when line `i` itself is fine). */
  lemma PanicShift(lines: seq<seq<byte>>, i: nat, next: nat, cl: Option<nat>, ct: Option<seq<byte>>,
                   cl': Option<nat>, ct': Option<seq<byte>>)
    requires i < |lines| && next == i + 1
    requires !(cl.None? && BareLengthLine(lines[i])) && !(ct.None? && BareTypeLine(lines[i]))
    requires cl.None? ==> cl' == LengthAt(lines[i])
    requires cl.Some? ==> cl' == cl
    requires ct.None? ==> ct' == TypeAt(lines[i])
    requires ct.Some? ==> ct' == ct
    ensures (exists j | i <= j < |lines| :: PanicsAt(lines, i, j, cl, ct)) <==>
            (exists j | next <= j < |lines| :: PanicsAt(lines, next, j, cl', ct'))
  {
    if exists j | i <= j < |lines| :: PanicsAt(lines, i, j, cl, ct) {
      var j :| i <= j < |lines| && PanicsAt(lines, i, j, cl, ct);
      PanicLater(lines, i, next, j, cl, ct, cl', ct');
    }
    if exists j | next <= j < |lines| :: PanicsAt(lines, next, j, cl', ct') {
      var j :| next <= j < |lines| && PanicsAt(lines, next, j, cl', ct');
      PanicEarlier(lines, i, next, j, cl, ct, cl', ct');
    }
  }

  lemma PanicLater(lines: seq<seq<byte>>, i: nat, next: nat, j: nat, cl: Option<nat>, ct: Option<seq<byte>>,
                   cl': Option<nat>, ct': Option<seq<byte>>)
    requires i <= j < |lines| && next == i + 1
    requires !(cl.None? && BareLengthLine(lines[i])) && !(ct.None? && BareTypeLine(lines[i]))
    requires cl.None? ==> cl' == LengthAt(lines[i])
    requires cl.Some? ==> cl' == cl
    requires ct.None? ==> ct' == TypeAt(lines[i])
    requires ct.Some? ==> ct' == ct
    requires PanicsAt(lines, i, j, cl, ct)
    ensures next <= j && PanicsAt(lines, next, j, cl', ct')
  {
    if cl.None? && BareLengthLine(lines[j]) && forall k | i <= k < j :: LengthAt(lines[k]).None? {
      assert j != i && LengthAt(lines[i]).None?;
    } else {
      assert j != i && TypeAt(lines[i]).None?;
    }
  }

  lemma PanicEarlier(lines: seq<seq<byte>>, i: nat, next: nat, j: nat, cl: Option<nat>, ct: Option<seq<byte>>,
                     cl': Option<nat>, ct': Option<seq<byte>>)
    requires next <= j < |lines| && next == i + 1
    requires cl.None? ==> cl' == LengthAt(lines[i])
    requires cl.Some? ==> cl' == cl
    requires ct.None? ==> ct' == TypeAt(lines[i])
    requires ct.Some? ==> ct' == ct
    requires PanicsAt(lines, next, j, cl', ct')
    ensures PanicsAt(lines, i, j, cl, ct)
  {
    if cl'.None? && BareLengthLine(lines[j]) && forall k | next <= k < j :: LengthAt(lines[k]).None? {
      assert cl.None? && LengthAt(lines[i]).None?;
    } else {
      assert ct.None? && TypeAt(lines[i]).None?;
    }
  }

  lemma LengthShift(lines: seq<seq<byte>>, i: nat, v: Option<nat>)
    requires i < |lines|
    requires LengthAt(lines[i]).Some? ==> v == LengthAt(lines[i])
    requires LengthAt(lines[i]).None? ==>
      (v.None? <==> forall j | i + 1 <= j < |lines| :: LengthAt(lines[j]).None?) &&
      (forall n :: v == Some(n) <==> exists j :: FirstLengthLine(lines, i + 1, j) && LengthAt(lines[j]) == Some(n))
    ensures v.None? <==> forall j | i <= j < |lines| :: LengthAt(lines[j]).None?
    ensures forall n :: v == Some(n) <==> exists j :: FirstLengthLine(lines, i, j) && LengthAt(lines[j]) == Some(n)
  {
    if LengthAt(lines[i]).Some? {
      assert FirstLengthLine(lines, i, i);
      forall n ensures v == Some(n) <==> exists j :: FirstLengthLine(lines, i, j) && LengthAt(lines[j]) == Some(n) {
        if exists j :: FirstLengthLine(lines, i, j) && LengthAt(lines[j]) == Some(n) {
          var j :| FirstLengthLine(lines, i, j) && LengthAt(lines[j]) == Some(n);
          assert j == i;
        }
      }
    } else {
      forall n ensures v == Some(n) <==> exists j :: FirstLengthLine(lines, i, j) && LengthAt(lines[j]) == Some(n) {
        if exists j :: FirstLengthLine(lines, i, j) && LengthAt(lines[j]) == Some(n) {
          var j :| FirstLengthLine(lines, i, j) && LengthAt(lines[j]) == Some(n);
          assert FirstLengthLine(lines, i + 1, j);
        }
        if exists j :: FirstLengthLine(lines, i + 1, j) && LengthAt(lines[j]) == Some(n) {
          var j :| FirstLengthLine(lines, i + 1, j) && LengthAt(lines[j]) == Some(n);
          assert FirstLengthLine(lines, i, j);
        }
      }
    }
  }

  lemma TypeShift(lines: seq<seq<byte>>, i: nat, v: Option<seq<byte>>)
    requires i < |lines|
    requires TypeAt(lines[i]).Some? ==> v == TypeAt(lines[i])
    requires TypeAt(lines[i]).None? ==>
      (v.None? <==> forall j | i + 1 <= j < |lines| :: TypeAt(lines[j]).None?) &&
      (forall t :: v == Some(t) <==> exists j :: FirstTypeLine(lines, i + 1, j) && TypeAt(lines[j]) == Some(t))
    ensures v.None? <==> forall j | i <= j < |lines| :: TypeAt(lines[j]).None?
    ensures forall t :: v == Some(t) <==> exists j :: FirstTypeLine(lines, i, j) && TypeAt(lines[j]) == Some(t)
  {
    if TypeAt(lines[i]).Some? {
      assert FirstTypeLine(lines, i, i);
      forall t ensures v == Some(t) <==> exists j :: FirstTypeLine(lines, i, j) && TypeAt(lines[j]) == Some(t) {
        if exists j :: FirstTypeLine(lines, i, j) && TypeAt(lines[j]) == Some(t) {
          var j :| FirstTypeLine(lines, i, j) && TypeAt(lines[j]) == Some(t);
          assert j == i;
        }
      }
    } else {
      forall t ensures v == Some(t) <==> exists j :: FirstTypeLine(lines, i, j) && TypeAt(lines[j]) == Some(t) {
        if exists j :: FirstTypeLine(lines, i, j) && TypeAt(lines[j]) == Some(t) {
          var j :| FirstTypeLine(lines, i, j) && TypeAt(lines[j]) == Some(t);
          assert FirstTypeLine(lines, i + 1, j);
        }
        if exists j :: FirstTypeLine(lines, i + 1, j) && TypeAt(lines[j]) == Some(t) {
          var j :| FirstTypeLine(lines, i + 1, j) && TypeAt(lines[j]) == Some(t);
          assert FirstTypeLine(lines, i, j);
        }
      }
    }
  }

  /** Some line panics the loop started on the first line. */
  ghost predicate PanicsSomewhere(lines: seq<seq<byte>>)
  {
    exists j | 0 <= j < |lines| :: PanicsAt(lines, 0, j, None, None)
  }

  /** `n` is the value of the first line that yields a Content-Length. */
  ghost predicate FirstLength(lines: seq<seq<byte>>, n: int)
  {
    exists j :: FirstLengthLine(lines, 0, j) && LengthAt(lines[j]) == Some(n)
  }

  /** `t` is the value of the first line that yields a Content-Type. */
  ghost predicate FirstType(lines: seq<seq<byte>>, t: seq<byte>)
  {
    exists j :: FirstTypeLine(lines, 0, j) && TypeAt(lines[j]) == Some(t)
  }

  /** What the extraction loop computes, stated without the loop: it panics
      exactly when a bare `Content-Length: ` (`Content-Type: `) line comes
      before any line that yields that field; otherwise each field is the value
      of the first line that yields it, and absent when no line does. */
  lemma ExtractionCharacterised(header: seq<byte>)
    ensures Extract(header).SlicePanic? <==> PanicsSomewhere(SplitLines(header))
    ensures Extract(header).Extracted? ==>
      (forall n :: Extract(header).fields.contentLength == Some(n) <==> FirstLength(SplitLines(header), n)) &&
      (forall t :: Extract(header).fields.contentType == Some(t) <==> FirstType(SplitLines(header), t))
  {
    var lines := SplitLines(header);
    var e := ExtractFrom(lines, 0, None, None);
    assert Extract(header) == e;
    ExtractFromSpec(lines, 0, None, None);
    assert e.SlicePanic? <==> PanicsSomewhere(lines);
    if e.Extracted? {
      forall n
        ensures e.fields.contentLength == Some(n) <==> FirstLength(lines, n)
      {
      }
      forall t
        ensures e.fields.contentType == Some(t) <==> FirstType(lines, t)
      {
      }
    }
  }

  /** The UTF-8 step before `usize::from_str` never rejects a value that the
      parse accepts: a Content-Length line counts exactly when its value text
      parses. */
  lemma LengthIgnoresUtf8Check(line: seq<byte>)
    requires IsLengthLine(line) && |line| >= 17
    ensures LengthAt(line) == ParseUsize(line[16..|line| - 1])
  {
    var v := line[16..|line| - 1];
    if ParseUsize(v).Some? {
      AsciiIsUtf8(v);
    }
  }

  /** Mixed-case field names are never matched. */
  lemma MixedCaseIgnored(line: seq<byte>)
    requires |line| >= 16 && line[..16] == Ascii("Content-length: ")
    ensures LengthAt(line) == None && !BareLengthLine(line)
  {
    assert line[8] != LengthName[8];
    assert line[0] != LowerLengthName[0];
  }

  // ---------------------------------------------------------------------------
  // Media type gate

  const ActivityJson: seq<byte> := Ascii("application/activity+json")
  const LdJson: seq<byte> := Ascii("application/ld+json")

  /** Both media types are `application/` ones, the shorter being `ld+json`. */
  lemma ApplicationPrefix()
    ensures |ActivityJson| >= |LdJson| >= 12 && ActivityJson[..12] == LdJson[..12]
  {
    forall i | 0 <= i < 12
      ensures ActivityJson[i] == LdJson[i]
    {
    }
  }

  /** The two media types the inbox serves; anything after them (parameters
      such as `; profile=...`) is not looked at. An accepted value is at least
      as long as `application/ld+json` and starts with `application/`. */
  predicate ContentTypeOk(contentType: seq<byte>)
    ensures ContentTypeOk(contentType) ==>
      |contentType| >= |LdJson| && StartsWith(contentType, LdJson[..12])
  {
    ApplicationPrefix();
    StartsWith(contentType, ActivityJson) || StartsWith(contentType, LdJson)
  }

  /** Only the start of the media type is looked at: whatever follows an
      accepted type, such as `; charset=utf-8` or a profile parameter, keeps
      it accepted. */
  lemma ContentTypeParametersIgnored(contentType: seq<byte>, rest: seq<byte>)
    requires ContentTypeOk(contentType)
    ensures ContentTypeOk(contentType + rest)
  {
    var p := if StartsWith(contentType, ActivityJson) then ActivityJson else LdJson;
    assert (contentType + rest)[..|p|] == contentType[..|p|];
  }
}
