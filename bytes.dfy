/** Byte strings and the small pieces of the Rust standard library the filter leans on:
    `starts_with`, `str::from_utf8`, `usize::from_str` and `<[u8]>::split`. */
module Bytes {

  datatype Option<+T> = None | Some(value: T)

  newtype byte = b: int | 0 <= b < 256

  const LF: byte := 10
  const CR: byte := 13
  const PLUS: byte := 43
  const ZERO: byte := 48

  /** The bytes of an ASCII string literal (`b"..."` in the source). */
  function Ascii(s: string): (r: seq<byte>)
    requires forall i | 0 <= i < |s| :: s[i] as int < 128
    ensures |r| == |s|
    ensures forall i | 0 <= i < |s| :: r[i] as int == s[i] as int
  {
    seq(|s|, i requires 0 <= i < |s| => s[i] as int as byte)
  }

  predicate StartsWith(s: seq<byte>, prefix: seq<byte>)
  {
    |prefix| <= |s| && s[..|prefix|] == prefix
  }

  // ---------------------------------------------------------------------------
  // UTF-8 validity, as `std::str::from_utf8` decides it (Unicode Table 3-7:
  // no overlong forms, no surrogates, nothing above U+10FFFF).

  predicate Continuation(b: byte) { 0x80 <= b <= 0xBF }

  /** Width of the well-formed UTF-8 sequence that starts `s`, or 0 when `s`
      does not start with one. */
  function CharWidth(s: seq<byte>): (w: nat)
    ensures w <= |s|
    ensures |s| > 0 && s[0] < 0x80 ==> w == 1
    ensures |s| > 0 && Continuation(s[0]) ==> w == 0
    ensures w == 1 ==> s[0] < 0x80
    ensures w >= 2 ==> Continuation(s[w - 1])
  {
    if |s| == 0 then 0
    else if s[0] < 0x80 then 1
    else if 0xC2 <= s[0] <= 0xDF then
      if |s| >= 2 && Continuation(s[1]) then 2 else 0
    else if s[0] == 0xE0 then
      if |s| >= 3 && 0xA0 <= s[1] <= 0xBF && Continuation(s[2]) then 3 else 0
    else if (0xE1 <= s[0] <= 0xEC) || (0xEE <= s[0] <= 0xEF) then
      if |s| >= 3 && Continuation(s[1]) && Continuation(s[2]) then 3 else 0
    else if s[0] == 0xED then
      if |s| >= 3 && 0x80 <= s[1] <= 0x9F && Continuation(s[2]) then 3 else 0
    else if s[0] == 0xF0 then
      if |s| >= 4 && 0x90 <= s[1] <= 0xBF && Continuation(s[2]) && Continuation(s[3]) then 4 else 0
    else if 0xF1 <= s[0] <= 0xF3 then
      if |s| >= 4 && Continuation(s[1]) && Continuation(s[2]) && Continuation(s[3]) then 4 else 0
    else if s[0] == 0xF4 then
      if |s| >= 4 && 0x80 <= s[1] <= 0x8F && Continuation(s[2]) && Continuation(s[3]) then 4 else 0
    else 0
  }

  /** Every byte after the first of a well-formed sequence is a continuation
      byte. */
  lemma Continuations(s: seq<byte>)
    ensures forall j | 1 <= j < CharWidth(s) :: Continuation(s[j])
  {
  }

  /** `std::str::from_utf8(s).is_ok()`. Valid text does not start with a
      continuation byte, and its last byte is ASCII or a continuation byte;
      `WholeCharacters` says that no character in it is cut short. */
  predicate ValidUtf8(s: seq<byte>)
    ensures ValidUtf8(s) && s != [] ==> !Continuation(s[0])
    ensures ValidUtf8(s) && s != [] ==> s[|s| - 1] < 0x80 || Continuation(s[|s| - 1])
    decreases |s|
  {
    s == [] || (CharWidth(s) > 0 && ValidUtf8(s[CharWidth(s)..]))
  }

  /** Valid text is made of whole characters: every byte of it that is not a
      continuation byte starts a complete, well-formed sequence. So a lead
      byte whose sequence is cut short, as in `[0xE2, 0x82]`, is never valid,
      wherever it stands. */
  lemma {:induction false} WholeCharacters(s: seq<byte>)
    requires ValidUtf8(s)
    ensures forall i | 0 <= i < |s| && !Continuation(s[i]) :: CharWidth(s[i..]) > 0
    decreases |s|
  {
    if s != [] {
      var w := CharWidth(s);
      WholeCharacters(s[w..]);
      Continuations(s);
      forall i | 0 <= i < |s| && !Continuation(s[i])
        ensures CharWidth(s[i..]) > 0
      {
        if i == 0 {
          assert s[i..] == s;
        } else if i >= w {
          SuffixOfSuffix(s, w, i);
        }
      }
    }
  }

  lemma SuffixOfSuffix(s: seq<byte>, w: nat, i: nat)
    requires w <= i <= |s|
    ensures s[w..][i - w..] == s[i..]
  {
  }

  predicate IsAscii(s: seq<byte>)
  {
    forall i | 0 <= i < |s| :: s[i] < 0x80
  }

  /** Every ASCII byte string is valid UTF-8: the text that `usize::from_str`
      accepts never fails the `from_utf8` step before it. */
  lemma {:induction false} AsciiIsUtf8(s: seq<byte>)
    requires IsAscii(s)
    ensures ValidUtf8(s)
    decreases |s|
  {
    if s != [] {
      AsciiIsUtf8(s[1..]);
    }
  }

  // ---------------------------------------------------------------------------
  // `usize::from_str` (radix 10) on a 64-bit target.

  const UsizeMax: nat := 0xFFFF_FFFF_FFFF_FFFF

  predicate IsDigit(b: byte) { ZERO <= b <= ZERO + 9 }

  predicate AllDigits(s: seq<byte>)
  {
    forall i | 0 <= i < |s| :: IsDigit(s[i])
  }

  /** The unbounded value of a string of decimal digits, most significant first. */
  function DigitsValue(s: seq<byte>): nat
    requires AllDigits(s)
    decreases |s|
  {
    if s == [] then 0 else DigitsValue(s[..|s| - 1]) * 10 + (s[|s| - 1] - ZERO) as nat
  }

  /** `usize::from_str`: one optional leading `+`, then at least one decimal
      digit and nothing else; a value above `usize::MAX` is an error. */
  function ParseUsize(s: seq<byte>): (r: Option<nat>)
    ensures r.Some? ==> r.value <= UsizeMax && |s| > 0 && IsAscii(s)
  {
    var digits := if |s| > 0 && s[0] == PLUS then s[1..] else s;
    if digits == [] || !AllDigits(digits) then None
    else if DigitsValue(digits) > UsizeMax then None
    else Some(DigitsValue(digits))
  }

  /** The shortest decimal rendering of `n`. */
  function Decimal(n: nat): (r: seq<byte>)
    ensures |r| > 0 && AllDigits(r)
    decreases n
  {
    (if n < 10 then [] else Decimal(n / 10)) + [ZERO + (n % 10) as byte]
  }

  lemma {:induction false} DecimalValue(n: nat)
    ensures DigitsValue(Decimal(n)) == n
    decreases n
  {
    var d := Decimal(n);
    assert d[..|d| - 1] == (if n < 10 then [] else Decimal(n / 10));
    if n >= 10 {
      DecimalValue(n / 10);
    }
  }

  /** `n.to_string().parse::<usize>()` gives back `n`, with or without a
      leading `+`, exactly for the values that fit a `usize`. */
  lemma ParseDecimalRoundTrip(n: nat)
    ensures ParseUsize(Decimal(n)) == (if n <= UsizeMax then Some(n) else None)
    ensures ParseUsize([PLUS] + Decimal(n)) == (if n <= UsizeMax then Some(n) else None)
  {
    DecimalValue(n);
    assert ([PLUS] + Decimal(n))[1..] == Decimal(n);
  }

  /** A `-` sign is never accepted for an unsigned integer. */
  lemma NoMinusSign(s: seq<byte>)
    requires |s| > 0 && s[0] == 45
    ensures ParseUsize(s) == None
  {
  }

  // ---------------------------------------------------------------------------
  // `<[u8]>::split(|&x| x == b'\n')`

  /** The pieces between newline bytes; n newlines give n + 1 pieces. */
  function SplitLines(h: seq<byte>): (lines: seq<seq<byte>>)
    ensures |lines| >= 1
    ensures forall i | 0 <= i < |lines| :: LF !in lines[i]
    decreases |h|
  {
    if h == [] then [[]]
    else if h[0] == LF then [[]] + SplitLines(h[1..])
    else
      var rest := SplitLines(h[1..]);
      [[h[0]] + rest[0]] + rest[1..]
  }

  /** Lines joined back with newline bytes between them. */
  function JoinLines(lines: seq<seq<byte>>): seq<byte>
    requires |lines| >= 1
    decreases |lines|
  {
    if |lines| == 1 then lines[0] else lines[0] + [LF] + JoinLines(lines[1..])
  }

  /** Splitting loses no byte: the pieces and the separators give back the header. */
  lemma {:induction false} JoinSplitLines(h: seq<byte>)
    ensures JoinLines(SplitLines(h)) == h
    decreases |h|
  {
    if h == [] {
    } else if h[0] == LF {
      JoinSplitLines(h[1..]);
      assert SplitLines(h)[1..] == SplitLines(h[1..]);
    } else {
      var rest := SplitLines(h[1..]);
      JoinSplitLines(h[1..]);
      if |rest| == 1 {
        assert JoinLines(SplitLines(h)) == [h[0]] + rest[0];
      } else {
        assert SplitLines(h)[1..] == rest[1..];
        assert JoinLines(rest) == rest[0] + [LF] + JoinLines(rest[1..]);
      }
    }
  }

  /** Splitting is the only way to cut a header into newline-free pieces. */
  lemma {:induction false} SplitJoinLines(lines: seq<seq<byte>>)
    requires |lines| >= 1
    requires forall i | 0 <= i < |lines| :: LF !in lines[i]
    ensures SplitLines(JoinLines(lines)) == lines
    decreases |lines|, |lines[0]|
  {
    var first := lines[0];
    if |lines| == 1 {
      if first != [] {
        var tail := [first[1..]];
        SplitJoinLines(tail);
        assert JoinLines(tail) == first[1..];
        assert first[0] != LF by { assert first[0] in first; }
        assert SplitLines(first) == [[first[0]] + first[1..]];
        assert [first[0]] + first[1..] == first;
      }
    } else if first == [] {
      SplitJoinLines(lines[1..]);
      assert JoinLines(lines)[1..] == JoinLines(lines[1..]);
    } else {
      var shorter := [first[1..]] + lines[1..];
      SplitJoinLines(shorter);
      assert shorter[1..] == lines[1..];
      assert JoinLines(shorter) == first[1..] + [LF] + JoinLines(lines[1..]);
      assert JoinLines(lines)[1..] == JoinLines(shorter);
      assert first[0] != LF by { assert first[0] in first; }
      assert [first[0]] + first[1..] == first;
      assert lines == [first] + lines[1..];
    }
  }
}
