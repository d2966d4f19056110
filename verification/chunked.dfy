/**
 The body format of the AWS document "Signature Calculations for the Authorization Header:
 Transferring Payload in Multiple Chunks": a hexadecimal size, `;chunk-signature=`, 64 signature
 bytes, CRLF, the data and CRLF, ended by a chunk of size zero.  `Decode` is the decoder over the
 whole body; it skips the signature by its length.
 */
module Chunked {
  import opened Options
  import opened IpfsNode

  const SEMICOLON: byte := 59
  const PLUS: byte := 43
  const USIZE_LIMIT: int := 0x1_0000_0000_0000_0000
  const MAX_ALLOCATION: int := 0x7FFF_FFFF_FFFF_FFFF
  const SIGNATURE_LENGTH: int := 82

  // ---------------------------------------------------------------------------------------------
  // Sizes.
  // ---------------------------------------------------------------------------------------------

  function HexDigit(b: byte): Option<nat>
  {
    if 48 <= b <= 57 then Some(b - 48)
    else if 97 <= b <= 102 then Some(b - 87)
    else if 65 <= b <= 70 then Some(b - 55)
    else None
  }

  function HexValue(ds: Bytes): Option<nat>
  {
    if ds == [] then Some(0)
    else
      var high, low := HexValue(ds[..|ds| - 1]), HexDigit(ds[|ds| - 1]);
      if high.None? || low.None? then None else Some(16 * high.value + low.value)
  }

  /** The digits of a size line, behind an optional plus. */
  function Digits(line: Bytes): Bytes
  {
    if line != [] && line[0] == PLUS then line[1..] else line
  }

  /** The integer parser: one leading plus, at least one digit, no overflow of 64 bits. */
  function ParseSize(line: Bytes): Option<nat>
  {
    var digits := Digits(line);
    if digits == [] then None
    else
      var v := HexValue(digits);
      if v.Some? && v.value < USIZE_LIMIT then v else None
  }

  // ---------------------------------------------------------------------------------------------
  // The decoder.
  // ---------------------------------------------------------------------------------------------

  /** The position of the first semicolon, or the length if there is none. */
  function UpToSemicolon(b: Bytes): (i: nat)
    ensures i <= |b|
    ensures SEMICOLON !in b[..i]
    ensures i < |b| ==> b[i] == SEMICOLON
  {
    if b == [] || b[0] == SEMICOLON then 0
    else
      var i := 1 + UpToSemicolon(b[1..]);
      assert b[..i] == [b[0]] + b[1..][..i - 1];
      i
  }

  datatype Turn = Chunk(data: Bytes, rest: Bytes) | End | Fail

  /**
   One turn of the stream.  The size line is read up to the semicolon or the end of the body, and its
   last byte is dropped either way; an empty read has no last byte to drop and panics.
   */
  function Next(b: Bytes): Turn
  {
    var i := UpToSemicolon(b);
    var taken := if i < |b| then i + 1 else |b|;
    if taken == 0 then Fail
    else
      var size := ParseSize(b[..taken - 1]);
      var rest := b[taken..];
      if size.None? then Fail
      else if size.value == 0 then End
      else AfterSize(size.value, rest)
  }

  /** Skips the signature and takes the data; a size no allocation can have panics. */
  function AfterSize(size: nat, rest: Bytes): Turn
  {
    if |rest| < SIGNATURE_LENGTH || size > MAX_ALLOCATION || |rest| < SIGNATURE_LENGTH + size + 2 then Fail
    else Chunk(rest[SIGNATURE_LENGTH..SIGNATURE_LENGTH + size], rest[SIGNATURE_LENGTH + size + 2..])
  }

  /** The chunks passed on, and whether the stream ended or broke off with an error. */
  datatype Decoded = Decoded(chunks: seq<Bytes>, finished: bool)

  function Decode(b: Bytes): Decoded
    decreases |b|
  {
    match Next(b)
    case End => Decoded([], true)
    case Fail => Decoded([], false)
    case Chunk(data, rest) => var d := Decode(rest); Decoded([data] + d.chunks, d.finished)
  }

  // ---------------------------------------------------------------------------------------------
  // Frames on the wire.
  // ---------------------------------------------------------------------------------------------

  /** One chunk as sent; the decoder gives no meaning to the signature field and the final two bytes. */
  datatype Frame = Frame(line: Bytes, signature: Bytes, data: Bytes, crlf: Bytes)

  ghost predicate SizeLine(line: Bytes, size: nat)
  {
    SEMICOLON !in line && ParseSize(line) == Some(size)
  }

  ghost predicate WellFormed(f: Frame)
  {
    && 0 < |f.data| <= MAX_ALLOCATION && SizeLine(f.line, |f.data|)
    && |f.signature| == SIGNATURE_LENGTH && |f.crlf| == 2
  }

  ghost predicate AllWellFormed(fs: seq<Frame>)
  {
    forall i :: 0 <= i < |fs| ==> WellFormed(fs[i])
  }

  function Wire(f: Frame): Bytes
  {
    f.line + [SEMICOLON] + f.signature + f.data + f.crlf
  }

  /** The frames followed by the final size line and its semicolon. */
  function Stream(fs: seq<Frame>, last: Bytes): Bytes
  {
    if fs == [] then last + [SEMICOLON] else Wire(fs[0]) + Stream(fs[1..], last)
  }

  function Payload(fs: seq<Frame>): seq<Bytes>
  {
    if fs == [] then [] else [fs[0].data] + Payload(fs[1..])
  }

  lemma {:induction false} SemicolonAfter(line: Bytes, more: Bytes)
    requires SEMICOLON !in line
    ensures UpToSemicolon(line + [SEMICOLON] + more) == |line|
  {
    if line == [] {
    } else {
      assert (line + [SEMICOLON] + more)[1..] == line[1..] + [SEMICOLON] + more;
      assert line[0] in line;
      SemicolonAfter(line[1..], more);
    }
  }

  lemma {:induction false} NoSemicolon(b: Bytes)
    requires SEMICOLON !in b
    ensures UpToSemicolon(b) == |b|
  {
    if b == [] {
    } else {
      assert b[0] in b;
      NoSemicolon(b[1..]);
    }
  }

  lemma NextAfterLine(line: Bytes, size: nat, more: Bytes)
    requires SizeLine(line, size)
    ensures Next(line + [SEMICOLON] + more) == if size == 0 then End else AfterSize(size, more)
  {
    SemicolonAfter(line, more);
    var b := line + [SEMICOLON] + more;
    assert b[..|line|] == line;
    assert b[|line| + 1..] == more;
  }

  lemma NextFrame(f: Frame, more: Bytes)
    requires WellFormed(f)
    ensures Next(Wire(f) + more) == Chunk(f.data, more)
  {
    var rest := f.signature + f.data + f.crlf + more;
    assert Wire(f) + more == f.line + [SEMICOLON] + rest;
    NextAfterLine(f.line, |f.data|, rest);
    BehindTheLine(f, more);
  }

  lemma BehindTheLine(f: Frame, more: Bytes)
    requires WellFormed(f)
    ensures AfterSize(|f.data|, f.signature + f.data + f.crlf + more) == Chunk(f.data, more)
  {
    var rest := f.signature + f.data + f.crlf + more;
    assert rest[SIGNATURE_LENGTH..SIGNATURE_LENGTH + |f.data|] == f.data;
    assert rest[SIGNATURE_LENGTH + |f.data| + 2..] == more;
  }

  /** Decoding yields the data of the frames, whatever the signatures are and whatever follows. */
  lemma {:induction false} RoundTrip(fs: seq<Frame>, last: Bytes, tail: Bytes)
    requires AllWellFormed(fs) && SizeLine(last, 0)
    ensures Decode(Stream(fs, last) + tail) == Decoded(Payload(fs), true)
  {
    if fs == [] {
      NextAfterLine(last, 0, tail);
    } else {
      RoundTrip(fs[1..], last, tail);
      NextFrame(fs[0], Stream(fs[1..], last) + tail);
      assert Stream(fs, last) + tail == Wire(fs[0]) + (Stream(fs[1..], last) + tail);
    }
  }

  // ---------------------------------------------------------------------------------------------
  // Truncation.
  // ---------------------------------------------------------------------------------------------

  /** The first bytes of a size line, without the last of them, read as zero. */
  predicate SilentPiece(line: Bytes, n: nat)
  {
    0 < n <= |line| && ParseSize(line[..n - 1]) == Some(0)
  }

  /**
   The cut leaves a piece of a size line at the end of the body, and that piece without its last byte
   reads as zero.
   */
  predicate SilentCut(fs: seq<Frame>, last: Bytes, n: nat)
  {
    if fs == [] then SilentPiece(last, n)
    else if n <= |fs[0].line| then SilentPiece(fs[0].line, n)
    else n >= |Wire(fs[0])| && SilentCut(fs[1..], last, n - |Wire(fs[0])|)
  }

  lemma CutInLine(line: Bytes, n: nat)
    requires SEMICOLON !in line && n <= |line|
    ensures Decode(line[..n]).finished <==> 0 < n && ParseSize(line[..n - 1]) == Some(0)
    ensures Decode(line[..n]).chunks == []
  {
    var b := line[..n];
    NoSemicolon(b);
    assert b[n..] == [];
    if n > 0 {
      assert b[..n - 1] == line[..n - 1];
    }
  }

  lemma CutInFrame(f: Frame, n: nat)
    requires WellFormed(f) && |f.line| < n < |Wire(f)|
    ensures Decode(Wire(f)[..n]) == Decoded([], false)
  {
    var rest := (f.signature + f.data + f.crlf)[..n - |f.line| - 1];
    assert Wire(f) == f.line + [SEMICOLON] + (f.signature + f.data + f.crlf);
    assert Wire(f)[..n] == f.line + [SEMICOLON] + rest;
    NextAfterLine(f.line, |f.data|, rest);
  }

  /**
   A body cut anywhere before its end finishes without an error exactly at the silent cuts, and what
   it passes on is always a prefix of the data.
   */
  lemma {:induction false} CutFinishesIff(fs: seq<Frame>, last: Bytes, n: nat)
    requires AllWellFormed(fs) && SizeLine(last, 0) && n < |Stream(fs, last)|
    ensures Decode(Stream(fs, last)[..n]).finished <==> SilentCut(fs, last, n)
    ensures Decode(Stream(fs, last)[..n]).chunks <= Payload(fs)
  {
    if fs == [] {
      assert Stream(fs, last)[..n] == last[..n];
      CutInLine(last, n);
    } else {
      var w := |Wire(fs[0])|;
      if n < w {
        assert Stream(fs, last)[..n] == Wire(fs[0])[..n];
        CutInFirst(fs[0], n);
      } else {
        CutFinishesIff(fs[1..], last, n - w);
        CutBehindFirst(fs, last, n);
      }
    }
  }

  lemma CutInFirst(f: Frame, n: nat)
    requires WellFormed(f) && n < |Wire(f)|
    ensures Decode(Wire(f)[..n]).finished <==> n <= |f.line| && SilentPiece(f.line, n)
    ensures Decode(Wire(f)[..n]).chunks == []
  {
    if n <= |f.line| {
      assert Wire(f)[..n] == f.line[..n];
      CutInLine(f.line, n);
    } else {
      CutInFrame(f, n);
    }
  }

  lemma CutBehindFirst(fs: seq<Frame>, last: Bytes, n: nat)
    requires fs != [] && WellFormed(fs[0]) && |Wire(fs[0])| <= n < |Stream(fs, last)|
    ensures var d := Decode(Stream(fs[1..], last)[..n - |Wire(fs[0])|]);
            Decode(Stream(fs, last)[..n]) == Decoded([fs[0].data] + d.chunks, d.finished)
  {
    var rest := Stream(fs[1..], last)[..n - |Wire(fs[0])|];
    assert Stream(fs, last)[..n] == Wire(fs[0]) + rest;
    NextFrame(fs[0], rest);
  }

  // ---------------------------------------------------------------------------------------------
  // The canonical encoding.
  // ---------------------------------------------------------------------------------------------

  function DigitOf(d: nat): byte
    requires d < 16
  {
    if d < 10 then 48 + d else 87 + d
  }

  /** Lower-case hexadecimal without leading zeros. */
  function HexOf(n: nat): (r: Bytes)
    ensures r != []
  {
    if n < 16 then [DigitOf(n)] else HexOf(n / 16) + [DigitOf(n % 16)]
  }

  lemma {:induction false} HexRoundTrip(n: nat)
    ensures HexValue(HexOf(n)) == Some(n)
    ensures forall i :: 0 <= i < |HexOf(n)| ==> HexDigit(HexOf(n)[i]).Some?
    ensures n > 0 ==> HexOf(n)[0] != 48
  {
    var r := HexOf(n);
    assert HexValue([]) == Some(0);
    assert r[|r| - 1] == DigitOf(n % 16);
    if n < 16 {
      assert r[..0] == [];
    } else {
      HexRoundTrip(n / 16);
      assert r[..|r| - 1] == HexOf(n / 16);
    }
  }

  lemma CanonicalLine(n: nat)
    requires n < USIZE_LIMIT
    ensures SizeLine(HexOf(n), n)
  {
    HexRoundTrip(n);
    var r := HexOf(n);
    assert HexDigit(r[0]).Some?;
    forall i | 0 <= i < |r| ensures r[i] != SEMICOLON {
      assert HexDigit(r[i]).Some?;
    }
  }

  ghost predicate Canonical(fs: seq<Frame>)
  {
    forall i :: 0 <= i < |fs| ==> fs[i].line == HexOf(|fs[i].data|)
  }

  lemma CanonicalIsNotPadded(n: nat)
    ensures !Padded(HexOf(n))
  {
    HexRoundTrip(n);
    assert HexDigit(HexOf(n)[0]).Some?;
  }

  /** Without leading zeros there is no silent cut. */
  lemma CanonicalCutsAreLoud(fs: seq<Frame>, n: nat)
    requires Canonical(fs)
    ensures !SilentCut(fs, HexOf(0), n)
  {
    if SilentCut(fs, HexOf(0), n) {
      SilentCutIsPadded(fs, HexOf(0), n);
      CanonicalIsNotPadded(0);
      var i :| 0 <= i < |fs| && Padded(fs[i].line);
      CanonicalIsNotPadded(|fs[i].data|);
    }
  }

  /** A canonical stream cut anywhere before its end is an error, after a prefix of the data. */
  lemma NoSilentTruncation(fs: seq<Frame>, n: nat)
    requires AllWellFormed(fs) && Canonical(fs) && n < |Stream(fs, HexOf(0))|
    ensures !Decode(Stream(fs, HexOf(0))[..n]).finished
    ensures Decode(Stream(fs, HexOf(0))[..n]).chunks <= Payload(fs)
  {
    CanonicalLine(0);
    CutFinishesIff(fs, HexOf(0), n);
    CanonicalCutsAreLoud(fs, n);
  }

  /** The digits start with a zero that is not the last of them. */
  predicate Padded(line: Bytes)
  {
    |Digits(line)| >= 2 && Digits(line)[0] == 48
  }

  lemma {:induction false} ZeroStartsWithZero(ds: Bytes)
    requires ds != [] && HexValue(ds) == Some(0)
    ensures ds[0] == 48
  {
    var most := ds[..|ds| - 1];
    if |ds| == 1 {
      assert most == [];
      assert HexDigit(ds[0]) == Some(0);
    } else {
      ZeroStartsWithZero(most);
    }
  }

  /** Only a padded line has a piece that reads as zero, and a padded line has one. */
  lemma SilentPieceIsPadded(line: Bytes, n: nat)
    requires SilentPiece(line, n)
    ensures Padded(line)
  {
    var piece := line[..n - 1];
    ZeroStartsWithZero(Digits(piece));
    assert Digits(piece) == Digits(line)[..|Digits(piece)|];
  }

  lemma PaddedHasSilentPiece(line: Bytes) returns (n: nat)
    requires Padded(line)
    ensures SilentPiece(line, n)
  {
    n := |line| - |Digits(line)| + 2;
    assert Digits(line[..n - 1]) == [48];
    assert [48][..0] == [] && HexValue([]) == Some(0);
  }

  ghost predicate SomeLinePadded(fs: seq<Frame>, last: Bytes)
  {
    Padded(last) || exists i :: 0 <= i < |fs| && Padded(fs[i].line)
  }

  lemma {:induction false} SilentCutIsPadded(fs: seq<Frame>, last: Bytes, n: nat)
    requires SilentCut(fs, last, n)
    ensures SomeLinePadded(fs, last)
  {
    if fs == [] {
      SilentPieceIsPadded(last, n);
    } else if n <= |fs[0].line| {
      SilentPieceIsPadded(fs[0].line, n);
    } else {
      SilentCutIsPadded(fs[1..], last, n - |Wire(fs[0])|);
      if i :| 0 <= i < |fs[1..]| && Padded(fs[1..][i].line) {
        assert Padded(fs[i + 1].line);
      }
    }
  }

  lemma {:induction false} PaddedHasSilentCut(fs: seq<Frame>, last: Bytes) returns (n: nat)
    requires SomeLinePadded(fs, last)
    ensures n < |Stream(fs, last)| && SilentCut(fs, last, n)
  {
    if fs == [] {
      n := PaddedHasSilentPiece(last);
    } else if Padded(fs[0].line) {
      n := PaddedHasSilentPiece(fs[0].line);
    } else {
      if i :| 0 <= i < |fs| && Padded(fs[i].line) {
        assert Padded(fs[1..][i - 1].line);
      }
      var m := PaddedHasSilentCut(fs[1..], last);
      n := |Wire(fs[0])| + m;
    }
  }

  /** The stream cut after `n` bytes, before its end, finishes without an error. */
  predicate FinishesCutAt(fs: seq<Frame>, last: Bytes, n: nat)
  {
    n < |Stream(fs, last)| && Decode(Stream(fs, last)[..n]).finished
  }

  /** A stream can be cut short without an error exactly if some size line, or the last one, is padded. */
  lemma SilentlyTruncatableIff(fs: seq<Frame>, last: Bytes)
    requires AllWellFormed(fs) && SizeLine(last, 0)
    ensures (exists n: nat :: FinishesCutAt(fs, last, n)) <==> SomeLinePadded(fs, last)
  {
    if n: nat :| FinishesCutAt(fs, last, n) {
      CutFinishesIff(fs, last, n);
      SilentCutIsPadded(fs, last, n);
    }
    if SomeLinePadded(fs, last) {
      var n := PaddedHasSilentCut(fs, last);
      CutFinishesIff(fs, last, n);
      assert FinishesCutAt(fs, last, n);
    }
  }

  /** With a leading zero in the first size line the cut behind it ends the stream as done and empty. */
  lemma LeadingZeroTruncatesSilently(fs: seq<Frame>, last: Bytes)
    requires AllWellFormed(fs) && SizeLine(last, 0) && fs != []
    requires |fs[0].line| >= 2 && fs[0].line[0] == 48
    ensures Decode(Stream(fs, last)[..2]) == Decoded([], true) && Payload(fs) != []
  {
    var line := fs[0].line;
    assert ParseSize([48]) == Some(0) by {
      assert [48][..0] == [] && HexValue([]) == Some(0);
    }
    assert line[..1] == [48];
    assert Stream(fs, last)[..2] == line[..2];
    CutInLine(line, 2);
  }

  // ---------------------------------------------------------------------------------------------
  // What an AWS client sends.
  // ---------------------------------------------------------------------------------------------

  const CRLF: Bytes := [13, 10]

  /** `chunk-signature=` */
  const SIGNATURE_HEADER: Bytes := [99, 104, 117, 110, 107, 45, 115, 105, 103, 110, 97, 116, 117, 114, 101, 61]

  function AwsFrames(chunks: seq<Bytes>, signatures: seq<Bytes>): seq<Frame>
    requires |signatures| == |chunks|
  {
    if chunks == [] then []
    else
      [Frame(HexOf(|chunks[0]|), SIGNATURE_HEADER + signatures[0] + CRLF, chunks[0], CRLF)]
      + AwsFrames(chunks[1..], signatures[1..])
  }

  /** The whole body: the chunks, then the chunk of size zero with its own signature. */
  function AwsBody(chunks: seq<Bytes>, signatures: seq<Bytes>, final: Bytes): Bytes
    requires |signatures| == |chunks|
  {
    Stream(AwsFrames(chunks, signatures), HexOf(0)) + (SIGNATURE_HEADER + final + CRLF + CRLF)
  }

  lemma {:induction false} AwsFramesAreCanonical(chunks: seq<Bytes>, signatures: seq<Bytes>)
    requires |signatures| == |chunks|
    requires forall i :: 0 <= i < |chunks| ==> 0 < |chunks[i]| <= MAX_ALLOCATION && |signatures[i]| == 64
    ensures var fs := AwsFrames(chunks, signatures);
            AllWellFormed(fs) && Canonical(fs) && Payload(fs) == chunks
  {
    if chunks == [] {
    } else {
      AwsFramesAreCanonical(chunks[1..], signatures[1..]);
      CanonicalLine(|chunks[0]|);
      assert AwsFrames(chunks, signatures)[1..] == AwsFrames(chunks[1..], signatures[1..]);
    }
  }

  /** Every list of non-empty chunks comes through, whatever the signatures and whatever follows the body. */
  lemma AwsRoundTrip(chunks: seq<Bytes>, signatures: seq<Bytes>, final: Bytes, tail: Bytes)
    requires |signatures| == |chunks|
    requires forall i :: 0 <= i < |chunks| ==> 0 < |chunks[i]| < 0x8000_0000_0000_0000 && |signatures[i]| == 64
    ensures Decode(AwsBody(chunks, signatures, final) + tail) == Decoded(chunks, true)
  {
    AwsFramesAreCanonical(chunks, signatures);
    CanonicalLine(0);
    var fs := AwsFrames(chunks, signatures);
    var after := SIGNATURE_HEADER + final + CRLF + CRLF;
    RoundTrip(fs, HexOf(0), after + tail);
    assert AwsBody(chunks, signatures, final) + tail == Stream(fs, HexOf(0)) + (after + tail);
  }

  // ---------------------------------------------------------------------------------------------
  // Size lines.
  // ---------------------------------------------------------------------------------------------

  /** `c` is a hexadecimal digit of the given value, in either case. */
  predicate IsHex(c: byte, d: int)
  {
    (0 <= d <= 9 && c == 48 + d) || (10 <= d <= 15 && (c == 97 + d - 10 || c == 65 + d - 10))
  }

  /** `ds` writes `n` in base sixteen, with any leading zeros and digits of either case. */
  ghost predicate WritesHex(ds: Bytes, n: nat)
  {
    if ds == [] then n == 0 else IsHex(ds[|ds| - 1], n % 16) && WritesHex(ds[..|ds| - 1], n / 16)
  }

  lemma HexDigitIff(c: byte, d: nat)
    ensures HexDigit(c) == Some(d) <==> IsHex(c, d)
  {
  }

  lemma {:induction false} HexValueIff(ds: Bytes, n: nat)
    ensures HexValue(ds) == Some(n) <==> WritesHex(ds, n)
  {
    if ds == [] {
    } else {
      HexValueIff(ds[..|ds| - 1], n / 16);
      HexDigitIff(ds[|ds| - 1], n % 16);
      var high, low := HexValue(ds[..|ds| - 1]), HexDigit(ds[|ds| - 1]);
      if high.Some? && low.Some? {
        LastDigit(n, high.value, low.value);
      }
    }
  }

  lemma LastDigit(n: int, high: int, low: int)
    requires 0 <= low < 16
    ensures n == 16 * high + low <==> n / 16 == high && n % 16 == low
  {
  }

  /** A size line is read as `n` exactly if, behind an optional plus, it writes `n` and `n` fits 64 bits. */
  lemma ParseSizeIff(line: Bytes, n: nat)
    ensures ParseSize(line) == Some(n) <==>
            n < 0x1_0000_0000_0000_0000
            && ((line != [] && line[0] != 43 && WritesHex(line, n)) || (|line| > 1 && line[0] == 43 && WritesHex(line[1..], n)))
  {
    HexValueIff(Digits(line), n);
  }

  /** A chunk that no buffer can hold breaks the stream off, and nothing of it is passed on. */
  lemma OversizedChunkFails(line: Bytes, n: nat, more: Bytes)
    requires SizeLine(line, n) && n >= 0x8000_0000_0000_0000
    ensures Decode(line + [SEMICOLON] + more) == Decoded([], false)
  {
    NextAfterLine(line, n, more);
  }

  /** A size line that is no number breaks the stream off as well. */
  lemma NoNumberFails(line: Bytes, more: Bytes)
    requires SEMICOLON !in line && ParseSize(line).None?
    ensures Decode(line + [SEMICOLON] + more) == Decoded([], false)
  {
    SemicolonAfter(line, more);
    assert (line + [SEMICOLON] + more)[..|line|] == line;
  }
}
