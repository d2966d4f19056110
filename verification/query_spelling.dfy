/**
 What the canonical query string says, byte by byte: how a form may spell its parameters, how the
 standard encodes them, and which parameter is left out.  Nothing here is said with the functions that
 decode, encode or filter; they are proved to do what is said.
 */
module QuerySpelling {
  import opened Splitting
  import opened IpfsNode
  import opened Chunked
  import opened ByteOrder
  import opened Canonical

  // ---------------------------------------------------------------------------------------------
  // Forms (section 5.1 of the WHATWG URL Standard).
  // ---------------------------------------------------------------------------------------------

  /**
   `e` spells `bs`: a byte stands for itself unless it is a percent sign or a plus; a plus stands for a
   space; an escape stands for the byte its two digits give, in either case; and a percent sign that
   starts no escape stands for itself.
   */
  predicate Spells(e: Bytes, bs: Bytes)
    decreases |e|
  {
    if e == [] then bs == []
    else if Escapes(e) then
      bs != [] && IsHex(e[1], bs[0] / 16) && IsHex(e[2], bs[0] % 16) && Spells(e[3..], bs[1..])
    else bs != [] && bs[0] == (if e[0] == 43 then 32 else e[0]) && Spells(e[1..], bs[1..])
  }

  predicate IsHexDigit(c: byte)
  {
    48 <= c <= 57 || 65 <= c <= 70 || 97 <= c <= 102
  }

  predicate Escapes(e: Bytes)
  {
    |e| >= 3 && e[0] == 37 && IsHexDigit(e[1]) && IsHexDigit(e[2])
  }

  lemma TwoDigits(high: byte, low: byte, b: byte)
    requires IsHexDigit(high) && IsHexDigit(low)
    ensures HexDigit(high).Some? && HexDigit(low).Some?
    ensures b == ByteOf(HexDigit(high).value, HexDigit(low).value) <==> IsHex(high, b / 16) && IsHex(low, b % 16)
  {
    var h, l := HexDigit(high).value, HexDigit(low).value;
    assert h < 16 && l < 16;
    HexDigitIff(high, b / 16);
    HexDigitIff(low, b % 16);
    assert ByteOf(h, l) == 16 * h + l;
    LastDigit(b, h, l);
  }

  /** Decoding gives what is spelled, and nothing else. */
  lemma {:induction false} DecodeIff(e: Bytes, bs: Bytes)
    ensures DecodeForm(e) == bs <==> Spells(e, bs)
    decreases |e|
  {
    if e == [] {
    } else if Escapes(e) {
      var b := ByteOf(HexDigit(e[1]).value, HexDigit(e[2]).value);
      assert DecodeForm(e) == [b] + DecodeForm(e[3..]);
      if bs != [] {
        assert bs == [bs[0]] + bs[1..];
        TwoDigits(e[1], e[2], bs[0]);
        DecodeIff(e[3..], bs[1..]);
      }
    } else {
      assert DecodeForm(e) == [if e[0] == 43 then 32 else e[0]] + DecodeForm(e[1..]);
      if bs != [] {
        assert bs == [bs[0]] + bs[1..];
        DecodeIff(e[1..], bs[1..]);
      }
    }
  }

  /** A segment spells a parameter: name, equals sign and value, or a name alone with the empty value. */
  ghost predicate SpellsPair(segment: Bytes, p: Pair)
  {
    || (61 !in segment && Spells(segment, p.name) && p.value == [])
    || exists n, v :: segment == n + [61] + v && 61 !in n && Spells(n, p.name) && Spells(v, p.value)
  }

  lemma {:induction false} NoEquals(s: Bytes)
    requires EQUALS !in s
    ensures UpToEquals(s) == |s|
  {
    if s == [] {
    } else {
      assert s[0] in s;
      NoEquals(s[1..]);
    }
  }

  lemma {:induction false} FirstEquals(s: Bytes)
    ensures var i := UpToEquals(s); EQUALS !in s[..i] && (i < |s| ==> s[i] == EQUALS)
  {
    if s == [] || s[0] == EQUALS {
    } else {
      FirstEquals(s[1..]);
      var i := UpToEquals(s);
      assert s[..i] == [s[0]] + s[1..][..i - 1];
    }
  }

  /** What the bridge parses is spelled. */
  lemma ParsedIsSpelled(segment: Bytes)
    ensures SpellsPair(segment, ParsePair(segment))
  {
    var i, p := UpToEquals(segment), ParsePair(segment);
    FirstEquals(segment);
    if i == |segment| {
      assert segment[..i] == segment;
      DecodeIff(segment, p.name);
    } else {
      var n, v := segment[..i], segment[i + 1..];
      assert segment == n + [61] + v;
      DecodeIff(n, p.name);
      DecodeIff(v, p.value);
    }
  }

  lemma SpelledWithValue(n: Bytes, v: Bytes, p: Pair)
    requires 61 !in n && Spells(n, p.name) && Spells(v, p.value)
    ensures ParsePair(n + [61] + v) == p
  {
    var segment := n + [61] + v;
    EqualsAfter(n, v);
    assert segment[..|n|] == n && segment[|n| + 1..] == v;
    DecodeIff(n, p.name);
    DecodeIff(v, p.value);
  }

  lemma SpelledAlone(n: Bytes, p: Pair)
    requires 61 !in n && Spells(n, p.name) && p.value == []
    ensures ParsePair(n) == p
  {
    NoEquals(n);
    assert n[..|n|] == n;
    DecodeIff(n, p.name);
  }

  lemma ParseIff(segment: Bytes, p: Pair)
    ensures ParsePair(segment) == p <==> SpellsPair(segment, p)
  {
    ParsedIsSpelled(segment);
    if SpellsPair(segment, p) {
      if 61 !in segment && Spells(segment, p.name) && p.value == [] {
        SpelledAlone(segment, p);
      } else {
        var n, v :| segment == n + [61] + v && 61 !in n && Spells(n, p.name) && Spells(v, p.value);
        SpelledWithValue(n, v, p);
      }
    }
  }

  // ---------------------------------------------------------------------------------------------
  // The parameter that is left out.
  // ---------------------------------------------------------------------------------------------

  /** The bytes of `x-amz-signature`, with capitals anywhere. */
  predicate NamesSignature(name: Bytes)
  {
    var small := [120, 45, 97, 109, 122, 45, 115, 105, 103, 110, 97, 116, 117, 114, 101];
    |name| == 15 && forall i :: 0 <= i < 15 ==> name[i] == small[i] || (65 <= name[i] <= 90 && name[i] + 32 == small[i])
  }

  lemma SignatureIff(p: Pair)
    ensures IsSignature(p) <==> NamesSignature(p.name)
  {
    var l := Lower(p.name);
    if |p.name| == 15 {
      assert l == SIGNATURE_NAME <==> forall i :: 0 <= i < 15 ==> l[i] == SIGNATURE_NAME[i];
    }
  }

  lemma SegmentGathered(before: seq<Bytes>, segment: Bytes, after: seq<Bytes>)
    ensures PairsOf(before + [segment] + after) == PairsOf(before) + SegmentPairs(segment) + PairsOf(after)
    ensures PairsOf(before + after) == PairsOf(before) + PairsOf(after)
  {
    GatherOne(SegmentPairs, segment);
    GatherConcat(SegmentPairs, before + [segment], after);
    GatherConcat(SegmentPairs, before, [segment]);
    GatherConcat(SegmentPairs, before, after);
  }

  /**
   A segment at any place makes no difference to what is signed exactly if it is empty or spells the
   signature parameter, in any letter case and with any value.
   */
  lemma SegmentMattersIff(before: seq<Bytes>, segment: Bytes, after: seq<Bytes>)
    requires NoSep(before, AMPERSAND) && NoSep(after, AMPERSAND) && AMPERSAND !in segment
    ensures CanonicalQueryString(Join(before + [segment] + after, AMPERSAND))
            == CanonicalQueryString(Join(before + after, AMPERSAND))
            <==> segment == [] || exists p :: SpellsPair(segment, p) && NamesSignature(p.name)
  {
    var p := ParsePair(segment);
    ParseIff(segment, p);
    SignatureIff(p);
    if q :| SpellsPair(segment, q) && NamesSignature(q.name) {
      ParseIff(segment, q);
    }
    PairsOfJoin(before + [segment] + after);
    PairsOfJoin(before + after);
    SegmentGathered(before, segment, after);
    NormalForm(PairsOf(before + [segment] + after), PairsOf(before + after));
    if segment != [] && !IsSignature(p) {
      OneMoreIsDifferent(PairsOf(before), p, PairsOf(after));
    }
  }

  lemma OneMoreIsDifferent(a: seq<Pair>, p: Pair, b: seq<Pair>)
    ensures multiset(a + [p] + b) != multiset(a + b)
  {
    assert |multiset(a + [p] + b)| == |a + [p] + b|;
    assert |multiset(a + b)| == |a + b|;
  }

  // ---------------------------------------------------------------------------------------------
  // The standard's encoding (sections 2.1 and 2.3 of RFC 3986).
  // ---------------------------------------------------------------------------------------------

  /** A letter, a digit, a hyphen, a full stop, an underscore or a tilde. */
  predicate IsUnreserved(b: byte)
  {
    65 <= b <= 90 || 97 <= b <= 122 || 48 <= b <= 57 || b == 45 || b == 46 || b == 95 || b == 126
  }

  /** A hexadecimal digit of the given value that is no small letter. */
  predicate IsUpperHex(c: byte, d: int)
  {
    (0 <= d <= 9 && c == 48 + d) || (10 <= d <= 15 && c == 65 + d - 10)
  }

  /** `e` keeps the unreserved bytes of `bs` and escapes all others with capital digits. */
  predicate Encodes(e: Bytes, bs: Bytes)
  {
    if bs == [] then e == []
    else if IsUnreserved(bs[0]) then e != [] && e[0] == bs[0] && Encodes(e[1..], bs[1..])
    else
      |e| >= 3 && e[0] == 37 && IsUpperHex(e[1], bs[0] / 16) && IsUpperHex(e[2], bs[0] % 16) && Encodes(e[3..], bs[1..])
  }

  lemma {:induction false} EncodeIff(bs: Bytes, e: Bytes)
    ensures Encode(bs) == e <==> Encodes(e, bs)
  {
    if bs == [] {
    } else if IsUnreserved(bs[0]) {
      assert Encode(bs) == [bs[0]] + Encode(bs[1..]);
      if e != [] {
        EncodeIff(bs[1..], e[1..]);
        assert e == [e[0]] + e[1..];
      }
    } else {
      var high, low := UpperDigit(bs[0] / 16), UpperDigit(bs[0] % 16);
      assert Encode(bs) == [37, high, low] + Encode(bs[1..]);
      if |e| >= 3 {
        EncodeIff(bs[1..], e[3..]);
        assert e == [e[0], e[1], e[2]] + e[3..];
      }
    }
  }

  /** A piece of the canonical string: encoded name, equals sign, encoded value. */
  ghost predicate IsPiece(piece: Bytes, p: Pair)
  {
    exists n, v :: piece == n + [61] + v && Encodes(n, p.name) && Encodes(v, p.value)
  }

  lemma EncodePairIsPiece(p: Pair)
    ensures IsPiece(EncodePair(p), p)
  {
    var n, v := Encode(p.name), Encode(p.value);
    EncodeIff(p.name, n);
    EncodeIff(p.value, v);
    assert EncodePair(p) == n + [61] + v;
  }

  /**
   Of any segments that spell the given parameters, in any of the ways a form has, the canonical query
   string is the sorted pieces of exactly those parameters that are not the signature.
   */
  lemma CanonicalPieces(segments: seq<Bytes>, ps: seq<Pair>) returns (pieces: seq<Bytes>)
    requires NoSep(segments, AMPERSAND) && |segments| == |ps|
    requires forall i :: 0 <= i < |ps| ==> segments[i] != [] && SpellsPair(segments[i], ps[i]) && !NamesSignature(ps[i].name)
    ensures |pieces| == |ps| && forall i :: 0 <= i < |ps| ==> IsPiece(pieces[i], ps[i])
    ensures ps != [] ==> multiset(Split(CanonicalQueryString(Join(segments, 38)), 38)) == multiset(pieces)
    ensures ps != [] ==> Sorted(Split(CanonicalQueryString(Join(segments, 38)), 38))
    ensures ps == [] ==> CanonicalQueryString(Join(segments, 38)) == []
  {
    pieces := EncodeAll(ps);
    EncodeAllIsClean(ps);
    forall i | 0 <= i < |ps| ensures IsPiece(pieces[i], ps[i]) {
      EncodePairIsPiece(ps[i]);
    }
    PairsOfJoin(segments);
    SpelledPairs(segments, ps);
    PartsAreClean(ps);
    SortSorts(pieces);
    JoinedPartsSplit(Sort(pieces));
    assert |multiset(Sort(pieces))| == |multiset(pieces)|;
  }

  lemma {:induction false} SpelledPairs(segments: seq<Bytes>, ps: seq<Pair>)
    requires |segments| == |ps|
    requires forall i :: 0 <= i < |ps| ==> segments[i] != [] && SpellsPair(segments[i], ps[i]) && !NamesSignature(ps[i].name)
    ensures PairsOf(segments) == ps
  {
    if ps == [] {
    } else {
      ParseIff(segments[0], ps[0]);
      SignatureIff(ps[0]);
      SpelledPairs(segments[1..], ps[1..]);
      assert ps == [ps[0]] + ps[1..];
      assert PairsOf(segments) == SegmentPairs(segments[0]) + PairsOf(segments[1..]);
    }
  }
}
