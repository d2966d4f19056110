/**
 The canonical query string of AWS Signature Version 4 as the bridge computes it: decode the
 parameters (section 5.1 of the WHATWG URL Standard), drop the signature, percent-encode names and
 values over the unreserved set (sections 2.1 and 2.3 of RFC 3986), glue name and value, sort the
 glued strings and join them.
 */
module Canonical {
  import opened Splitting
  import opened IpfsNode
  import opened Chunked
  import opened ByteOrder
  import opened Options

  const AMPERSAND: byte := 38
  const EQUALS: byte := 61
  const PERCENT: byte := 37
  const SPACE: byte := 32

  datatype Pair = Pair(name: Bytes, value: Bytes)

  // ---------------------------------------------------------------------------------------------
  // Gathering what every element of a list contributes.
  // ---------------------------------------------------------------------------------------------

  function Gather<X, Y>(f: X -> seq<Y>, xs: seq<X>): seq<Y>
  {
    if xs == [] then [] else f(xs[0]) + Gather(f, xs[1..])
  }

  lemma {:induction false} GatherConcat<X, Y>(f: X -> seq<Y>, xs: seq<X>, ys: seq<X>)
    ensures Gather(f, xs + ys) == Gather(f, xs) + Gather(f, ys)
  {
    if xs == [] {
      assert xs + ys == ys;
    } else {
      assert (xs + ys)[1..] == xs[1..] + ys;
      GatherConcat(f, xs[1..], ys);
    }
  }

  lemma GatherOne<X, Y>(f: X -> seq<Y>, x: X)
    ensures Gather(f, [x]) == f(x)
  {
    assert [x][1..] == [];
    assert Gather(f, [x]) == f(x) + Gather(f, [x][1..]);
    assert f(x) + [] == f(x);
  }

  lemma {:induction false} GatherPermuted<X, Y>(f: X -> seq<Y>, xs: seq<X>, ys: seq<X>)
    requires multiset(xs) == multiset(ys)
    ensures multiset(Gather(f, xs)) == multiset(Gather(f, ys))
  {
    if xs == [] {
      assert multiset(ys) == multiset{};
      assert ys == [];
    } else {
      var a, b := Locate(xs, ys);
      GatherPermuted(f, xs[1..], a + b);
      GatherConcat(f, a, b);
      GatherConcat(f, a, [xs[0]] + b);
      assert a + [xs[0]] + b == a + ([xs[0]] + b);
      assert ([xs[0]] + b)[1..] == b;
    }
  }

  // ---------------------------------------------------------------------------------------------
  // Percent encoding.
  // ---------------------------------------------------------------------------------------------

  predicate Unreserved(b: byte)
  {
    48 <= b <= 57 || 65 <= b <= 90 || 97 <= b <= 122 || b == 45 || b == 46 || b == 95 || b == 126
  }

  function UpperDigit(d: nat): byte
    requires d < 16
  {
    if d < 10 then 48 + d else 55 + d
  }

  function EncodeByte(b: byte): Bytes
  {
    if Unreserved(b) then [b] else [PERCENT, UpperDigit(b / 16), UpperDigit(b % 16)]
  }

  function Encode(bs: Bytes): Bytes
  {
    if bs == [] then [] else EncodeByte(bs[0]) + Encode(bs[1..])
  }

  /** A plus is a space, a percent sign with two digits is a byte, anything else is itself. */
  function DecodeForm(bs: Bytes): Bytes
  {
    if bs == [] then []
    else if bs[0] == PLUS then [SPACE] + DecodeForm(bs[1..])
    else if bs[0] == PERCENT && |bs| >= 3 && HexDigit(bs[1]).Some? && HexDigit(bs[2]).Some? then
      [ByteOf(HexDigit(bs[1]).value, HexDigit(bs[2]).value)] + DecodeForm(bs[3..])
    else [bs[0]] + DecodeForm(bs[1..])
  }

  function ByteOf(high: nat, low: nat): byte
  {
    (16 * high + low) % 256
  }

  lemma {:induction false} DecodeEncode(bs: Bytes)
    ensures DecodeForm(Encode(bs)) == bs
  {
    if bs == [] {
    } else {
      DecodeEncode(bs[1..]);
      if Unreserved(bs[0]) {
        assert ([bs[0]] + Encode(bs[1..]))[1..] == Encode(bs[1..]);
      } else {
        DecodeEscape(bs[0], Encode(bs[1..]));
      }
      assert bs == [bs[0]] + bs[1..];
    }
  }

  /** The three bytes of an escape read back as the byte they stand for. */
  lemma DecodeEscape(b: byte, rest: Bytes)
    requires !Unreserved(b)
    ensures DecodeForm(EncodeByte(b) + rest) == [b] + DecodeForm(rest)
  {
    var s := EncodeByte(b) + rest;
    DigitsReadBack(b / 16);
    DigitsReadBack(b % 16);
    assert s[0] == PERCENT && s[1] == UpperDigit(b / 16) && s[2] == UpperDigit(b % 16);
    assert s[3..] == rest;
  }

  lemma DigitsReadBack(d: nat)
    requires d < 16
    ensures HexDigit(UpperDigit(d)) == Some(d)
  {
  }

  /** No separator, and neither plus nor line feed, survives the encoding. */
  lemma {:induction false} EncodeIsClean(bs: Bytes)
    ensures forall b :: b in Encode(bs) ==> Unreserved(b) || b == PERCENT
  {
    if bs == [] {
    } else {
      EncodeIsClean(bs[1..]);
    }
  }

  // ---------------------------------------------------------------------------------------------
  // Parameters.
  // ---------------------------------------------------------------------------------------------

  function LowerByte(b: byte): byte
  {
    if 65 <= b <= 90 then b + 32 else b
  }

  function Lower(bs: Bytes): Bytes
  {
    seq(|bs|, i requires 0 <= i < |bs| => LowerByte(bs[i]))
  }

  /** `x-amz-signature` */
  const SIGNATURE_NAME: Bytes := [120, 45, 97, 109, 122, 45, 115, 105, 103, 110, 97, 116, 117, 114, 101]

  predicate IsSignature(p: Pair)
  {
    Lower(p.name) == SIGNATURE_NAME
  }

  /** The position of the first equals sign, or the length if there is none. */
  function UpToEquals(s: Bytes): (i: nat)
    ensures i <= |s|
  {
    if s == [] || s[0] == EQUALS then 0 else 1 + UpToEquals(s[1..])
  }

  function ParsePair(segment: Bytes): Pair
  {
    var i := UpToEquals(segment);
    Pair(DecodeForm(segment[..i]), if i < |segment| then DecodeForm(segment[i + 1..]) else [])
  }

  /** What a segment between ampersands contributes: nothing if it is empty or the signature. */
  function SegmentPairs(segment: Bytes): seq<Pair>
  {
    if segment == [] || IsSignature(ParsePair(segment)) then [] else [ParsePair(segment)]
  }

  function PairsOf(segments: seq<Bytes>): seq<Pair>
  {
    Gather(SegmentPairs, segments)
  }

  function QueryPairs(query: Bytes): seq<Pair>
  {
    PairsOf(Split(query, AMPERSAND))
  }

  function Glue(p: Pair, sep: byte): Bytes
  {
    p.name + [sep] + p.value
  }

  function EncodePair(p: Pair): Bytes
  {
    Glue(Pair(Encode(p.name), Encode(p.value)), EQUALS)
  }

  function EncodeAll(ps: seq<Pair>): seq<Bytes>
  {
    Gather((p: Pair) => [EncodePair(p)], ps)
  }

  function CanonicalPairs(ps: seq<Pair>): Bytes
  {
    Join(Sort(EncodeAll(ps)), AMPERSAND)
  }

  function CanonicalQueryString(query: Bytes): Bytes
  {
    CanonicalPairs(QueryPairs(query))
  }

  // ---------------------------------------------------------------------------------------------
  // An encoded pair reads back.
  // ---------------------------------------------------------------------------------------------

  lemma {:induction false} EqualsAfter(name: Bytes, value: Bytes)
    requires EQUALS !in name
    ensures UpToEquals(name + [EQUALS] + value) == |name|
  {
    if name == [] {
    } else {
      assert name[0] in name;
      assert (name + [EQUALS] + value)[1..] == name[1..] + [EQUALS] + value;
      EqualsAfter(name[1..], value);
    }
  }

  lemma ParseEncodedPair(p: Pair)
    ensures ParsePair(EncodePair(p)) == p
  {
    EncodedPairSplits(p);
    DecodeEncode(p.name);
    DecodeEncode(p.value);
  }

  lemma EncodedPairSplits(p: Pair)
    ensures var i, e := UpToEquals(EncodePair(p)), EncodePair(p);
            i < |e| && e[..i] == Encode(p.name) && e[i + 1..] == Encode(p.value)
  {
    EncodeIsClean(p.name);
    EqualsAfter(Encode(p.name), Encode(p.value));
  }

  lemma EncodedPairIsOneSegment(p: Pair)
    ensures EncodePair(p) != [] && AMPERSAND !in EncodePair(p)
  {
    EncodeIsClean(p.name);
    EncodeIsClean(p.value);
  }

  lemma {:induction false} EncodeAllIsClean(ps: seq<Pair>)
    ensures |EncodeAll(ps)| == |ps|
    ensures forall i :: 0 <= i < |ps| ==> EncodeAll(ps)[i] == EncodePair(ps[i])
  {
    if ps == [] {
    } else {
      EncodeAllIsClean(ps[1..]);
    }
  }

  function ParseAll(segments: seq<Bytes>): seq<Pair>
  {
    Gather((x: Bytes) => [ParsePair(x)], segments)
  }

  lemma {:induction false} ParseEncodeAll(ps: seq<Pair>)
    ensures ParseAll(EncodeAll(ps)) == ps
  {
    if ps == [] {
    } else {
      ParseEncodedPair(ps[0]);
      ParseEncodeAll(ps[1..]);
    }
  }

  // ---------------------------------------------------------------------------------------------
  // The canonical string is a normal form.
  // ---------------------------------------------------------------------------------------------

  lemma {:induction false} JoinedPartsSplit(parts: seq<Bytes>)
    requires forall i :: 0 <= i < |parts| ==> parts[i] != [] && AMPERSAND !in parts[i]
    ensures Split(Join(parts, AMPERSAND), AMPERSAND) == if parts == [] then [[]] else parts
  {
    if parts != [] {
      SplitJoin(parts, AMPERSAND);
    }
  }

  lemma PartsAreClean(ps: seq<Pair>)
    ensures var parts := Sort(EncodeAll(ps));
            && multiset(parts) == multiset(EncodeAll(ps))
            && forall i | 0 <= i < |parts| ::
                 parts[i] != [] && AMPERSAND !in parts[i] && exists j :: 0 <= j < |ps| && parts[i] == EncodePair(ps[j])
  {
    var parts := Sort(EncodeAll(ps));
    SortSorts(EncodeAll(ps));
    EncodeAllIsClean(ps);
    forall i | 0 <= i < |parts|
      ensures parts[i] != [] && AMPERSAND !in parts[i] && exists j :: 0 <= j < |ps| && parts[i] == EncodePair(ps[j])
    {
      assert parts[i] in multiset(EncodeAll(ps));
      var j :| 0 <= j < |ps| && parts[i] == EncodeAll(ps)[j];
      EncodedPairIsOneSegment(ps[j]);
    }
  }

  /** Two parameter lists have the same canonical string if and only if they are permutations of each other. */
  lemma NormalForm(ps: seq<Pair>, qs: seq<Pair>)
    ensures CanonicalPairs(ps) == CanonicalPairs(qs) <==> multiset(ps) == multiset(qs)
  {
    if multiset(ps) == multiset(qs) {
      GatherPermuted((p: Pair) => [EncodePair(p)], ps, qs);
      SortOfPermutation(EncodeAll(ps), EncodeAll(qs));
    }
    if CanonicalPairs(ps) == CanonicalPairs(qs) {
      var xs, ys := Sort(EncodeAll(ps)), Sort(EncodeAll(qs));
      PartsAreClean(ps);
      PartsAreClean(qs);
      JoinedPartsSplit(xs);
      JoinedPartsSplit(ys);
      SamePieces(xs, ys);
      GatherPermuted((x: Bytes) => [ParsePair(x)], EncodeAll(ps), EncodeAll(qs));
      ParseEncodeAll(ps);
      ParseEncodeAll(qs);
    }
  }

  lemma SamePieces(xs: seq<Bytes>, ys: seq<Bytes>)
    requires (if xs == [] then [[]] else xs) == (if ys == [] then [[]] else ys)
    requires forall i :: 0 <= i < |xs| ==> xs[i] != []
    requires forall i :: 0 <= i < |ys| ==> ys[i] != []
    ensures xs == ys
  {
    if xs != [] {
      assert xs[0] != [];
    }
    if ys != [] {
      assert ys[0] != [];
    }
  }

  /** The string identifies the request: same canonical string, same parameters up to order and signature. */
  lemma CanonicalIffSameParameters(query: Bytes, query': Bytes)
    ensures CanonicalQueryString(query) == CanonicalQueryString(query') <==>
            multiset(QueryPairs(query)) == multiset(QueryPairs(query'))
  {
    NormalForm(QueryPairs(query), QueryPairs(query'));
  }

  lemma {:induction false} PairsOfJoin(segments: seq<Bytes>)
    requires NoSep(segments, AMPERSAND)
    ensures QueryPairs(Join(segments, AMPERSAND)) == PairsOf(segments)
  {
    if segments != [] {
      SplitJoin(segments, AMPERSAND);
    } else {
      assert Gather(SegmentPairs, [[]]) == [];
    }
  }

  /** Reordering the segments of a query does not change the canonical string. */
  lemma OrderDoesNotMatter(segments: seq<Bytes>, permuted: seq<Bytes>)
    requires NoSep(segments, AMPERSAND) && NoSep(permuted, AMPERSAND) && multiset(segments) == multiset(permuted)
    ensures CanonicalQueryString(Join(segments, AMPERSAND)) == CanonicalQueryString(Join(permuted, AMPERSAND))
  {
    PairsOfJoin(segments);
    PairsOfJoin(permuted);
    GatherPermuted(SegmentPairs, segments, permuted);
    NormalForm(PairsOf(segments), PairsOf(permuted));
  }

  /** Nor does a signature parameter, in any letter case and encoding, at any position. */
  lemma SignatureDoesNotMatter(before: seq<Bytes>, signature: Bytes, after: seq<Bytes>)
    requires NoSep(before, AMPERSAND) && NoSep(after, AMPERSAND) && AMPERSAND !in signature
    requires IsSignature(ParsePair(signature))
    ensures CanonicalQueryString(Join(before + [signature] + after, AMPERSAND))
         == CanonicalQueryString(Join(before + after, AMPERSAND))
  {
    PairsOfJoin(before + [signature] + after);
    PairsOfJoin(before + after);
    SignatureGathersNothing(before, signature, after);
  }

  lemma SignatureGathersNothing(before: seq<Bytes>, signature: Bytes, after: seq<Bytes>)
    requires IsSignature(ParsePair(signature))
    ensures PairsOf(before + [signature] + after) == PairsOf(before + after)
  {
    assert SegmentPairs(signature) == [];
    assert Gather(SegmentPairs, [signature]) == [] + Gather(SegmentPairs, []);
    GatherConcat(SegmentPairs, before + [signature], after);
    GatherConcat(SegmentPairs, before, [signature]);
    GatherConcat(SegmentPairs, before, after);
    assert Gather(SegmentPairs, before) + [] == Gather(SegmentPairs, before);
  }

  lemma {:induction false} PairsOfClean(parts: seq<Bytes>)
    requires forall i :: 0 <= i < |parts| ==> parts[i] != [] && !IsSignature(ParsePair(parts[i]))
    ensures PairsOf(parts) == ParseAll(parts)
  {
    if parts == [] {
    } else {
      PairsOfClean(parts[1..]);
    }
  }

  lemma {:induction false} NoSignatureLeft(segments: seq<Bytes>)
    ensures forall i :: 0 <= i < |PairsOf(segments)| ==> !IsSignature(PairsOf(segments)[i])
  {
    if segments == [] {
    } else {
      NoSignatureLeft(segments[1..]);
      assert PairsOf(segments) == SegmentPairs(segments[0]) + PairsOf(segments[1..]);
    }
  }

  /** Canonicalising a canonical string again changes nothing. */
  lemma CanonicalTwice(query: Bytes)
    ensures CanonicalQueryString(CanonicalQueryString(query)) == CanonicalQueryString(query)
  {
    var ps := QueryPairs(query);
    var parts := Sort(EncodeAll(ps));
    PartsAreClean(ps);
    NoSignatureLeft(Split(query, AMPERSAND));
    forall i | 0 <= i < |parts| ensures !IsSignature(ParsePair(parts[i])) {
      var j :| 0 <= j < |ps| && parts[i] == EncodePair(ps[j]);
      ParseEncodedPair(ps[j]);
    }
    PairsOfJoin(parts);
    PairsOfClean(parts);
    GatherPermuted((x: Bytes) => [ParsePair(x)], parts, EncodeAll(ps));
    ParseEncodeAll(ps);
    NormalForm(ParseAll(parts), ps);
  }
}
