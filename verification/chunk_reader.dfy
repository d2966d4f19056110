/**
 The buffered reader under the decoder.  The body arrives in frames of any size, some of them empty;
 reads go across frame borders.  The decoder run on the reader gives what `Decode` gives on the
 concatenation, so the way a body was cut into frames never shows.
 */
module ChunkReader {
  import opened Options
  import opened IpfsNode
  import opened Chunked

  function Concat(frames: seq<Bytes>): Bytes
  {
    if frames == [] then [] else frames[0] + Concat(frames[1..])
  }

  lemma SplitRead(all: Bytes, read: Bytes, before: Bytes, taken: Bytes, after: Bytes)
    requires read + before == all && taken + after == before
    ensures read + taken + after == all
  {
  }

  /** The first semicolon of what is read is the one that ends the last piece. */
  lemma LineRead(read: Bytes, piece: Bytes, after: Bytes)
    requires SEMICOLON !in read && piece != []
    requires piece[|piece| - 1] == SEMICOLON && SEMICOLON !in piece[..|piece| - 1]
    ensures UpToSemicolon(read + piece + after) == |read| + |piece| - 1
  {
    var line := read + piece[..|piece| - 1];
    assert read + piece + after == line + [SEMICOLON] + after;
    SemicolonAfter(line, after);
  }

  lemma DecodeOneMore(chunks: seq<Bytes>, s: Bytes, data: Bytes, rest: Bytes)
    requires |rest| < |s| && Next(s) == Chunk(data, rest)
    ensures chunks + Decode(s).chunks == chunks + [data] + Decode(rest).chunks
    ensures Decode(s).finished == Decode(rest).finished
  {
    assert Decode(s) == Decoded([data] + Decode(rest).chunks, Decode(rest).finished);
    assert chunks + ([data] + Decode(rest).chunks) == chunks + [data] + Decode(rest).chunks;
  }

  class Reader {
    var current: Bytes
    var frames: seq<Bytes>

    /** The bytes not read yet. */
    function Remaining(): Bytes
      reads this
    {
      current + Concat(frames)
    }

    constructor (body: seq<Bytes>)
      ensures Remaining() == Concat(body)
    {
      current := [];
      frames := body;
    }

    /** Makes the next non-empty frame current; the result is empty only at the end of the body. */
    method FillBuf() returns (available: Bytes)
      modifies this
      ensures Remaining() == old(Remaining())
      ensures available == current && available <= Remaining()
      ensures available == [] <==> Remaining() == []
    {
      while current == [] && frames != []
        invariant Remaining() == old(Remaining())
        decreases |frames|
      {
        current := frames[0];
        frames := frames[1..];
      }
      return current;
    }

    method Consume(n: nat)
      requires n <= |current|
      modifies this
      ensures Remaining() == old(Remaining())[n..]
    {
      current := current[n..];
    }

    /** Takes `n` of the available bytes. */
    method Take(available: Bytes, n: nat) returns (taken: Bytes)
      requires available == current && n <= |available|
      modifies this
      ensures taken == available[..n] && |taken| == n
      ensures taken + Remaining() == old(Remaining())
    {
      taken := available[..n];
      Consume(n);
    }

    /** Takes from the current frame up to and including a semicolon, or all of it. */
    method ReadPiece() returns (piece: Bytes, found: bool)
      modifies this
      ensures piece + Remaining() == old(Remaining())
      ensures piece == [] <==> old(Remaining()) == []
      ensures found ==> piece != [] && piece[|piece| - 1] == SEMICOLON && SEMICOLON !in piece[..|piece| - 1]
      ensures !found ==> SEMICOLON !in piece
    {
      var available := FillBuf();
      var i := UpToSemicolon(available);
      found := i < |available|;
      piece := Take(available, if found then i + 1 else i);
      assert found ==> piece[..i] == available[..i];
      assert !found ==> piece == available[..i];
    }

    /** Reads up to and including the first semicolon, or to the end. */
    method ReadUntilSemicolon() returns (read: Bytes)
      modifies this
      ensures read + Remaining() == old(Remaining())
      ensures |read| == var i := UpToSemicolon(old(Remaining())); if i < |old(Remaining())| then i + 1 else i
    {
      read := [];
      ghost var all := Remaining();
      while true
        invariant read + Remaining() == all
        invariant SEMICOLON !in read
        decreases |Remaining()|
      {
        ghost var before := Remaining();
        var piece, found := ReadPiece();
        SplitRead(all, read, before, piece, Remaining());
        if piece == [] {
          assert read == all;
          NoSemicolon(all);
          return;
        }
        if found {
          LineRead(read, piece, Remaining());
          read := read + piece;
          return;
        }
        read := read + piece;
      }
    }

    /** Reads exactly `n` bytes; fails if the body ends before. */
    method ReadExact(n: nat) returns (ok: bool, read: Bytes)
      modifies this
      ensures ok <==> n <= |old(Remaining())|
      ensures ok ==> read == old(Remaining())[..n] && Remaining() == old(Remaining())[n..]
    {
      read := [];
      ghost var all := Remaining();
      while |read| < n
        invariant |read| <= n
        invariant read + Remaining() == all
        decreases n - |read|
      {
        var available := FillBuf();
        if available == [] {
          assert read == all;
          return false, read;
        }
        ghost var before := Remaining();
        var taken := Take(available, if |available| <= n - |read| then |available| else n - |read|);
        SplitRead(all, read, before, taken, Remaining());
        read := read + taken;
      }
      return true, read;
    }

    /** One turn: the size line, the signature field, the data and the final two bytes. */
    method NextChunk() returns (t: Turn)
      modifies this
      ensures t.Chunk? ==> Next(old(Remaining())) == Chunk(t.data, Remaining())
      ensures !t.Chunk? ==> t == Next(old(Remaining()))
      ensures t.Chunk? ==> |Remaining()| < |old(Remaining())|
    {
      ghost var all := Remaining();
      var line := ReadUntilSemicolon();
      if line == [] {
        return Fail;
      }
      ghost var rest := Remaining();
      assert all[..|line|] == line && all[|line|..] == rest;
      assert line[..|line| - 1] == all[..|line| - 1];
      var size := ParseSize(line[..|line| - 1]);
      if size.None? {
        return Fail;
      }
      if size.value == 0 {
        return End;
      }
      assert Next(all) == AfterSize(size.value, rest);
      t := ReadAfterSize(size.value);
    }

    /** The rest of a turn behind the size line. */
    method ReadAfterSize(size: nat) returns (t: Turn)
      modifies this
      ensures t.Chunk? ==> AfterSize(size, old(Remaining())) == Chunk(t.data, Remaining())
      ensures !t.Chunk? ==> t == AfterSize(size, old(Remaining()))
      ensures t.Chunk? ==> |Remaining()| < |old(Remaining())|
    {
      ghost var rest := Remaining();
      var ok, signature := ReadExact(SIGNATURE_LENGTH);
      if !ok || size > MAX_ALLOCATION {
        return Fail;
      }
      var ok', data := ReadExact(size);
      if !ok' {
        return Fail;
      }
      var ok'', crlf := ReadExact(2);
      if !ok'' {
        return Fail;
      }
      assert data == rest[SIGNATURE_LENGTH..SIGNATURE_LENGTH + size];
      assert Remaining() == rest[SIGNATURE_LENGTH + size + 2..];
      return Chunk(data, Remaining());
    }

    /** The stream of chunks until it ends or breaks off. */
    method StreamingChunkBody() returns (d: Decoded)
      modifies this
      ensures d == Decode(old(Remaining()))
    {
      var chunks: seq<Bytes> := [];
      ghost var all := Remaining();
      while true
        invariant Decode(all) == Decoded(chunks + Decode(Remaining()).chunks, Decode(Remaining()).finished)
        decreases |Remaining()|
      {
        ghost var before := Remaining();
        var t := NextChunk();
        match t {
          case End => return Decoded(chunks, true);
          case Fail => return Decoded(chunks, false);
          case Chunk(data, _) =>
            DecodeOneMore(chunks, before, data, Remaining());
            chunks := chunks + [data];
        }
      }
    }
  }

  /** Two deliveries of the same bytes decode alike, whatever their frames. */
  method DecodeTwoDeliveries(one: seq<Bytes>, other: seq<Bytes>) returns (a: Decoded, b: Decoded)
    requires Concat(one) == Concat(other)
    ensures a == b == Decode(Concat(one))
  {
    var r := new Reader(one);
    a := r.StreamingChunkBody();
    var r' := new Reader(other);
    b := r'.StreamingChunkBody();
  }
}
