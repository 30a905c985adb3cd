/** The chunked transfer coding of section 4.1 of RFC 7230, and the chunk framing of src/connection.c
    and src/format_mp3.c that must be a body in it. */
module Chunked {
  import opened Bytes
  import opened Wrappers
  import opened Connection

  const CR := 13
  const LF := 10

  // ---------------------------------------------------------------------------------------------
  // Reading a chunked body
  // ---------------------------------------------------------------------------------------------

  function HexDigit(d: nat): (c: Byte)
    requires d < 16
    ensures c != CR
  {
    if d < 10 then 48 + d else 87 + d
  }

  function DigitValue(c: Byte): (r: Option<nat>)
    ensures r.Some? ==> r.value < 16
  {
    if 48 <= c <= 57 then Some(c - 48)
    else if 97 <= c <= 102 then Some(c - 87)
    else if 65 <= c <= 70 then Some(c - 55)
    else None
  }

  /** The value of `1*HEXDIG`. */
  function HexValue(s: seq<Byte>): Option<nat> {
    if s == [] then None
    else
      match DigitValue(s[|s| - 1])
      case None => None
      case Some(d) =>
        if |s| == 1 then Some(d)
        else
          match HexValue(s[..|s| - 1])
          case None => None
          case Some(v) => Some(16 * v + d)
  }

  /** The first carriage return, or the end. */
  function FindCr(s: seq<Byte>): (k: nat)
    ensures k <= |s| && CR !in s[..k] && (k < |s| ==> s[k] == CR)
  {
    if s == [] || s[0] == CR then 0
    else
      var k := FindCr(s[1..]);
      assert s[..k + 1] == [s[0]] + s[1..][..k];
      k + 1
  }

  datatype Chunk = Chunk(data: seq<Byte>, rest: seq<Byte>)

  /** The first chunk of a body, and what follows it. */
  function FirstChunk(s: seq<Byte>): (r: Option<Chunk>)
    ensures r.Some? ==> |r.value.rest| < |s|
  {
    var k := FindCr(s);
    if k + 2 > |s| || s[k + 1] != LF then None
    else
      match HexValue(s[..k])
      case None => None
      case Some(n) =>
        var at := k + 2;
        if at + n + 2 > |s| || s[at + n] != CR || s[at + n + 1] != LF then None
        else Some(Chunk(s[at..at + n], s[at + n + 2..]))
  }

  /** What a reader makes of the chunks received so far; an empty chunk ends the body. */
  function Decode(s: seq<Byte>): Option<seq<Byte>>
    decreases |s|
  {
    if s == [] then Some([])
    else
      match FirstChunk(s)
      case None => None
      case Some(c) =>
        if c.data == [] then Some([])
        else
          match Decode(c.rest)
          case None => None
          case Some(d) => Some(c.data + d)
  }

  // ---------------------------------------------------------------------------------------------
  // Writing one
  // ---------------------------------------------------------------------------------------------

  /** `%x` */
  function Hex(n: nat): (s: seq<Byte>)
    ensures |s| >= 1 && CR !in s
  {
    if n < 16 then [HexDigit(n)] else Hex(n / 16) + [HexDigit(n % 16)]
  }

  lemma {:induction false} HexLength(n: nat, k: nat)
    requires n < Pow16(k) && k >= 1
    ensures |Hex(n)| <= k
    decreases k
  {
    if n >= 16 {
      assert n / 16 < Pow16(k - 1);
      HexLength(n / 16, k - 1);
    }
  }

  function Pow16(k: nat): nat {
    if k == 0 then 1 else 16 * Pow16(k - 1)
  }

  lemma {:induction false} HexReadsBack(n: nat)
    ensures HexValue(Hex(n)) == Some(n)
  {
    var s := Hex(n);
    if n >= 16 {
      HexReadsBack(n / 16);
      assert s[..|s| - 1] == Hex(n / 16) && s[|s| - 1] == HexDigit(n % 16);
    }
  }

  function Header(n: nat): seq<Byte> {
    Hex(n) + [CR, LF]
  }

  function Encode(data: seq<Byte>): (s: seq<Byte>)
    ensures |s| > |data|
  {
    Header(|data|) + data + [CR, LF]
  }

  lemma EolIs()
    ensures Letters("\r\n") == [CR, LF]
  {
  }

  /** A chunk, byte by byte. */
  lemma EncodeSpelled(data: seq<Byte>)
    ensures Encode(data) == Hex(|data|) + Letters("\r\n") + data + Letters("\r\n")
  {
    hide Hex, Letters;
    EolIs();
  }

  /** The digits of a size, the high one first, with no zero in front. */
  lemma DigitsSpelled(n: nat, d: nat)
    requires d < 16
    ensures Hex(d) == [HexDigit(d)]
    ensures n > 0 ==> Hex(16 * n + d) == Hex(n) + [HexDigit(d)]
  {
    assert (16 * n + d) / 16 == n && (16 * n + d) % 16 == d;
  }

  lemma DigitSpelled(d: nat)
    requires d < 16
    ensures HexDigit(d) == "0123456789abcdef"[d] as int
  {
  }

  lemma {:induction false} FindCrAt(a: seq<Byte>, b: seq<Byte>)
    requires CR !in a && b != [] && b[0] == CR
    ensures FindCr(a + b) == |a|
  {
    if a == [] {
      assert a + b == b;
    } else {
      assert (a + b)[1..] == a[1..] + b && (a + b)[0] == a[0];
      FindCrAt(a[1..], b);
    }
  }

  lemma FirstChunkOf(data: seq<Byte>, rest: seq<Byte>)
    ensures FirstChunk(Encode(data) + rest) == Some(Chunk(data, rest))
  {
    hide Hex, HexValue, FindCr;
    var n := |data|;
    var s := Encode(data) + rest;
    var hex, tail := Hex(n), [CR, LF] + data + [CR, LF] + rest;
    assert s == hex + tail;
    FindCrAt(hex, tail);
    HexReadsBack(n);
    var at := |hex| + 2;
    assert s[..|hex|] == hex && s[|hex| + 1] == LF;
    assert tail[2..2 + n] == data && s[at..at + n] == data;
    assert tail[2 + n] == CR && tail[3 + n] == LF;
    assert s[at + n + 2..] == rest;
  }

  /** The chunks sent so far. */
  function Body(chunks: seq<seq<Byte>>): seq<Byte> {
    if chunks == [] then [] else Body(chunks[..|chunks| - 1]) + Encode(chunks[|chunks| - 1])
  }

  lemma BodySnoc(chunks: seq<seq<Byte>>, last: seq<Byte>)
    ensures Body(chunks + [last]) == Body(chunks) + Encode(last)
  {
    assert (chunks + [last])[..|chunks|] == chunks;
  }

  /** No chunk is empty: an empty one would end the body. */
  ghost predicate AllFull(chunks: seq<seq<Byte>>) {
    forall i | 0 <= i < |chunks| :: chunks[i] != []
  }

  lemma {:induction false} BodyCons(first: seq<Byte>, chunks: seq<seq<Byte>>)
    ensures Body([first] + chunks) == Encode(first) + Body(chunks)
    decreases |chunks|
  {
    hide Encode;
    var all := [first] + chunks;
    if chunks == [] {
      assert all[..0] == [];
    } else {
      var n := |chunks| - 1;
      BodyCons(first, chunks[..n]);
      assert all[..|all| - 1] == [first] + chunks[..n] && all[|all| - 1] == chunks[n];
    }
  }

  /** Chunks that carry something are read back as their data, in order. */
  lemma {:induction false} DecodeBody(chunks: seq<seq<Byte>>)
    requires AllFull(chunks)
    ensures Decode(Body(chunks)) == Some(Join(chunks))
    decreases |chunks|
  {
    hide Encode, FirstChunk;
    if chunks != [] {
      var rest := chunks[1..];
      assert chunks == [chunks[0]] + rest;
      BodyCons(chunks[0], rest);
      FirstChunkOf(chunks[0], Body(rest));
      assert forall i | 0 <= i < |rest| :: rest[i] == chunks[i + 1];
      DecodeBody(rest);
      JoinAppend([chunks[0]], rest);
      JoinSnoc([], chunks[0]);
      assert [] + [chunks[0]] == [chunks[0]];
      assert Join([chunks[0]]) == chunks[0];
      var s := Body(chunks);
      assert FirstChunk(s) == Some(Chunk(chunks[0], Body(rest))) && s != [];
      assert Decode(s) == Some(chunks[0] + Join(rest));
    }
  }

  // ---------------------------------------------------------------------------------------------
  // The framing in the source
  // ---------------------------------------------------------------------------------------------

  const CHUNK_HDR_SZ := 16

  /** `connection_chunk_start`: the header is printed and appended; it fits its buffer with a NUL. */
  method ChunkStart(bufs: Bufs, size: nat) returns (header: seq<Byte>)
    requires bufs.Valid() && size < 0x1_0000_0000
    modifies bufs, bufs.block
    ensures bufs.Valid() && (bufs.block == old(bufs.block) || fresh(bufs.block))
    ensures header == Header(size) && |header| < CHUNK_HDR_SZ
    ensures Flat(bufs.Vectors()) == old(Flat(bufs.Vectors())) + Header(size)
  {
    header := Header(size);
    assert Pow16(8) == 0x1_0000_0000;
    HexLength(size, 8);
    var _ := bufs.Append(IoVec(header, 0, |header|));
  }

  /** `connection_chunk_end`: the line end of the header is used again after the data. */
  method ChunkEnd(bufs: Bufs, header: seq<Byte>, size: nat) returns (overall: nat)
    requires bufs.Valid() && header == Header(size)
    modifies bufs, bufs.block
    ensures bufs.Valid() && (bufs.block == old(bufs.block) || fresh(bufs.block))
    ensures Flat(bufs.Vectors()) == old(Flat(bufs.Vectors())) + [CR, LF]
    ensures overall == bufs.total
  {
    var p := FindCr(header);
    FindCrAt(Hex(size), [CR, LF]);
    assert header[p..p + 2] == [CR, LF];
    overall := bufs.Append(IoVec(header, p, 2));
  }
}
