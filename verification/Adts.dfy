/** Frames and tags as a writer makes them, against how src/mpeg.c reads them: the ADTS header of ISO/IEC 13818-7
    (section 6.2), the sizes of APE and ID3v2 tags, and which bits of a header have to match. */
module Adts {
  import opened Bytes
  import opened Mpeg

  /** The fields of an ADTS header but for the length. */
  datatype Fields = Fields(id: nat, layer: nat, noCrc: nat, profile: nat, rate: nat, priv: nat, channels: nat, copy: nat,
                           full: nat, blocks: nat)

  predicate Proper(h: Fields) {
    && h.id < 2 && h.layer < 4 && h.noCrc < 2 && h.profile < 4 && h.rate < 16 && h.priv < 2 && h.channels < 8
    && h.copy < 16 && h.full < 2048 && h.blocks < 4
  }

  /** Twelve bits of sync, then the fields from the top bit on, thirteen bits of length among them. */
  function WriteHeader(h: Fields, n: nat): (s: seq<Byte>)
    requires Proper(h) && n < 8192
    ensures |s| == 7
  {
    [0xFF,
     0xF0 + 8 * h.id + 2 * h.layer + h.noCrc,
     64 * h.profile + 4 * h.rate + 2 * h.priv + h.channels / 4,
     64 * (h.channels % 4) + 4 * h.copy + n / 2048,
     n / 8 % 256,
     32 * (n % 8) + h.full / 64,
     4 * (h.full % 64) + h.blocks]
  }

  /** A length is read as it was written, whatever comes after the header. */
  lemma LengthReads(h: Fields, n: nat, rest: seq<Byte>)
    requires Proper(h) && n < 8192
    ensures AacLen(WriteHeader(h, n) + rest) == n
  {
    var s := WriteHeader(h, n) + rest;
    var k, l := n / 2048, n / 8 % 256;
    assert s[3] == 64 * (h.channels % 4) + 4 * h.copy + k;
    LowBits(64 * (h.channels % 4) + 4 * h.copy, k);
    assert s[4] == l && s[5] == 32 * (n % 8) + h.full / 64;
    assert n == 2048 * k + 8 * l + n % 8;
  }

  lemma LowBits(high: nat, low: nat)
    requires high % 4 == 0 && low < 4
    ensures (high + low) % 4 == low
  {
  }

  /** A frame has 1024 samples for each of its raw blocks. */
  lemma SamplesRead(h: Fields, n: nat, rest: seq<Byte>)
    requires Proper(h) && n < 8192
    ensures AacSamples(WriteHeader(h, n) + rest) == 1024 * (h.blocks + 1)
  {
    var s := WriteHeader(h, n) + rest;
    assert s[6] == 4 * (h.full % 64) + h.blocks;
    LowBits(4 * (h.full % 64), h.blocks);
  }

  /** The same stream, as far as a header tells: checksums, the private and copyright bits, lengths and fill may
      differ from frame to frame. */
  predicate SameStream(h: Fields, g: Fields) {
    h.id == g.id && h.layer == g.layer && h.profile == g.profile && h.rate == g.rate && h.channels == g.channels
  }

  /** Headers match exactly when they are of the same stream. */
  lemma HeadersMatch(h: Fields, n: nat, s: seq<Byte>, g: Fields, m: nat, t: seq<Byte>)
    requires Proper(h) && n < 8192 && Proper(g) && m < 8192
    ensures Masked(AacMask, WriteHeader(h, n) + s) == Masked(AacMask, WriteHeader(g, m) + t) <==> SameStream(h, g)
  {
    MaskedIs(h, n, s);
    MaskedIs(g, m, t);
  }

  lemma MaskedIs(h: Fields, n: nat, rest: seq<Byte>)
    requires Proper(h) && n < 8192
    ensures Masked(AacMask, WriteHeader(h, n) + rest)
         == Header(0xFF, 0xF0 + 8 * h.id + 2 * h.layer, 64 * h.profile + 4 * h.rate + h.channels / 4,
                   64 * (h.channels % 4))
  {
    var s := WriteHeader(h, n) + rest;
    assert s[0] == 0xFF;
    LastBit(0xF0 + 8 * h.id + 2 * h.layer, h.noCrc);
    MiddleBit(16 * h.profile + h.rate, h.priv, h.channels / 4);
    TopBits(h.channels % 4, 4 * h.copy + n / 2048);
    assert s[1] == 0xF0 + 8 * h.id + 2 * h.layer + h.noCrc;
    assert s[2] == 64 * h.profile + 4 * h.rate + 2 * h.priv + h.channels / 4;
    assert s[3] == 64 * (h.channels % 4) + (4 * h.copy + n / 2048);
  }

  lemma LastBit(high: nat, low: nat)
    requires high % 2 == 0 && low < 2
    ensures (high + low) - (high + low) % 2 == high
  {
  }

  lemma MiddleBit(k: nat, mid: nat, low: nat)
    requires mid < 2 && low < 2
    ensures (4 * k + 2 * mid + low) / 2 % 2 == mid
  {
    Half(2 * k + mid, low);
    Half(k, mid);
  }

  lemma Half(k: nat, low: nat)
    requires low < 2
    ensures (2 * k + low) / 2 == k && (2 * k + low) % 2 == low
  {
  }

  lemma TopBits(high: nat, low: nat)
    requires low < 64
    ensures (64 * high + low) - (64 * high + low) % 64 == 64 * high
  {
  }

  /** The other masks: fifteen, eleven or eight bits have to match. */
  lemma OtherMasks(p: seq<Byte>, q: seq<Byte>)
    requires |p| >= 4 && |q| >= 4
    ensures Masked(Mp3Mask, p) == Masked(Mp3Mask, q) <==> p[0] == q[0] && p[1] as int / 2 == q[1] as int / 2
    ensures Masked(UsacMask, p) == Masked(UsacMask, q) <==> p[0] == q[0] && p[1] as int / 32 == q[1] as int / 32
    ensures Masked(OneByte, p) == Masked(OneByte, q) <==> p[0] == q[0]
  {
  }

  // ---------------------------------------------------------------------------------------------
  // Streams
  // ---------------------------------------------------------------------------------------------

  datatype Raw = Raw(h: Fields, payload: seq<Byte>)

  predicate Writable(rs: seq<Raw>, first: Fields) {
    forall i | 0 <= i < |rs| :: Proper(rs[i].h) && SameStream(rs[i].h, first) && 7 + |rs[i].payload| < 8192
  }

  function WriteFrame(r: Raw): seq<Byte>
    requires Proper(r.h) && 7 + |r.payload| < 8192
  {
    WriteHeader(r.h, 7 + |r.payload|) + r.payload
  }

  function WriteAll(rs: seq<Raw>, ghost first: Fields): (frames: seq<seq<Byte>>)
    requires Writable(rs, first)
    ensures |frames| == |rs| && forall i | 0 <= i < |rs| :: frames[i] == WriteFrame(rs[i])
  {
    seq(|rs|, i requires 0 <= i < |rs| => WriteFrame(rs[i]))
  }

  /** All the raw blocks. */
  function RawBlocks(rs: seq<Raw>): nat {
    if rs == [] then 0 else RawBlocks(rs[..|rs| - 1]) + rs[|rs| - 1].h.blocks + 1
  }

  lemma {:induction false} WrittenIsStream(rs: seq<Raw>, first: Fields)
    requires Proper(first) && Writable(rs, first)
    ensures AllAac(WriteAll(rs, first), Masked(AacMask, WriteHeader(first, 7)))
    ensures Samples(WriteAll(rs, first)) == 1024 * RawBlocks(rs)
    decreases |rs|
  {
    hide AacLen, AacSamples, Masked, WriteHeader, Proper;
    var frames := WriteAll(rs, first);
    forall i | 0 <= i < |rs|
      ensures AacFrame(frames[i], Masked(AacMask, WriteHeader(first, 7)))
    {
      var n := 7 + |rs[i].payload|;
      LengthReads(rs[i].h, n, rs[i].payload);
      HeadersMatch(rs[i].h, n, rs[i].payload, first, 7, []);
      assert WriteHeader(first, 7) + [] == WriteHeader(first, 7);
    }
    if rs != [] {
      var k := |rs| - 1;
      WrittenIsStream(rs[..k], first);
      SamplesRead(rs[k].h, 7 + |rs[k].payload|, rs[k].payload);
      assert frames[..k] == WriteAll(rs[..k], first);
    }
  }

  /** However a stream that was written is cut up, the blocks that come out of the aligner are whole frames of it, in
      order, and the samples counted are 1024 for each raw block in them. */
  method FeedWritten(a: Aligner, chunks: seq<seq<Byte>>, f: nat -> Findings, rs: seq<Raw>, ghost first: Fields)
      returns (out: seq<seq<Byte>>, total: nat, ghost cuts: seq<nat>)
    requires Proper(first) && Writable(rs, first) && Join(chunks) <= Join(WriteAll(rs, first))
    requires a.Synced() && a.surplus.None? && a.header == Masked(AacMask, WriteHeader(first, 7))
    modifies a
    ensures Join(out) + a.WithSurplus([]) == Join(chunks)
    ensures |out| == |chunks| && WholeFrames(out, WriteAll(rs, first), cuts) && cuts[|out|] <= |rs|
    ensures total == 1024 * RawBlocks(rs[..cuts[|out|]])
    ensures Tail(a.WithSurplus([]), WriteAll(rs, first), cuts[|out|])
  {
    hide Join, AllAac, Samples, WholeFrames, Masked, Tail, RawBlocks;
    ghost var frames := WriteAll(rs, first);
    WrittenIsStream(rs, first);
    out, total, cuts := a.Feed(chunks, f, frames);
    OneCutMore(out, frames, cuts);
    ghost var n := cuts[|out|];
    WrittenIsStream(rs[..n], first);
    assert frames[..n] == WriteAll(rs[..n], first);
  }

  lemma OneCutMore(out: seq<seq<Byte>>, frames: seq<seq<Byte>>, cuts: seq<nat>)
    requires WholeFrames(out, frames, cuts)
    ensures |cuts| == |out| + 1
  {
  }

  // ---------------------------------------------------------------------------------------------
  // Tags
  // ---------------------------------------------------------------------------------------------

  /** What the names of tags and containers are in letters. */
  lemma NamesSpelled()
    ensures APE == Letters("APETAGEX") && TAG == Letters("TAG") && ID3 == Letters("ID3")
    ensures OGGS == Letters("OggS") && FTYP == Letters("ftyp") && MATROSKA == [0x1A, 0x45, 0xDF, 0xA3]
  {
  }

  lemma BeginningsSpelled(p: seq<Byte>)
    requires |p| >= 8
    ensures BeginsTag(p) <==> Letters("TAG") <= p || Letters("ID3") <= p || Letters("APETAGEX") <= p
    ensures OtherContainer(p) <==> p[4..8] == Letters("ftyp") || p[..4] == [0x1A, 0x45, 0xDF, 0xA3]
  {
    NamesSpelled();
  }

  /** What is taken for a tag: it says so in letters, and an APE tag or the 128 bytes of an ID3v1 tag are all
      there, or the version and flags of an ID3v2 tag can be right. */
  lemma TagsSeen(p: seq<Byte>)
    requires |p| >= 16
    ensures TagCheck(p) == 1 <==>
              || (Letters("APETAGEX") <= p && ApeLen(p) <= |p|)
              || (Letters("TAG") <= p && |p| >= 128)
              || (Letters("ID3") <= p && p[3] < 255 && p[4] < 255 && p[5] as int % 16 == 0)
    ensures TagCheck(p) == 0 <==>
              (Letters("APETAGEX") <= p && ApeLen(p) > |p|) || (Letters("TAG") <= p && |p| < 128)
  {
    hide ApeLen;
    NamesSpelled();
    assert Letters("APETAGEX") <= p ==> p[0] == 'A' as int;
    assert Letters("TAG") <= p ==> p[0] == 'T' as int;
    assert Letters("ID3") <= p ==> p[0] == 'I' as int;
  }

  /** What may be the start of a stream: the sync byte of a transport stream, eleven sync bits of USAC, the sync bits
      of MPEG audio but not what is only ones, an Ogg page or a tag. */
  lemma CandidatesSeen(p: seq<Byte>)
    requires |p| >= 3
    ensures Candidate(p) <==>
              || p[0] == 0x47 || (p[0] == 0x56 && p[1] as int / 32 == 7) || (p[0] == 0xFF && (p[1] < 0xFF || p[2] < 0xFC))
              || Letters("OggS") <= p || Letters("ID3") <= p || Letters("TAG") <= p || Letters("APETAGEX") <= p
  {
    NamesSpelled();
  }

  /** An APE tag gives its size in four bytes, the low one first, without the 32 of its header. */
  lemma ApeLenReads(lead: seq<Byte>, d: seq<Byte>, rest: seq<Byte>)
    requires |lead| == 12 && |d| == 4
    ensures ApeLen(lead + d + rest) ==
              (d[0] as int + 0x100 * (d[1] as int) + 0x1_0000 * (d[2] as int) + 0x100_0000 * (d[3] as int) + 32)
                % 0x1_0000_0000
  {
    var s := lead + d + rest;
    assert s[12] == d[0] && s[13] == d[1] && s[14] == d[2] && s[15] == d[3];
  }

  /** An ID3v2 tag gives it in four digits of seven bits, the high one first. */
  lemma Id3SizeReads(lead: seq<Byte>, d: seq<Byte>, rest: seq<Byte>)
    requires |lead| == 6 && |d| == 4 && forall i | 0 <= i < 4 :: d[i] < 128
    ensures Id3Size(lead + d + rest) == 0x20_0000 * (d[0] as int) + 0x4000 * (d[1] as int) + 0x80 * (d[2] as int) + d[3] as int
  {
    var s := lead + d + rest;
    assert s[6] == d[0] && s[7] == d[1] && s[8] == d[2] && s[9] == d[3];
  }
}
