/** The chain of tags of an FLV stream, from src/flv.c, against sections E.3 and E.4.1 of the FLV file
    format specification, version 10.1: each tag is preceded by the size of the tag before it. */
module Flv {
  import opened Bytes
  import opened Wrappers
  import FlvMeta

  const FLVHEADER := 11
  const TWO24 := 0x100_0000
  const TWO32 := 0x1_0000_0000

  datatype Tag = Tag(kind: Byte, ms: nat, data: seq<Byte>)

  predicate TagFits(t: Tag) {
    t.ms < TWO32 && |t.data| + FLVHEADER < TWO24
  }

  function UI24(n: nat): (s: seq<Byte>)
    ensures |s| == 3
  {
    [n / 0x1_0000 % 256, n / 256 % 256, n % 256]
  }

  function From24(s: seq<Byte>): nat
    requires |s| >= 3
  {
    var b0: int, b1: int, b2: int := s[0], s[1], s[2];
    (b0 * 256 + b1) * 256 + b2
  }

  lemma From24Is(n: nat, rest: seq<Byte>)
    ensures From24(UI24(n) + rest) == n % TWO24
  {
    Digits(n);
    var s := UI24(n) + rest;
    assert s[0] == n / 0x1_0000 % 256 && s[1] == n / 256 % 256 && s[2] == n % 256;
  }

  lemma Digits(n: nat)
    ensures (n / 0x1_0000 % 256 * 256 + n / 256 % 256) * 256 + n % 256 == n % TWO24
  {
    var b := n / 256;
    DivDiv(n);
    var c := b / 256;
    var low := (c % 256 * 256 + b % 256) * 256 + n % 256;
    assert n == TWO24 * (c / 256) + low by {
      assert n == 256 * b + n % 256 && b == 256 * c + b % 256 && c == 256 * (c / 256) + c % 256;
    }
    ModIs(n, c / 256, low);
  }

  lemma DivDiv(n: nat)
    ensures n / 256 / 256 == n / 0x1_0000
  {
  }

  lemma ModIs(n: nat, q: nat, low: nat)
    requires n == TWO24 * q + low && low < TWO24
    ensures n % TWO24 == low
  {
  }

  /** PreviousTagSize, and the header of a tag: type, size, time, the top byte of the time, stream 0. */
  function TagHeader(prev: nat, t: Tag): (s: seq<Byte>)
    ensures |s| == 15
  {
    [0] + UI24(prev) + [t.kind] + UI24(|t.data|) + UI24(t.ms) + [t.ms / TWO24 % 256] + [0, 0, 0]
  }

  /** The layout of a tag header: the size of the tag before, the type, the size of the data, the time with its top byte
      last, and the stream, which is 0; numbers have their high byte first. */
  lemma HeaderSpelled(prev: nat, t: Tag)
    requires TagFits(t) && prev < TWO24
    ensures
      var h := TagHeader(prev, t);
      && |h| == 15
      && (((h[0] as int * 256 + h[1] as int) * 256) + h[2] as int) * 256 + h[3] as int == prev
      && h[4] == t.kind
      && (h[5] as int * 256 + h[6] as int) * 256 + h[7] as int == |t.data|
      && ((h[11] as int * 256 + h[8] as int) * 256 + h[9] as int) * 256 + h[10] as int == t.ms
      && h[12] == h[13] == h[14] == 0
  {
    var h := TagHeader(prev, t);
    HeaderReads(prev, t, []);
    assert h + [] == h;
    hide TagHeader;
    assert h[12..15][0] == h[12] && h[12..15][1] == h[13] && h[12..15][2] == h[14];
  }

  /** The size that a tag is said to have is that of its header, without the four bytes for the tag before, and its
      data. */
  lemma SizeIs(prev: nat, t: Tag)
    ensures SizeOf(t) == |TagHeader(prev, t) + t.data| - 4
  {
  }

  function SizeOf(t: Tag): nat {
    FLVHEADER + |t.data|
  }

  /** The size that the next tag is to give, when `prev` was the one before these. */
  function Prev(tags: seq<Tag>, prev: nat): nat {
    if tags == [] then prev else SizeOf(tags[|tags| - 1])
  }

  function Body(tags: seq<Tag>, prev: nat): seq<Byte>
    decreases |tags|
  {
    if tags == [] then [] else TagHeader(prev, tags[0]) + tags[0].data + Body(tags[1..], SizeOf(tags[0]))
  }

  /** A reader that insists on the chain. */
  function ReadTags(s: seq<Byte>, prev: nat): Option<seq<Tag>>
    decreases |s|
  {
    if s == [] then Some([])
    else if |s| < 15 || s[0] != 0 || From24(s[1..]) != prev || s[12..15] != [0, 0, 0] then None
    else
      var n := From24(s[5..]);
      if |s| < 15 + n then None
      else
        var top: int := s[11];
        var tag := Tag(s[4], top * TWO24 + From24(s[8..]), s[15..15 + n]);
        match ReadTags(s[15 + n..], FLVHEADER + n)
        case None => None
        case Some(tags) => Some([tag] + tags)
  }

  lemma HeaderReads(prev: nat, t: Tag, rest: seq<Byte>)
    requires TagFits(t) && prev < TWO24
    ensures
      var s := TagHeader(prev, t) + rest;
      var top: int := s[11];
      && s[0] == 0 && From24(s[1..]) == prev && s[4] == t.kind && From24(s[5..]) == |t.data|
      && top * TWO24 + From24(s[8..]) == t.ms && s[12..15] == [0, 0, 0] && s[15..] == rest
  {
    hide UI24, From24;
    var s := TagHeader(prev, t) + rest;
    Parts(UI24(prev), t.kind, UI24(|t.data|), UI24(t.ms), t.ms / TWO24 % 256, rest);
    From24Is(prev, s[4..]);
    From24Is(|t.data|, s[8..]);
    From24Is(t.ms, s[11..]);
    assert t.ms / TWO24 < 256;
  }

  lemma Parts(a: seq<Byte>, kind: Byte, b: seq<Byte>, c: seq<Byte>, top: Byte, rest: seq<Byte>)
    requires |a| == |b| == |c| == 3
    ensures
      var s := [0] + a + [kind] + b + c + [top] + [0, 0, 0] + rest;
      && s[0] == 0 && s[1..] == a + s[4..] && s[4] == kind && s[5..] == b + s[8..] && s[8..] == c + s[11..]
      && s[11] == top && s[12..15] == [0, 0, 0] && s[15..] == rest
  {
  }

  lemma {:induction false} TagReads(prev: nat, t: Tag, rest: seq<Byte>)
    requires TagFits(t) && prev < TWO24
    ensures
      ReadTags(TagHeader(prev, t) + t.data + rest, prev) ==
        match ReadTags(rest, SizeOf(t)) case None => None case Some(tags) => Some([t] + tags)
  {
    hide From24, TagHeader;
    HeaderReads(prev, t, t.data + rest);
    Slices(TagHeader(prev, t), t.data, rest);
  }

  /** What is written reads as the tags that were meant, each with the right size before it. */
  lemma {:induction false} TagsReadBack(tags: seq<Tag>, prev: nat)
    requires prev < TWO24 && forall i | 0 <= i < |tags| :: TagFits(tags[i])
    ensures ReadTags(Body(tags, prev), prev) == Some(tags)
    decreases |tags|
  {
    if tags != [] {
      hide ReadTags, TagHeader, TagFits;
      SizeBound(tags[0]);
      TagsReadBack(tags[1..], SizeOf(tags[0]));
      assert tags == [tags[0]] + tags[1..];
      TagReads(prev, tags[0], Body(tags[1..], SizeOf(tags[0])));
    }
  }

  lemma SizeBound(t: Tag)
    requires TagFits(t)
    ensures SizeOf(t) < TWO24
  {
  }

  lemma Slices(h: seq<Byte>, d: seq<Byte>, rest: seq<Byte>)
    requires |h| == 15
    ensures
      var s := h + d + rest;
      s == h + (d + rest) && s[15..15 + |d|] == d && s[15 + |d|..] == rest
  {
  }

  lemma Regroup(w: seq<Byte>, b: seq<Byte>, h: seq<Byte>, d: seq<Byte>)
    ensures w + (b + (h + d)) == (w + b) + h + d == w + (b + h + d)
  {
  }

  lemma {:induction false} BodySnoc(tags: seq<Tag>, t: Tag, prev: nat)
    ensures Body(tags + [t], prev) == Body(tags, prev) + TagHeader(Prev(tags, prev), t) + t.data
    decreases |tags|
  {
    hide TagHeader;
    if tags == [] {
      assert [t][1..] == [];
      assert tags + [t] == [t];
    } else {
      var first := tags[0];
      var lead, rest := TagHeader(prev, first) + first.data, tags[1..];
      assert (tags + [t])[1..] == rest + [t];
      assert Body(tags + [t], prev) == lead + Body(rest + [t], SizeOf(first)) && Body(tags, prev) == lead + Body(rest, SizeOf(first));
      hide Body;
      BodySnoc(rest, t, SizeOf(first));
      Regroup(lead, Body(rest, SizeOf(first)), TagHeader(Prev(rest, SizeOf(first)), t), t.data);
    }
  }

  datatype Callback = FirstAac | Aac | Mpx

  const RAW_LEN := 1024
  // the most that metadata made here can be, as there is room for 200 bytes and 30 more
  const META_MAX := 230

  /** The metadata that goes with a block; `made` when it has to be made here. */
  datatype Metadata = Metadata(id: nat, data: seq<Byte>, made: bool)

  predicate MetaFits(m: Metadata) {
    |m.data| + FLVHEADER < TWO24 && (m.made ==> |m.data| <= META_MAX)
  }

  /** The first part of `flv_write_metadata`, when there is no metadata with a block: as many of the entries as
      there is room for.  There always is for what comes of it. */
  method MakeMetadata(id: nat, entries: seq<FlvMeta.Entry>) returns (m: Metadata, ghost n: nat)
    requires forall i | 0 <= i < |entries| :: FlvMeta.Fits(entries[i])
    ensures m.id == id && m.made && |m.data| <= 230 && MetaFits(m)
    ensures n <= |entries| && FlvMeta.ReadMeta(m.data) == Some(entries[..n])
    ensures n == |entries| || 21 + |FlvMeta.Entries(entries[..n + 1])| > 230
  {
    hide FlvMeta.Fits, FlvMeta.EntryBytes, FlvMeta.Entries, FlvMeta.Head, FlvMeta.ReadMeta;
    var b := new FlvMeta.MetaBuffer(200);
    var i, ended := 0, false;
    while i < |entries| && !ended
      invariant i <= |entries| && b.Valid() && b.closed == ended && fresh(b) && fresh(b.buffer) && b.buffer.Length == META_MAX
      invariant b.entries == entries[..i]
      invariant ended ==> i < |entries| && 21 + |FlvMeta.Entries(entries[..i + 1])| > META_MAX
      decreases |entries| - i, !ended
    {
      var before := b.arrayLen;
      FullUpTo(b);
      b.Append(entries[i]);
      NextEntries(entries, i);
      CountOf(b);
      ended := b.arrayLen == before;
      if !ended {
        i := i + 1;
      }
    }
    if !ended {
      b.Close();
    }
    FewEntries(b);
    b.ReadsBack();
    m, n := Metadata(id, b.buffer[..b.metaPos], true), i;
  }

  lemma FullUpTo(b: FlvMeta.MetaBuffer)
    requires b.Valid() && !b.closed
    ensures b.arrayLen == |b.entries| && b.metaPos == 18 + |FlvMeta.Entries(b.entries)|
  {
    hide FlvMeta.Entries;
    assert |b.buffer[..b.metaPos]| == |FlvMeta.Head(b.arrayLen)| + |FlvMeta.Entries(b.entries)|;
  }

  lemma CountOf(b: FlvMeta.MetaBuffer)
    requires b.Valid()
    ensures b.arrayLen == |b.entries|
  {
  }

  lemma NextEntries(entries: seq<FlvMeta.Entry>, i: nat)
    requires i < |entries| && forall i | 0 <= i < |entries| :: FlvMeta.Fits(entries[i])
    ensures |FlvMeta.Entries(entries[..i + 1])| == |FlvMeta.Entries(entries[..i])| + |FlvMeta.EntryBytes(entries[i])|
    ensures entries[..i + 1] == entries[..i] + [entries[i]]
  {
    hide FlvMeta.Fits;
    FlvMeta.EntriesSnoc(entries[..i], entries[i]);
    assert entries[..i + 1] == entries[..i] + [entries[i]];
  }

  lemma FewEntries(b: FlvMeta.MetaBuffer)
    requires b.Valid() && b.buffer.Length == META_MAX
    ensures b.metaPos <= META_MAX && |b.entries| < 0x1_0000
  {
    AtLeastOneEach(b.entries);
    hide FlvMeta.Entries;
    assert |b.buffer[..b.metaPos]| >= |FlvMeta.Entries(b.entries)|;
  }

  lemma {:induction false} AtLeastOneEach(es: seq<FlvMeta.Entry>)
    requires forall i | 0 <= i < |es| :: FlvMeta.Fits(es[i])
    ensures |FlvMeta.Entries(es)| >= |es|
    decreases |es|
  {
    if es != [] {
      AtLeastOneEach(es[..|es| - 1]);
    }
  }

  class Packer {
    const tag: array<Byte>
    var prevTagSize: nat
    var prevMs: nat
    var rawOffset: nat
    var blockPos: nat
    var callback: Callback
    var seen: nat                   // which metadata has been sent
    var bufs: seq<Byte>             // what is packed

    ghost var wire: seq<Byte>
    ghost var tags: seq<Tag>        // all that have been packed

    ghost predicate Valid()
      reads this, tag
    {
      && tag.Length == 30 && tag[0] == 0 && tag[12..15] == [0, 0, 0]
      && (callback.Aac? ==> tag[15] == 0xAF && tag[16] == 1)
      && blockPos <= |bufs| && rawOffset <= RAW_LEN && (rawOffset == 0 ==> bufs == [])
      && prevTagSize == Prev(tags, 0) && prevTagSize < TWO24
      && (forall i | 0 <= i < |tags| :: TagFits(tags[i]))
      && wire + bufs[blockPos..] == Body(tags, 0)
    }

    /** `flv_create_client_data` */
    constructor (aac: bool)
      ensures Ready() && tags == [] && wire == [] && fresh(tag) && rawOffset == 0
    {
      tag := new Byte[30](i => if i == 4 then 8 else if i == 15 && !aac then 0x22 else 0);
      prevTagSize, prevMs, rawOffset, blockPos, seen, bufs := 0, 0, 0, 0, 0, [];
      callback := if aac then FirstAac else Mpx;
      wire, tags := [], [];
      new;
      assert tag[12..15] == [0, 0, 0] && bufs[0..] == [];
    }

    /** Audio is what comes unless something else is said. */
    ghost predicate Ready()
      reads this, tag
    {
      Valid() && tag[4] == 8
    }

    /** All that went out, and will, reads as the tags. */
    lemma Readable()
      requires Valid()
      ensures ReadTags(wire + bufs[blockPos..], 0) == Some(tags)
    {
      TagsReadBack(tags, 0);
    }

    /** A number in three bytes, the low one last. */
    method Put24(at: nat, n: nat)
      requires at + 3 <= tag.Length
      modifies tag
      ensures tag[at..at + 3] == UI24(n)
      ensures forall i | 0 <= i < tag.Length && !(at <= i < at + 3) :: tag[i] == old(tag[i])
    {
      var v := n;
      tag[at + 2] := v % 256;
      v := v / 256;
      tag[at + 1] := v % 256;
      v := v / 256;
      tag[at] := v % 256;
      DivDiv(n);
    }

    /** `flv_hdr` */
    method Hdr(kind: Byte, len: nat, ghost data: seq<Byte>)
      requires tag.Length == 30 && tag[0] == 0 && tag[4] == kind && tag[12..15] == [0, 0, 0] && len == |data|
      modifies tag
      ensures tag[..15] == TagHeader(prevTagSize, Tag(kind, prevMs % TWO32, data))
      ensures forall i | 12 <= i < 30 || i == 4 || i == 0 :: tag[i] == old(tag[i])
    {
      hide UI24;
      Put24(1, prevTagSize);
      Put24(5, len);
      Put24(8, prevMs);
      tag[11] := prevMs / 256 / 256 / 256 % 256;
      TopByte(prevMs);
      assert tag[12..15] == old(tag[12..15]);
      Assemble(tag[..], prevTagSize, kind, len, prevMs % TWO32);
    }

    /** Only the low 32 bits of the time matter. */
    lemma TopByte(ms: nat)
      ensures ms / 256 / 256 / 256 % 256 == ms % TWO32 / TWO24 % 256
      ensures UI24(ms) == UI24(ms % TWO32)
    {
      var q, r := ms / TWO32, ms % TWO32;
      Shifted(q, r);
      Mod256(TWO24 * q, r);
      Mod256(0x1_0000 * q, r / 256);
      Mod256(256 * q, r / 0x1_0000);
      Mod256(q, r / TWO24);
      Thrice(ms);
    }

    lemma Thrice(n: nat)
      ensures n / 256 / 256 / 256 == n / TWO24
    {
      DivDiv(n);
    }

    lemma Mod256(x: nat, y: nat)
      ensures (256 * x + y) % 256 == y % 256
    {
    }

    lemma Shifted(q: nat, r: nat)
      requires r < TWO32
      ensures (TWO32 * q + r) / 256 == TWO24 * q + r / 256
      ensures (TWO32 * q + r) / 0x1_0000 == 0x1_0000 * q + r / 0x1_0000
      ensures (TWO32 * q + r) / TWO24 == 256 * q + r / TWO24
    {
    }

    lemma Assemble(t: seq<Byte>, prev: nat, kind: Byte, len: nat, ms: nat)
      requires |t| == 30 && t[0] == 0 && t[1..4] == UI24(prev) && t[4] == kind && t[5..8] == UI24(len)
      requires t[8..11] == UI24(ms) && t[11] == ms / TWO24 % 256 && t[12..15] == [0, 0, 0]
      ensures t[..15] == [0] + UI24(prev) + [kind] + UI24(len) + UI24(ms) + [ms / TWO24 % 256] + [0, 0, 0]
    {
      hide UI24;
      assert t[..15] == [t[0]] + t[1..4] + [t[4]] + t[5..8] + t[8..11] + [t[11]] + t[12..15];
    }

    /** A tag goes into the buffer: its header, the `n` bytes that `tag` has after it, and the rest. */
    method Put(kind: Byte, n: nat, payload: seq<Byte>, raw: nat)
      requires Valid() && kind == tag[4] && n <= 15 && n + |payload| + FLVHEADER < TWO24
      requires 0 < raw && rawOffset + raw <= RAW_LEN
      modifies this`bufs, this`prevTagSize, this`rawOffset, this`tags, tag
      ensures Valid() && rawOffset == old(rawOffset) + raw
      ensures tag[15..] == old(tag[15..]) && tag[4] == kind
      ensures tags == old(tags) + [Tag(kind, prevMs % TWO32, old(tag[15..15 + n]) + payload)]
    {
      hide Body, TagHeader, Prev;
      ghost var data := tag[15..15 + n] + payload;
      ghost var t := Tag(kind, prevMs % TWO32, data);
      ghost var was, before := bufs, bufs[blockPos..];
      Hdr(kind, n + |payload|, data);
      bufs := bufs + tag[..15 + n] + payload;
      BodySnoc(tags, t, 0);
      assert tag[..15 + n] == tag[..15] + tag[15..15 + n];
      Added(was, blockPos, tag[..15], tag[15..15 + n], payload);
      Regroup(wire, before, tag[..15], data);
      prevTagSize := n + |payload| + FLVHEADER;
      PrevOf(tags, t);
      rawOffset := rawOffset + raw;
      tags := tags + [t];
    }

    lemma Added(s: seq<Byte>, pos: nat, a: seq<Byte>, b: seq<Byte>, c: seq<Byte>)
      requires pos <= |s|
      ensures (s + (a + b) + c)[pos..] == s[pos..] + (a + (b + c))
    {
    }

    lemma PrevOf(ts: seq<Tag>, t: Tag)
      ensures Prev(ts + [t], 0) == SizeOf(t)
    {
    }

    /** `flv_write_metadata`: as it comes with the stream, or made here and then copied to the raw buffer,
        where there is always room for it. */
    method WriteMetadata(meta: Metadata)
      requires Ready() && MetaFits(meta) && rawOffset <= 19
      modifies this`bufs, this`prevTagSize, this`rawOffset, this`tags, tag
      ensures Ready() && old(rawOffset) < rawOffset <= old(rawOffset) + 15 + META_MAX
      ensures tags == old(tags) + [Tag(18, prevMs % TWO32, meta.data)]
      ensures tag[15..] == old(tag[15..])
    {
      var prevType := tag[4];
      ghost var tail := tag[15..];
      tag[4] := 18; // metadata
      StillValid(tail);
      assert tag[15..15] == [] && [] + meta.data == meta.data;
      Put(18, 0, meta.data, 15 + if meta.made then |meta.data| else 0);
      assert tag[15..] == tail;
      tag[4] := prevType;
      StillValid(tail);
    }

    /** The type byte has no part in what has been packed. */
    lemma StillValid(tail: seq<Byte>)
      requires tag.Length == 30 && tag[0] == 0 && tag[12..15] == [0, 0, 0] && tag[15..] == tail
      requires callback.Aac? ==> tail[0] == 0xAF && tail[1] == 1
      requires blockPos <= |bufs| && rawOffset <= RAW_LEN && (rawOffset == 0 ==> bufs == [])
      requires prevTagSize == Prev(tags, 0) && prevTagSize < TWO24
      requires forall i | 0 <= i < |tags| :: TagFits(tags[i])
      requires wire + bufs[blockPos..] == Body(tags, 0)
      ensures Valid()
    {
      assert tag[15] == tail[0] && tag[16] == tail[1];
    }

    /** Metadata that has not been sent comes before the first audio in a buffer. */
    method BeforeAudio(meta: Metadata)
      requires Ready() && MetaFits(meta) && rawOffset <= 19
      modifies this`bufs, this`prevTagSize, this`rawOffset, this`tags, tag
      ensures Ready() && tag[15..] == old(tag[15..])
      ensures old(rawOffset) <= rawOffset <= old(rawOffset) + 15 + META_MAX
      ensures tags == old(tags) + if seen != meta.id then [Tag(18, prevMs % TWO32, meta.data)] else []
    {
      if seen != meta.id {
        WriteMetadata(meta);
      }
    }

    /** `flv_mpX_hdr`: `codec` is what goes with the sample rate and channels, the first time. */
    method MpxHdr(frame: seq<Byte>, codec: Byte, now: nat, meta: Metadata) returns (ret: int)
      requires Ready() && callback == Mpx && MetaFits(meta) && |frame| + 1 + FLVHEADER < TWO24
      modifies this, tag
      ensures Ready() && ret == if old(rawOffset) + 16 > 1024 then -1 else 0
      ensures ret == -1 ==> tags == old(tags)
      ensures ret == 0 ==>
                tags == old(tags)
                  + (if old(rawOffset) == 0 && old(seen) != meta.id then [Tag(18, old(prevMs) % TWO32, meta.data)] else [])
                  + [Tag(8, old(prevMs) % TWO32, [tag[15]] + frame)]
    {
      if rawOffset + 16 > RAW_LEN {
        return -1;
      }
      hide Body, TagHeader, Prev, TagFits, UI24;
      if rawOffset == 0 {
        BeforeAudio(meta);
      }
      ghost var before := tags;
      assert before == old(tags)
        + if old(rawOffset) == 0 && old(seen) != meta.id then [Tag(18, old(prevMs) % TWO32, meta.data)] else [];
      if tag[15] == 0x22 {
        tag[15] := codec;
      }
      assert tag[15..16] == [tag[15]];
      Put(8, 1, frame, 16);
      assert tags == before + [Tag(8, old(prevMs) % TWO32, [tag[15]] + frame)];
      prevMs := now;
      ret := 0;
    }

    /** `flv_aac_hdr`: the frame without its ADTS header. */
    method AacHdr(frame: seq<Byte>, headerLen: nat, now: nat, meta: Metadata) returns (ret: int)
      requires Ready() && callback == Aac && MetaFits(meta)
      requires headerLen <= |frame| && |frame| + 2 + FLVHEADER < TWO24
      modifies this, tag
      ensures Ready() && callback == Aac && seen == old(seen)
      ensures ret == if old(rawOffset) + 17 > 1024 then -1 else 0
      ensures ret == -1 ==> tags == old(tags)
      ensures ret == 0 ==>
                tags == old(tags)
                  + (if old(rawOffset) == 0 && old(seen) != meta.id then [Tag(18, old(prevMs) % TWO32, meta.data)] else [])
                  + [Tag(8, old(prevMs) % TWO32, [0xAF, 1] + frame[headerLen..])]
    {
      if rawOffset + 17 > RAW_LEN {
        return -1;
      }
      hide Body, TagHeader, Prev;
      if rawOffset == 0 {
        BeforeAudio(meta);
      }
      var payload := frame[headerLen..]; // no ADTS headers in FLV frames
      assert tag[15..17] == [0xAF, 1];
      Put(8, 2, payload, 17);
      prevMs := now;
      ret := 0;
    }

    /** `flv_aac_firsthdr`: the configuration of the codec comes first. */
    method FirstHdr(config: seq<Byte>, frame: seq<Byte>, headerLen: nat, now: nat, meta: Metadata) returns (ret: int)
      requires Ready() && callback == FirstAac && rawOffset == 0 && MetaFits(meta) && |config| <= 2
      requires headerLen <= |frame| && |frame| + 2 + FLVHEADER < TWO24
      modifies this, tag
      ensures Ready() && callback == Aac && ret == 0
      ensures tags == old(tags) + [Tag(8, old(prevMs) % TWO32, [0xAF, 0] + config)]
                + (if old(seen) != meta.id then [Tag(18, old(prevMs) % TWO32, meta.data)] else [])
                + [Tag(8, old(prevMs) % TWO32, [0xAF, 1] + frame[headerLen..])]
    {
      hide Body, TagHeader, Prev;
      Configure(config);
      BeforeAudio(meta);
      assert tags + [] == tags;
      ret := AacHdr(frame, headerLen, now, meta);
    }

    method Configure(config: seq<Byte>)
      requires Ready() && callback == FirstAac && rawOffset == 0 && |config| <= 2
      modifies this`bufs, this`prevTagSize, this`rawOffset, this`tags, this`callback, tag
      ensures Ready() && callback == Aac && 0 < rawOffset <= 19
      ensures tags == old(tags) + [Tag(8, prevMs % TWO32, [0xAF, 0] + config)]
    {
      hide Body, TagHeader, Prev;
      var c := |config|;
      forall i | 0 <= i < c {
        tag[17 + i] := config[i];
      }
      tag[15] := 0xAF;
      tag[16] := 0;
      assert tag[12..15] == old(tag[12..15]);
      assert tag[15..17 + c] == [0xAF, 0] + config;
      ghost var data := tag[15..15 + (2 + c)] + [];
      assert data == [0xAF, 0] + config;
      Put(8, 2 + c, [], 17 + c);
      assert tags == old(tags) + [Tag(8, prevMs % TWO32, data)];
      assert tag[15] == tag[15..][0];
      tag[16] := 1;
      assert tag[12..15] == [0, 0, 0];
      callback := Aac;
    }

    /** `send_flv_buffer`, and what `write_flv_buf_to_client` does once all is sent. */
    method Send(take: int, meta: Metadata) returns (ret: int)
      requires Ready()
      modifies this
      ensures Ready() && tags == old(tags) && prevTagSize == old(prevTagSize)
      ensures -1 <= ret <= |old(bufs)| - old(blockPos)
      ensures wire == old(wire) + old(bufs)[old(blockPos)..old(blockPos) + Max(ret, 0)]
      ensures rawOffset == 0 <==> old(rawOffset) == 0 || old(blockPos) + Max(ret, 0) == |old(bufs)|
      ensures rawOffset == 0 ==> bufs == [] && seen == meta.id
    {
      hide Body, Prev;
      var len := |bufs| - blockPos;
      ret := 0;
      if len > 0 {
        ret := if take < 0 then -1 else Min(take, len);
        if ret > 0 {
          ghost var left := bufs[blockPos..];
          wire := wire + bufs[blockPos..blockPos + ret];
          assert left == bufs[blockPos..blockPos + ret] + bufs[blockPos + ret..];
          blockPos := blockPos + ret;
        }
      }
      if blockPos == |bufs| {
        assert bufs[blockPos..] == [];
        blockPos, rawOffset, bufs := 0, 0, [];
      }
      if rawOffset == 0 {
        seen := meta.id;
      }
    }
  }
}
