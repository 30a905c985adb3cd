/** Writing stream data to a listener, from src/format_mp3.c: metadata inserts, or chunked output.

    Everything is stated about `con.wire`, the bytes the listener has been sent since the response
    header, for every behaviour of the network. */
module Mp3Listener {
  import opened Bytes
  import opened Wrappers
  import opened Connection
  import opened Icy
  import opened Chunked
  import Mp3Title

  /** A `metadata_block`; the source compares them by address, which `id` stands for. */
  datatype MetaBlock = MetaBlock(id: nat, icy: Option<seq<Byte>>)

  /** A block of the stream queue. */
  datatype Block = Block(data: seq<Byte>, meta: Option<MetaBlock>)

  /** `"\001StreamTitle='';"` and the NULs up to the 17 bytes its length claims. */
  const BLANK_ICY: seq<Byte> := [1, 83, 116, 114, 101, 97, 109, 84, 105, 116, 108, 101, 61, 39, 39, 59, 0]
  const BLANK_META := MetaBlock(0, Some(BLANK_ICY))

  /** The metadata block that goes with a stream block: its own, or the blank one. */
  function MetaOf(b: Block): (mb: MetaBlock)
    ensures mb.icy.Some?
  {
    if b.meta.None? || b.meta.value.icy.None? then BLANK_META else b.meta.value
  }

  ghost predicate GoodBlock(b: Block) {
    |b.data| <= 0xFFFFFF && WellFormed(MetaOf(b).icy.value)
  }

  /** What a listener of a block is to be shown: the metadata that the block carries, or when it carries none
      an empty title. */
  ghost predicate CallsFor(b: Block, icy: seq<Byte>) {
    match b.meta
    case Some(MetaBlock(_, Some(own))) => icy == own
    case _ => Mp3Title.IsBlock(icy, Mp3Title.TITLE + Mp3Title.END)
  }

  lemma MetaIsCalledFor(b: Block)
    ensures CallsFor(b, MetaOf(b).icy.value)
  {
    var text := Mp3Title.TITLE + Mp3Title.END;
    assert |text| == 15 && BLANK_ICY[1..16] == text;
  }

  /** This is what a listener with these metadata blocks is showing: the last that is longer than a byte. */
  ghost predicate Showing(metas: seq<seq<Byte>>, icy: seq<Byte>) {
    exists k | 0 <= k < |metas| :: metas[k] == icy && |icy| > 1 && forall j | k < j < |metas| :: |metas[j]| == 1
  }

  lemma ShowingNow(metas: seq<seq<Byte>>, icy: seq<Byte>)
    requires |icy| > 1
    ensures Showing(metas + [icy], icy)
  {
    assert (metas + [icy])[|metas|] == icy;
  }

  lemma ShowingStill(metas: seq<seq<Byte>>, icy: seq<Byte>)
    requires Showing(metas, icy)
    ensures Showing(metas + [[0]], icy)
  {
    var k :| 0 <= k < |metas| && metas[k] == icy && |icy| > 1 && forall j | k < j < |metas| :: |metas[j]| == 1;
    assert (metas + [[0]])[k] == icy;
  }

  const MAX_SEND := 100000

  class Listener {
    const con: Connection
    const interval: nat
    const chunked: bool
    var since: nat
    var metaOffset: nat
    var inMetadata: bool
    var associated: Option<MetaBlock>
    var block: Block
    var pos: nat

    ghost var audio: seq<Byte>            // the stream data consumed
    ghost var metas: seq<seq<Byte>>       // the metadata blocks sent whole
    ghost var chunks: seq<seq<Byte>>      // the chunks sent whole

    /** What the next write sends when no metadata is due. */
    function Slice(): (s: seq<Byte>)
      reads this
      requires pos <= |block.data|
    {
      var rest := |block.data| - pos;
      var len := if interval > 0 && rest > interval - since && since <= interval then interval - since else rest;
      block.data[pos..pos + Min(len, MAX_SEND)]
    }

    /** How much that is: all that is left of the block, but not over 100000 bytes, nor past the place of the next
        metadata. */
    lemma SliceIs()
      requires pos <= |block.data| && since <= interval
      ensures
        var rest := |block.data| - pos;
        && Slice() == block.data[pos..pos + |Slice()|] && |Slice()| <= 100000
        && (interval > 0 ==> |Slice()| <= interval - since)
        && (|| |Slice()| == rest || |Slice()| == 100000 || (interval > 0 && |Slice()| == interval - since))
    {
    }

    ghost predicate Common()
      reads this
    {
      && pos <= |block.data| && GoodBlock(block)
      && interval <= 0xFFFF && (chunked ==> interval == 0)
      && (inMetadata <==> metaOffset > 0)
    }

    /** With metadata, the wire is the consumed audio interleaved with the blocks sent, and a front part
        of the block being sent. */
    ghost predicate Interleaved()
      reads this, con
      requires Common()
    {
      && Fits(interval, audio, metas) && since == Since(interval, audio, metas)
      && (metaOffset > 0 ==> since == interval && pos < |block.data| && metaOffset < |MetaOf(block).icy.value|)
      && con.wire == Interleave(interval, audio, metas) + MetaOf(block).icy.value[..metaOffset]
    }

    /** In chunks, the wire is a body that reads as the consumed audio, and a front part of the next. */
    ghost predicate InChunks()
      reads this, con
      requires Common()
    {
      && metaOffset == 0
      && AllFull(chunks) && Join(chunks) == audio
      && con.chunkPos < |Encode(Slice())| && (con.chunkPos > 0 ==> pos < |block.data|)
      && con.wire == Body(chunks) + Encode(Slice())[..con.chunkPos]
    }

    /** The metadata block that is remembered is the one that the listener is showing. */
    ghost predicate Remembered()
      reads this`associated, this`metas
    {
      associated.Some? ==>
        associated.value.icy.Some? && (|associated.value.icy.value| > 1 ==> Showing(metas, associated.value.icy.value))
    }

    ghost predicate Valid()
      reads this, con
    {
      && Common() && Remembered()
      && (interval > 0 ==> Interleaved())
      && (chunked ==> InChunks())
      && (interval == 0 && !chunked ==> metaOffset == 0 && con.wire == audio)
    }

    constructor (con: Connection, interval: nat, chunked: bool, first: Block)
      requires con.wire == [] && con.chunkPos == 0
      requires interval <= 0xFFFF && (chunked ==> interval == 0) && GoodBlock(first)
      ensures Valid() && this.con == con && audio == [] && block == first && pos == 0
      ensures this.interval == interval && this.chunked == chunked
    {
      this.con, this.interval, this.chunked := con, interval, chunked;
      since, metaOffset, inMetadata, associated := 0, 0, false, None;
      block, pos := first, 0;
      audio, metas, chunks := [], [], [];
    }

    /** The next block of the queue. */
    method NextBlock(next: Block)
      requires Valid() && pos == |block.data| && GoodBlock(next)
      modifies this`block, this`pos
      ensures Valid() && block == next && pos == 0
    {
      block, pos := next, 0;
    }

    /** Sends metadata and stream data as one vector. */
    method SendPair(metadata: seq<Byte>, data: seq<Byte>, net: Net) returns (ret: int, len: nat)
      requires |metadata| <= 0xFFFFFF && |data| <= 0xFFFFFF
      requires net.Tls? == con.ssl
      modifies con`error, con`sentBytes, con`wire
      ensures len == |metadata| + |data| && -1 <= ret <= len
      ensures con.wire == old(con.wire) + (metadata + data)[..Max(ret, 0)]
      ensures net.Plain? && net.takes >= 0 && metadata != [] ==> ret == Min(net.takes, len)
    {
      hide Flat;
      var bufs := new Bufs(2);
      len := bufs.Append(IoVec(metadata, 0, |metadata|));
      if |data| > 0 {
        len := bufs.Append(IoVec(data, 0, |data|));
      }
      assert IoVec(metadata, 0, |metadata|).View() == metadata && IoVec(data, 0, |data|).View() == data;
      assert Flat(bufs.Vectors()) == metadata + data;
      ret := bufs.Send(con, 0, net);
    }

    /** The metadata to send now: a NUL when the listener already has this block, else what is left. */
    function Metadata(): (metadata: seq<Byte>)
      reads this
      requires Common() && metaOffset < |MetaOf(block).icy.value|
      ensures WellFormed(MetaOf(block).icy.value[..metaOffset] + metadata)
      ensures |metadata| <= |MetaOf(block).icy.value|
      ensures metadata == MetaOf(block).icy.value[metaOffset..]
              || (metadata == [0] && metaOffset == 0 && associated == Some(MetaOf(block)))
    {
      var icy := MetaOf(block).icy.value;
      if associated == Some(MetaOf(block)) && !inMetadata then
        [0]
      else
        assert icy[..metaOffset] + icy[metaOffset..] == icy; icy[metaOffset..]
    }

    /** The stream data that goes with it. */
    function Following(): seq<Byte>
      reads this
      requires Common()
    {
      block.data[pos..pos + Min(|block.data| - pos, interval)]
    }

    lemma FollowingIs()
      requires Common()
      ensures Following() == block.data[pos..pos + |Following()|] && |Following()| <= interval
      ensures |Following()| == |block.data| - pos || |Following()| == interval
    {
    }

    /** What one write asks the connection to take. */
    ghost function Offered(): seq<Byte>
      reads this, con
      requires Valid()
    {
      if interval > 0 && since == interval then Metadata() + Following()
      else if chunked then Encode(Slice())[con.chunkPos..]
      else Slice()
    }

    /** The metadata block of the current block has gone out whole, and is remembered as what the
        listener has. */
    ghost predicate MetaIsOut(before: seq<seq<Byte>>)
      reads this
    {
      && |metas| == |before| + 1 && metas[..|before|] == before
      && (metas[|before|] == MetaOf(block).icy.value || metas[|before|] == [0])
      && associated == Some(MetaOf(block)) && metaOffset == 0
    }

    /** No metadata block has been completed, or one has. */
    ghost predicate Noted(before: seq<seq<Byte>>, known: Option<MetaBlock>)
      reads this
    {
      (metas == before && associated == known) || MetaIsOut(before)
    }

    /** The wire after a write.  `from` and `offered` are the wire and the offer before it. */
    ghost predicate Grown(from: seq<Byte>, offered: seq<Byte>, net: Net)
      reads con
    {
      && from <= con.wire <= from + offered
      && (net.Plain? && net.takes >= 0 ==> con.wire == from + offered[..Min(net.takes, |offered|)])
    }

    lemma Grew(from: seq<Byte>, offered: seq<Byte>, net: Net)
      requires Grown(from, offered, net)
      ensures |from| <= |con.wire|
      ensures net.Plain? && net.takes >= 1 && offered != [] ==> |from| < |con.wire|
    {
    }

    lemma StillRemembered()
      requires Valid()
      ensures Remembered()
    {
    }

    /** There is always something to send of a block that is not over. */
    lemma OfferedSome()
      requires Valid() && pos < |block.data|
      ensures Offered() != []
    {
      hide Encode;
    }

    /** `send_icy_metadata`. */
    method SendIcyMetadata(net: Net) returns (ret: int)
      requires Valid() && interval > 0 && since == interval && pos < |block.data|
      requires net.Tls? == con.ssl
      modifies this, con`error, con`sentBytes, con`wire
      ensures Valid() && block == old(block)
      ensures old(pos) <= pos <= |block.data| && audio == old(audio) + block.data[old(pos)..pos]
      ensures Grown(old(con.wire), old(Metadata() + Following()), net)
      ensures Noted(old(metas), old(associated))
    {
      hide Interleave, Fits, Since, InChunks;
      var metadata, data := Metadata(), Following();
      var len;
      ghost var wire0 := con.wire;
      ret, len := SendPair(metadata, data, net);
      if ret >= |metadata| {
        MetaDone(metadata, ret - |metadata|, data, wire0);
      } else {
        MetaPartSent(metadata, data, Max(ret, 0));
        if ret > 0 {
          MetaKept(ret, metadata, wire0);
        } else {
          assert con.wire == wire0;
        }
      }
    }

    method MetaDone(metadata: seq<Byte>, queueBytes: nat, data: seq<Byte>, ghost wire0: seq<Byte>)
      requires Common() && Remembered() && interval > 0 && since == interval && pos < |block.data|
      requires Fits(interval, audio, metas) && since == Since(interval, audio, metas)
      requires metaOffset < |MetaOf(block).icy.value|
      requires WellFormed(MetaOf(block).icy.value[..metaOffset] + metadata) && metadata == Metadata()
      requires data == block.data[pos..pos + Min(|block.data| - pos, interval)] && queueBytes <= |data|
      requires wire0 == Interleave(interval, audio, metas) + MetaOf(block).icy.value[..metaOffset]
      requires con.wire == wire0 + (metadata + data)[..|metadata| + queueBytes]
      modifies this
      ensures Valid() && block == old(block)
      ensures old(pos) <= pos <= |block.data| && audio == old(audio) + block.data[old(pos)..pos]
      ensures MetaIsOut(old(metas))
    {
      hide Interleave, Fits, Since, InChunks, MetaOf;
      ghost var begun := MetaOf(block).icy.value[..metaOffset];
      assert begun + MetaOf(block).icy.value[metaOffset..] == MetaOf(block).icy.value;
      MetaSent(interval, audio, metas, begun, metadata, data, queueBytes, wire0, con.wire);
      assert data[..queueBytes] == block.data[pos..pos + queueBytes];
      ShowsNow(begun, metadata);
      metas := metas + [begun + metadata];
      audio := audio + data[..queueBytes];
      since := queueBytes;
      pos := pos + queueBytes;
      inMetadata, metaOffset := false, 0;
      associated := Some(MetaOf(block));
      assert MetaOf(block).icy.value[..0] == [];
    }

    lemma ShowsNow(begun: seq<Byte>, metadata: seq<Byte>)
      requires Common() && Remembered() && metaOffset < |MetaOf(block).icy.value|
      requires begun == MetaOf(block).icy.value[..metaOffset] && metadata == Metadata()
      ensures |MetaOf(block).icy.value| > 1 ==> Showing(metas + [begun + metadata], MetaOf(block).icy.value)
    {
      hide MetaOf, Showing;
      var icy := MetaOf(block).icy.value;
      if |icy| > 1 {
        if metadata == icy[metaOffset..] {
          assert begun + metadata == icy;
          ShowingNow(metas, icy);
        } else {
          assert begun + metadata == [0];
          ShowingStill(metas, icy);
        }
      }
    }

    method MetaKept(ret: nat, metadata: seq<Byte>, ghost wire0: seq<Byte>)
      requires Common() && Remembered() && interval > 0 && since == interval && pos < |block.data|
      requires Fits(interval, audio, metas) && since == Since(interval, audio, metas)
      requires 0 < ret < |metadata| && metaOffset < |MetaOf(block).icy.value|
      requires metadata == MetaOf(block).icy.value[metaOffset..]
      requires wire0 == Interleave(interval, audio, metas) + MetaOf(block).icy.value[..metaOffset]
      requires con.wire == wire0 + metadata[..ret]
      modifies this`inMetadata, this`metaOffset
      ensures Valid()
    {
      hide Interleave, Fits, Since, InChunks, MetaOf;
      ghost var icy := MetaOf(block).icy.value;
      assert icy[..metaOffset] + metadata[..ret] == icy[..metaOffset + ret];
      inMetadata := true;
      metaOffset := metaOffset + ret;
    }

    /** `format_mp3_write_buf_to_client`: on return the consumed audio has grown by exactly the part of
        the block that `pos` moved over. */
    method WriteBuf(net: Net) returns (ret: int)
      requires Valid() && pos < |block.data|
      requires net.Tls? == con.ssl
      modifies this, con`error, con`sentBytes, con`wire, con`chunkPos
      ensures Valid() && block == old(block)
      ensures old(pos) <= pos <= |block.data| && audio == old(audio) + block.data[old(pos)..pos]
      ensures Grown(old(con.wire), old(Offered()), net)
      ensures metas != old(metas) ==>
                && interval > 0 && old(since) == interval && |metas| == |old(metas)| + 1 && metas[..|old(metas)|] == old(metas)
                && associated.Some? && associated.value.icy.Some? && CallsFor(block, associated.value.icy.value)
                && (|associated.value.icy.value| > 1 ==> Showing(metas, associated.value.icy.value))
      ensures Noted(old(metas), old(associated))
    {
      hide MetaOf, Interleave, Fits, CallsFor, Showing;
      if interval > 0 && interval == since {
        ret := SendIcyMetadata(net);
        MetaIsCalledFor(block);
        StillRemembered();
        return;
      }
      if chunked {
        ret := SendChunk(net);
        return;
      }
      var slice := Slice();
      ghost var wire0 := con.wire;
      ret := SendBytes(con, slice, net);
      if ret > 0 {
        Consume(slice, ret, wire0);
      } else {
        assert con.wire == wire0;
      }
    }

    method Consume(slice: seq<Byte>, ret: nat, ghost wire0: seq<Byte>)
      requires Common() && Remembered() && !chunked && metaOffset == 0 && pos < |block.data|
      requires interval > 0 ==>
                 && Fits(interval, audio, metas) && since == Since(interval, audio, metas) < interval
                 && wire0 == Interleave(interval, audio, metas)
      requires interval == 0 ==> wire0 == audio
      requires slice == Slice() && ret <= |slice| && con.wire == wire0 + slice[..ret]
      modifies this`since, this`pos, this`audio
      ensures Valid()
      ensures old(pos) <= pos <= |block.data| && audio == old(audio) + block.data[old(pos)..pos]
    {
      hide Interleave, Fits, Since;
      if interval > 0 {
        MoreAudio(interval, audio, metas, slice[..ret]);
      }
      assert slice[..ret] == block.data[pos..pos + ret];
      since := (since + ret) % 0x1_0000;
      pos := pos + ret;
      audio := audio + slice[..ret];
      assert MetaOf(block).icy.value[..0] == [];
    }

    /** The chunked branch: each call resumes the same chunk at `chunkPos` until it is sent whole. */
    method SendChunk(net: Net) returns (ret: int)
      requires Valid() && chunked && pos < |block.data|
      requires net.Tls? == con.ssl
      modifies this`chunks, this`since, this`pos, this`audio, con`error, con`sentBytes, con`wire, con`chunkPos
      ensures Valid() && block == old(block)
      ensures old(pos) <= pos <= |block.data| && audio == old(audio) + block.data[old(pos)..pos]
      ensures Grown(old(con.wire), old(Encode(Slice())[con.chunkPos..]), net)
    {
      hide Encode, Body, Join, Hex, Header, Interleaved, GoodBlock;
      var slice := Slice();
      ghost var sent, enc, wire0 := con.chunkPos, Encode(slice), con.wire;
      var overall;
      ret, overall := SendRestOfChunk(slice, net);
      ChunkGrown(Body(chunks), enc, sent, Max(ret, 0), wire0, net);
      if ret > 0 {
        con.chunkPos := con.chunkPos + ret;
      }
      if con.chunkPos == overall {
        ChunkDone(slice);
        ret := |slice|;
      } else {
        ret := -1;
      }
    }

    lemma ChunkGrown(body: seq<Byte>, enc: seq<Byte>, sent: nat, more: nat, wire0: seq<Byte>, net: Net)
      requires sent + more <= |enc| && wire0 == body + enc[..sent] && con.wire == wire0 + enc[sent..sent + more]
      requires sent < |enc| && (net.Plain? && net.takes >= 0 ==> more == Min(net.takes, |enc| - sent))
      ensures con.wire == body + enc[..sent + more] && (sent + more == |enc| ==> con.wire == body + enc)
      ensures Grown(wire0, enc[sent..], net)
    {
      assert enc[..sent] + enc[sent..sent + more] == enc[..sent + more];
      assert enc[sent..][..more] == enc[sent..sent + more];
      assert enc[..|enc|] == enc;
    }

    method ChunkDone(slice: seq<Byte>)
      requires Common() && Remembered() && chunked && metaOffset == 0 && slice == Slice() && slice != []
      requires AllFull(chunks) && Join(chunks) == audio
      requires con.wire == Body(chunks) + Encode(slice)
      modifies this`chunks, this`since, this`pos, this`audio, con`chunkPos
      ensures Valid()
      ensures old(pos) <= pos <= |block.data| && audio == old(audio) + block.data[old(pos)..pos]
    {
      hide Encode, Body, Join, Hex, Header, Interleaved;
      BodySnoc(chunks, slice);
      JoinSnoc(chunks, slice);
      con.chunkPos := 0;
      chunks := chunks + [slice];
      since := (since + |slice|) % 0x1_0000;
      pos := pos + |slice|;
      audio := audio + slice;
      assert Encode(Slice())[..0] == [];
    }

    method SendRestOfChunk(slice: seq<Byte>, net: Net) returns (ret: int, overall: nat)
      requires 0 < |slice| <= MAX_SEND && con.chunkPos < |Encode(slice)|
      requires net.Tls? == con.ssl
      modifies con`error, con`sentBytes, con`wire
      ensures overall == |Encode(slice)| && -1 <= ret <= overall - con.chunkPos
      ensures con.wire == old(con.wire) + Encode(slice)[con.chunkPos..con.chunkPos + Max(ret, 0)]
      ensures net.Plain? && net.takes >= 0 ==> ret == Min(net.takes, overall - con.chunkPos)
    {
      hide Hex, HexValue, Body, Join, Flat, AllValid;
      var bufs := new Bufs(4);
      var header := ChunkStart(bufs, |slice|);
      var len := bufs.Append(IoVec(slice, 0, |slice|));
      assert IoVec(slice, 0, |slice|).View() == slice;
      overall := ChunkEnd(bufs, header, |slice|);
      assert Flat(bufs.Vectors()) == Encode(slice);
      ret := bufs.Send(con, con.chunkPos, net);
    }
  }

  /** The rest of a metadata block and `q` bytes of stream data reach the wire. */
  lemma MetaSent(interval: nat, audio: seq<Byte>, metas: seq<seq<Byte>>, begun: seq<Byte>,
                 metadata: seq<Byte>, data: seq<Byte>, q: nat, wire0: seq<Byte>, wire1: seq<Byte>)
    requires Fits(interval, audio, metas) && Since(interval, audio, metas) == interval
    requires WellFormed(begun + metadata) && q <= |data| <= interval
    requires wire0 == Interleave(interval, audio, metas) + begun
    requires wire1 == wire0 + (metadata + data)[..|metadata| + q]
    ensures
      var ms := metas + [begun + metadata];
      && Fits(interval, audio + data[..q], ms) && Since(interval, audio + data[..q], ms) == q
      && wire1 == Interleave(interval, audio + data[..q], ms)
  {
    hide Interleave, Fits, Since;
    MoreMeta(interval, audio, metas, begun + metadata);
    MoreAudio(interval, audio, metas + [begun + metadata], data[..q]);
    assert (metadata + data)[..|metadata| + q] == metadata + data[..q];
  }

  lemma MetaPartSent(metadata: seq<Byte>, data: seq<Byte>, k: nat)
    requires k <= |metadata|
    ensures (metadata + data)[..k] == metadata[..k]
  {
  }
}
