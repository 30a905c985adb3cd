/** What a listener is sent and what a source reads back, over whole runs: src/format_mp3.c at both ends
    of a relay. */
module RoundTrip {
  import opened Bytes
  import opened Connection
  import opened Icy
  import opened Chunked
  import opened Mp3Listener
  import opened Mp3Source
  import opened Wrappers
  import Mp3Title

  /** The stream data of a queue. */
  function Stream(queue: seq<Block>): seq<Byte> {
    if queue == [] then [] else Stream(queue[..|queue| - 1]) + queue[|queue| - 1].data
  }

  lemma {:induction false} StreamSplit(queue: seq<Block>, k: nat)
    requires k < |queue|
    ensures Stream(queue[..k]) + queue[k].data == Stream(queue[..k + 1]) <= Stream(queue)
    decreases |queue|
  {
    assert queue[..k + 1][..k] == queue[..k];
    var n := |queue| - 1;
    if k < n {
      StreamSplit(queue[..n], k);
      assert queue[..n][..k] == queue[..k] && queue[..n][..k + 1] == queue[..k + 1];
    } else {
      assert queue[..k + 1] == queue;
    }
  }

  /** Every write gets rid of a byte at least. */
  ghost predicate Moving(nets: seq<Net>) {
    forall i | 0 <= i < |nets| :: nets[i].Plain? && nets[i].takes >= 1
  }

  ghost predicate Usable(con: Connection, nets: seq<Net>) {
    forall i | 0 <= i < |nets| :: nets[i].Tls? == con.ssl
  }

  /** The block of the queue that has byte `n` of the stream. */
  ghost predicate BlockAt(queue: seq<Block>, q: nat, n: nat) {
    q < |queue| && |Stream(queue[..q])| <= n < |Stream(queue[..q + 1])|
  }

  /** Where in the stream metadata comes for the `n`th time. */
  function Spot(interval: nat, n: nat): nat {
    interval * n
  }

  /** Metadata `k` is for the block that the stream has come to there: with it the listener shows what that block
      carries, or an empty title. */
  ghost predicate MetaFrom(queue: seq<Block>, interval: nat, metas: seq<seq<Byte>>, k: nat) {
    k < |metas| && ForSome(queue, interval, metas[..k + 1])
  }

  ghost predicate ForSome(queue: seq<Block>, interval: nat, metas: seq<seq<Byte>>) {
    exists q: nat, icy: seq<Byte> :: MetaFor(queue, interval, metas, q, icy)
  }

  ghost predicate MetaFor(queue: seq<Block>, interval: nat, metas: seq<seq<Byte>>, q: nat, icy: seq<Byte>) {
    BlockAt(queue, q, Spot(interval, |metas|)) && CallsFor(queue[q], icy) && (|icy| > 1 ==> Showing(metas, icy))
  }

  ghost predicate AllFrom(queue: seq<Block>, interval: nat, metas: seq<seq<Byte>>) {
    forall k | 0 <= k < |metas| :: MetaFrom(queue, interval, metas, k)
  }

  lemma OneMore(queue: seq<Block>, interval: nat, was: seq<seq<Byte>>, metas: seq<seq<Byte>>, q: nat, icy: seq<Byte>)
    requires AllFrom(queue, interval, was) && |metas| == |was| + 1 && metas[..|was|] == was
    requires MetaFor(queue, interval, metas, q, icy)
    ensures AllFrom(queue, interval, metas)
  {
    hide MetaFor;
    forall k | 0 <= k < |metas|
      ensures MetaFrom(queue, interval, metas, k)
    {
      if k < |was| {
        assert MetaFrom(queue, interval, was, k) && metas[..k + 1] == was[..k + 1];
      } else {
        assert metas[..k + 1] == metas;
      }
    }
  }

  lemma NextSpot(interval: nat, n: nat)
    ensures Spot(interval, n + 1) == Spot(interval, n) + interval
  {
  }

  /** Where the stream has come to when a metadata block is out. */
  lemma {:induction false} AudioIs(interval: nat, audio: seq<Byte>, metas: seq<seq<Byte>>)
    requires Fits(interval, audio, metas)
    ensures |audio| == Spot(interval, |metas|) + Since(interval, audio, metas)
    decreases |metas|
  {
    if metas != [] {
      AudioIs(interval, audio[interval..], metas[1..]);
    }
  }

  /** Any number of writes of a queue to a new listener, whatever the network does to each. */
  method Serve(l: Listener, queue: seq<Block>, nets: seq<Net>)
    requires l.Valid() && queue != [] && l.block == queue[0] && l.pos == 0 && l.audio == []
    requires forall i | 0 <= i < |queue| :: GoodBlock(queue[i])
    requires Usable(l.con, nets)
    modifies l, l.con
    ensures l.Valid() && l.audio <= Stream(queue)
    ensures l.interval > 0 ==> AllFrom(queue, l.interval, l.metas)
    ensures Moving(nets) ==> l.audio == Stream(queue) || |l.con.wire| > old(|l.con.wire|) + |nets| - |queue|
  {
    hide Stream, Listener.Valid, Listener.Grown, Listener.Noted, Listener.Offered, GoodBlock,
      Spot, CallsFor, Showing, AllFrom;
    var at, i := 0, 0;
    ghost var wire0 := l.con.wire;
    assert queue[..0] == [];
    NoStream(queue);
    Nothing(l);
    while i < |nets|
      invariant 0 <= i <= |nets| && at < |queue|
      invariant l.Valid() && l.block == queue[at]
      invariant l.pos <= |l.block.data|
      invariant l.interval > 0 ==> AllFrom(queue, l.interval, l.metas)
      invariant l.audio == Stream(queue[..at]) + queue[at].data[..l.pos]
      invariant Moving(nets) ==>
                  (at + 1 == |queue| && l.pos == |l.block.data|) || |l.con.wire| >= |wire0| + i - at
    {
      if l.pos < |l.block.data| {
        ghost var from, offered, metas := l.con.wire, l.Offered(), l.metas;
        Place(l, queue, at);
        l.OfferedSome();
        var ret := l.WriteBuf(nets[i]);
        l.Grew(from, offered, nets[i]);
        if l.metas != metas {
          OneMore(queue, l.interval, metas, l.metas, at, l.associated.value.icy.value);
        }
      } else if at + 1 < |queue| {
        StreamSplit(queue, at);
        assert queue[at].data[..l.pos] == queue[at].data;
        at := at + 1;
        l.NextBlock(queue[at]);
      }
      i := i + 1;
    }
    StreamSplit(queue, at);
    assert l.pos == |l.block.data| ==> queue[at].data[..l.pos] == queue[at].data;
    assert at + 1 == |queue| ==> queue[..at + 1] == queue;
  }

  lemma Nothing(l: Listener)
    requires l.Valid() && l.audio == []
    ensures l.interval > 0 ==> forall queue :: AllFrom(queue, l.interval, l.metas)
  {
  }

  lemma Place(l: Listener, queue: seq<Block>, at: nat)
    requires l.Valid() && at < |queue| && l.block == queue[at] && l.pos < |l.block.data|
    requires l.audio == Stream(queue[..at]) + queue[at].data[..l.pos]
    ensures l.interval > 0 && l.since == l.interval ==> BlockAt(queue, at, Spot(l.interval, |l.metas| + 1))
  {
    hide Stream, Interleave, Fits, Since, MetaOf, Listener.InChunks;
    if l.interval > 0 && l.since == l.interval {
      AudioIs(l.interval, l.audio, l.metas);
      NextSpot(l.interval, |l.metas|);
      StreamSplit(queue, at);
    }
  }

  lemma NoStream(queue: seq<Block>)
    ensures Stream(queue[..0]) == []
  {
  }

  /** A reader of the wire with the listener's interval has exactly the data the listener has consumed,
      and the metadata blocks sent whole. */
  lemma WireReadsBack(l: Listener)
    requires l.Valid() && l.interval > 0
    ensures
      var r := Read(l.interval, START, l.con.wire);
      r.audio == l.audio && r.metas == l.metas
  {
    hide Read, Step;
    var icy := MetaOf(l.block).icy.value;
    var whole := Interleave(l.interval, l.audio, l.metas);
    ReadInterleave(l.interval, START, l.audio, l.metas);
    assert [] + l.audio == l.audio;
    if l.metaOffset == 0 {
      assert l.con.wire == whole;
    } else {
      ReadAppend(l.interval, START, whole, icy[..l.metaOffset]);
      ReadMeta(l.interval, Read(l.interval, START, whole), icy, 0, l.metaOffset);
      assert icy[0..l.metaOffset] == icy[..l.metaOffset];
    }
  }

  /** Chunked output is a chunked body for the data consumed, then a front part of one more chunk. */
  lemma ChunksDecode(l: Listener)
    requires l.Valid() && l.chunked
    ensures
      var sent := |l.con.wire| - l.con.chunkPos;
      && sent >= 0 && Decode(l.con.wire[..sent]) == Some(l.audio)
      && l.con.wire[sent..] <= Encode(l.Slice())
  {
    DecodeBody(l.chunks);
    hide Decode, Encode, Body, Join;
    assert l.con.wire[..|Body(l.chunks)|] == Body(l.chunks);
  }

  /** Any number of reads by a source, whatever each has to give and whatever the frame parser leaves, until a
      block cannot be parsed.  All that is given is taken, and all but less than 23800 bytes of it filtered; all
      audio but 20000 bytes at most has been emitted, unless some was dropped; and the parser of titles has been
      told all the metadata there was, however it was cut up. */
  method Drain(s: Source, pieces: seq<seq<Byte>>, rates: nat -> nat, tails: nat -> int)
      returns (used: nat, unused: seq<Byte>)
    requires s.Valid() && s.running && s.wire == [] && !s.dropped && s.readData == null
    modifies s, s.filter, s.filter.build, s.filter.title
    ensures s.Valid() && (s.readData != null ==> s.left <= s.readCount < s.readData.Length <= MAX_BUFFER)
    ensures used <= |pieces| && s.wire + s.Unread() + unused == Join(pieces[..used]) && |s.Unread()| < MAX_BUFFER
    ensures !s.dropped ==>
              s.emitted <= s.Reached().audio && |s.Reached().audio| - |s.emitted| <= TOO_MUCH
    ensures !s.running ==> s.dropped
    ensures s.running ==> used == |pieces| && unused == []
    ensures (forall k :: 0 <= tails(k) <= TOO_MUCH) ==> s.running && !s.dropped
    ensures Told(old(s.filter.Heard()), s.filter.Heard(), [], s.Reached().metas)
  {
    hide Read, Join, Source.Valid, Source.HandedOn, Told;
    var k := 0;
    used, unused := 0, [];
    s.BufferBounds();
    JoinNone(pieces);
    NothingReached(s);
    ToldNothing(s.filter.Heard(), []);
    while s.running && (unused != [] || used < |pieces|)
      invariant used <= |pieces| && s.Valid() && (s.readData == null || fresh(s.readData))
      invariant s.readData != null ==> s.left <= s.readCount < s.readData.Length <= MAX_BUFFER
      invariant s.wire + s.Unread() + unused == Join(pieces[..used])
      invariant (forall k :: 0 <= tails(k) <= TOO_MUCH) ==> s.running && !s.dropped
      invariant !s.running ==> s.dropped
      invariant Told(old(s.filter.Heard()), s.filter.Heard(), [], s.Reached().metas)
      decreases |pieces| - used, |unused|
    {
      if unused == [] {
        unused := pieces[used];
        JoinNext(pieces, used);
        used := used + 1;
      } else {
        unused := DrainOnce(s, unused, rates(k), tails(k), old(s.filter.Heard()));
        k := k + 1;
      }
    }
    MostEmitted(s);
  }

  lemma MostEmitted(s: Source)
    requires s.Valid()
    ensures s.readData != null ==> s.left <= s.readCount <= s.readData.Length
    ensures !s.dropped ==> s.emitted <= s.Reached().audio && |s.Reached().audio| - |s.emitted| <= TOO_MUCH
  {
    hide Read;
    s.BufferBounds();
  }

  method DrainOnce(s: Source, arrived: seq<Byte>, rate: nat, tail: int, ghost first: Ear) returns (unused: seq<Byte>)
    requires s.Valid() && s.running && arrived != []
    requires s.readData != null ==> s.left <= s.readCount < s.readData.Length <= MAX_BUFFER
    requires Told(first, s.filter.Heard(), [], s.Reached().metas)
    modifies s, s.filter, s.filter.build, s.readData, s.filter.title
    ensures s.Valid() && (s.readData == null || s.readData == old(s.readData) || fresh(s.readData))
    ensures s.readData != null ==> s.left <= s.readCount < s.readData.Length <= MAX_BUFFER
    ensures |unused| < |arrived| && s.wire + s.Unread() + unused == old(s.wire + s.Unread()) + arrived
    ensures 0 <= tail <= TOO_MUCH ==> s.running && s.dropped == old(s.dropped)
    ensures !s.running ==> s.dropped
    ensures Told(first, s.filter.Heard(), [], s.Reached().metas)
  {
    hide Read, Source.Valid, Source.HandedOn, Told, Source.Reached, SourceReader.Heard, Source.Unread;
    ghost var heard, metas := s.filter.Heard(), s.Reached().metas;
    ghost var before := s.wire + s.Unread();
    ghost var gone, surplus, had := s.gone, s.surplus, s.dropped;
    var out, taken := s.GetBuffer(arrived, rate, tail);
    unused := arrived[taken..];
    AllOf(before, arrived, taken);
    s.BufferBounds();
    ToldThen(first, heard, s.filter.Heard(), [], metas, s.Reached().metas);
    if taken == old(s.Room(rate)) {
      s.NoneDropped(s.Reached().audio, gone, surplus, tail, out, had);
    }
  }

  lemma AllOf(before: seq<Byte>, s: seq<Byte>, k: nat)
    requires k <= |s|
    ensures (before + s[..k]) + s[k..] == before + s
  {
  }

  lemma NothingReached(s: Source)
    requires s.wire == []
    ensures s.Reached().metas == []
  {
  }

  /** The stream comes out of a relay as it went in: for whatever part of the listener's wire has gone
      through the source's filter, the blocks emitted and the fragments kept are the data consumed at the
      other end, from the start and in order, and all of it once the wire is read up. */
  lemma RelayRoundTrip(l: Listener, s: Source)
    requires l.Valid() && l.interval > 0 && s.Valid() && !s.dropped
    requires s.filter.interval == l.interval && s.wire <= l.con.wire
    ensures s.emitted + s.surplus + s.Leftover() <= l.audio
    ensures s.wire == l.con.wire ==> s.emitted + s.surplus + s.Leftover() == l.audio
  {
    hide Read, Step;
    WireReadsBack(l);
    AudioConserved(s);
    var rest := l.con.wire[|s.wire|..];
    assert l.con.wire == s.wire + rest;
    ReadAppend(l.interval, START, s.wire, rest);
    ReadGrows(l.interval, Read(l.interval, START, s.wire), rest);
  }

  /** The titles come out as they went in: whatever part of the wire has been filtered, the parser has been
      told what the listener was sent, from the start and in order. */
  lemma TitlesCross(l: Listener, s: Source, first: Ear)
    requires l.Valid() && l.interval > 0 && s.filter.interval == l.interval && s.wire <= l.con.wire
    requires Told(first, s.filter.Heard(), [], s.Reached().metas)
    ensures s.Reached().metas <= l.metas && s.filter.Heard() == HearAll(first, s.Reached().metas)
    ensures s.wire == l.con.wire ==> s.filter.Heard() == HearAll(first, l.metas)
  {
    hide Read, Step, HearAll, Listener.Valid;
    WireReadsBack(l);
    var rest := l.con.wire[|s.wire|..];
    assert l.con.wire == s.wire + rest;
    ReadAppend(l.interval, START, s.wire, rest);
    ReadGrows(l.interval, Read(l.interval, START, s.wire), rest);
    assert s.Reached().metas[0..] == s.Reached().metas;
  }

  /** So when the last block sent that is not empty was made of some fields at one end, these are the fields that
      the other end has. */
  lemma {:induction false} TitleHeard(e: Ear, metas: seq<seq<Byte>>, k: nat, f: Mp3Title.Fields, items: seq<seq<Byte>>)
    requires k < |metas| && forall j | k < j < |metas| :: |metas[j]| == 1
    requires Mp3Title.IsBlock(metas[k], Mp3Title.Shown(f)) && Mp3Title.NoNul(Mp3Title.Shown(f)) && metas[k] != e.icy
    requires Mp3Title.Plain(Mp3Title.Name(f))
    requires Mp3Title.UrlOf(f).Some? ==> Mp3Title.Plain(Mp3Title.UrlOf(f).value)
    requires Mp3Title.Or(f.extra, []) == Join(items) && forall i | 0 <= i < |items| :: Mp3Title.GoodItem(items[i])
    ensures
      var g := HearAll(e, metas[..k]).fields;
      HearAll(e, metas).fields == Mp3Title.Fields(Some(Mp3Title.Name(f)), None,
        if Mp3Title.UrlOf(f).Some? then Mp3Title.UrlOf(f) else g.inlineUrl, g.url, Mp3Title.Others(Join(items)))
    decreases |metas|
  {
    hide Mp3Title.Parsed, Mp3Title.Shown, Mp3Title.Plain, Mp3Title.GoodItem, Mp3Title.TextOf, Join;
    var n := |metas| - 1;
    if k < n {
      TitleHeard(e, metas[..n], k, f, items);
      assert metas[..n][..k] == metas[..k];
    } else {
      var g := HearAll(e, metas[..k]);
      SameIcy(e, metas[..k]);
      Mp3Title.BlockReadsBack(metas[k], f, g.fields, items);
      assert Ended(metas[k]) == metas[k];
    }
  }

  lemma {:induction false} SameIcy(e: Ear, metas: seq<seq<Byte>>)
    ensures HearAll(e, metas).icy == e.icy
    decreases |metas|
  {
    hide Mp3Title.Parsed, Mp3Title.TextOf;
    if metas != [] {
      SameIcy(e, metas[..|metas| - 1]);
    }
  }

  /** Only one block has a given byte. */
  lemma BlockAtOnce(queue: seq<Block>, p: nat, q: nat, n: nat)
    requires BlockAt(queue, p, n) && BlockAt(queue, q, n)
    ensures p == q
  {
    if p < q {
      StreamGrows(queue, p + 1, q);
    } else if q < p {
      StreamGrows(queue, q + 1, p);
    }
  }

  lemma {:induction false} StreamGrows(queue: seq<Block>, i: nat, j: nat)
    requires i <= j <= |queue|
    ensures |Stream(queue[..i])| <= |Stream(queue[..j])|
    decreases j
  {
    if i < j {
      StreamGrows(queue, i, j - 1);
      assert queue[..j][..j - 1] == queue[..j - 1];
    }
  }

  /** A title goes all the way: for whatever part of the wire a source has filtered, its fields are those that the
      metadata was made of which is on the queue block that the stream had come to with the last metadata in that
      part. */
  lemma QueueTitleHeard(l: Listener, s: Source, queue: seq<Block>, first: Ear, q: nat, f: Mp3Title.Fields, items: seq<seq<Byte>>)
    requires l.Valid() && l.interval > 0 && s.filter.interval == l.interval && s.wire <= l.con.wire
    requires Told(first, s.filter.Heard(), [], s.Reached().metas)
    requires AllFrom(queue, l.interval, l.metas)
    requires s.Reached().metas != [] && BlockAt(queue, q, Spot(l.interval, |s.Reached().metas|))
    requires queue[q].meta.Some? && queue[q].meta.value.icy.Some? && queue[q].meta.value.icy.value != first.icy
    requires Mp3Title.IsBlock(queue[q].meta.value.icy.value, Mp3Title.Shown(f)) && Mp3Title.NoNul(Mp3Title.Shown(f))
    requires Mp3Title.Plain(Mp3Title.Name(f))
    requires Mp3Title.UrlOf(f).Some? ==> Mp3Title.Plain(Mp3Title.UrlOf(f).value)
    requires Mp3Title.Or(f.extra, []) == Join(items) && forall i | 0 <= i < |items| :: Mp3Title.GoodItem(items[i])
    ensures s.filter.title.fields.title == Some(Mp3Title.Name(f)) && s.filter.title.fields.artist == None
    ensures Mp3Title.UrlOf(f).Some? ==> s.filter.title.fields.inlineUrl == Mp3Title.UrlOf(f)
    ensures s.filter.title.fields.extra == Mp3Title.Others(Join(items))
  {
    hide Read, Step, HearAll, Listener.Valid, Stream, Spot, Mp3Title.Parsed, Mp3Title.Shown, Mp3Title.Plain, Mp3Title.GoodItem,
      Mp3Title.TextOf, Mp3Title.IsBlock, Join;
    TitlesCross(l, s, first);
    var metas := s.Reached().metas;
    var icy := queue[q].meta.value.icy.value;
    LongEnough(icy, Mp3Title.Shown(f));
    Shows(queue, l.interval, l.metas, metas, q);
    var k :| 0 <= k < |metas| && metas[k] == icy && |icy| > 1 && forall j | k < j < |metas| :: |metas[j]| == 1;
    TitleHeard(first, metas, k, f, items);
  }

  lemma LongEnough(icy: seq<Byte>, text: seq<Byte>)
    requires Mp3Title.IsBlock(icy, text)
    ensures |icy| > 1
  {
  }

  lemma Shows(queue: seq<Block>, interval: nat, all: seq<seq<Byte>>, metas: seq<seq<Byte>>, q: nat)
    requires AllFrom(queue, interval, all) && metas <= all && metas != [] && BlockAt(queue, q, Spot(interval, |metas|))
    requires queue[q].meta.Some? && queue[q].meta.value.icy.Some? && |queue[q].meta.value.icy.value| > 1
    ensures Showing(metas, queue[q].meta.value.icy.value)
  {
    hide Stream, Spot, Showing;
    var k := |metas| - 1;
    assert MetaFrom(queue, interval, all, k) && all[..k + 1] == metas;
    var p: nat, icy: seq<Byte> :| MetaFor(queue, interval, all[..k + 1], p, icy);
    BlockAtOnce(queue, p, q, Spot(interval, |metas|));
  }
}
