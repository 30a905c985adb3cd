/** Reading a source with in-band metadata, from src/format_mp3.c: the in-place filter, and handing frame
    fragments on to the next read by rewinding or as surplus. */
module Mp3Source {
  import opened Bytes
  import opened Wrappers
  import opened Icy
  import Mp3Title

  const MAX_BUILD := 4081
  const TOO_MUCH := 20000
  const MAX_BUFFER := 23800

  /** A metadata block as it gets to the parser: its last byte is made a NUL. */
  function Ended(meta: seq<Byte>): (block: seq<Byte>)
    requires meta != []
    ensures |block| == |meta|
  {
    meta[..|meta| - 1] + [0]
  }

  /** What a source has heard of titles: the blocks given to the parser, and what they have made of the fields. */
  datatype Ear = Ear(parsed: seq<seq<Byte>>, fields: Mp3Title.Fields, icy: seq<Byte>)

  function Hear(e: Ear, meta: seq<Byte>): Ear {
    if |meta| <= 1 then e
    else
      var block := Ended(meta);
      Ear(e.parsed + [block],
          if block == e.icy then e.fields else Mp3Title.Parsed(e.fields, Mp3Title.TextOf(block), []), e.icy)
  }

  function HearAll(e: Ear, metas: seq<seq<Byte>>): Ear {
    if metas == [] then e else Hear(HearAll(e, metas[..|metas| - 1]), metas[|metas| - 1])
  }

  lemma {:induction false} HearAppend(e: Ear, a: seq<seq<Byte>>, b: seq<seq<Byte>>)
    ensures HearAll(e, a + b) == HearAll(HearAll(e, a), b)
    decreases |b|
  {
    if b == [] {
      assert a + b == a;
    } else {
      HearAppend(e, a, b[..|b| - 1]);
      assert (a + b)[..|a + b| - 1] == a + b[..|b| - 1];
    }
  }

  /** From the metadata read before to that read after. */
  ghost predicate Told(was: Ear, now: Ear, before: seq<seq<Byte>>, after: seq<seq<Byte>>) {
    before <= after && now == HearAll(was, after[|before|..])
  }

  lemma ToldNothing(e: Ear, metas: seq<seq<Byte>>)
    ensures Told(e, e, metas, metas)
  {
  }

  lemma ToldOne(e: Ear, metas: seq<seq<Byte>>, meta: seq<Byte>)
    ensures Told(e, Hear(e, meta), metas, metas + [meta])
  {
    assert (metas + [meta])[|metas|..] == [meta] && [meta][..0] == [];
    assert HearAll(e, [meta][..0]) == e;
  }

  lemma ToldThen(a: Ear, b: Ear, c: Ear, before: seq<seq<Byte>>, between: seq<seq<Byte>>, after: seq<seq<Byte>>)
    requires Told(a, b, before, between) && Told(b, c, between, after)
    ensures Told(a, c, before, after)
  {
    assert after[|before|..] == between[|before|..] + after[|between|..];
    HearAppend(a, between[|before|..], after[|between|..]);
  }

  class SourceReader {
    const interval: nat
    const build: array<Byte>
    const title: Mp3Title.Metadata
    ghost var parsed: seq<seq<Byte>>
    var offset: int
    var buildLen: nat
    var buildOffset: nat

    /** Where the filter is on the wire: the audio count, or the metadata block being put together. */
    function At(): Pos
      reads this, build
      requires buildOffset <= build.Length
    {
      if buildLen == 0 then Audio(offset) else Meta(build[..buildOffset])
    }

    ghost predicate FilterValid()
      reads this, build
    {
      && interval > 0 && build.Length == MAX_BUILD && buildOffset <= MAX_BUILD
      && offset <= interval
      && (buildLen != 0 ==>
            && offset == interval && 0 < buildOffset < buildLen
            && buildLen == BlockLength(build[0]) && (forall i | buildOffset <= i < MAX_BUILD :: build[i] == 0))
    }

    ghost function Heard(): Ear
      reads this`parsed, title
    {
      Ear(parsed, title.fields, title.icy)
    }

    constructor (interval: nat, title: Mp3Title.Metadata)
      requires interval > 0
      ensures FilterValid() && At() == Audio(0) && fresh(build) && this.interval == interval
      ensures this.title == title && parsed == []
    {
      this.interval, this.title, parsed := interval, title, [];
      build := new Byte[MAX_BUILD](_ => 0);
      offset, buildLen, buildOffset := 0, 0, 0;
    }

    /** Copies part of a metadata block into the build buffer. */
    method CopyBuild(at: nat, part: seq<Byte>)
      requires build.Length == MAX_BUILD && at + |part| <= MAX_BUILD
      modifies build
      ensures build[..at] == old(build[..at]) && build[at..at + |part|] == part
      ensures forall i | at + |part| <= i < MAX_BUILD :: build[i] == old(build[i])
    {
      Store(build, at, part);
      forall i | at + |part| <= i < MAX_BUILD
        ensures build[i] == old(build[i])
      {
        assert build[at + |part|..][i - at - |part|] == old(build[at + |part|..])[i - at - |part|];
      }
    }

    /** What has been seen of the metadata block that is next or under way. */
    function Begun(): seq<Byte>
      reads this, build
      requires buildOffset <= build.Length
    {
      if buildLen == 0 then [] else build[..buildOffset]
    }

    /** The inline metadata part of the filter loop: as much of a metadata block as there is in `part`,
        the bytes not yet looked at.  `used` of them belong to the block. */
    method TakeMetadata(part: seq<Byte>, ghost r: Reading) returns (used: nat, ok: bool)
      requires FilterValid() && part != [] && offset == interval && r.pos == At()
      modifies this`offset, this`buildLen, this`buildOffset, this`parsed, build, title`fields, title`update
      ensures FilterValid() && ok && 0 < used <= |part|
      ensures Read(interval, r, part[..used]).pos == At()
      ensures Read(interval, r, part[..used]).audio == r.audio
      ensures Told(old(Heard()), Heard(), r.metas, Read(interval, r, part[..used]).metas)
    {
      ghost var begun := Begun();
      var copyMeta := true;
      if buildLen == 0 {
        copyMeta := part[0] != 0;
        if copyMeta {
          forall i | 0 <= i < MAX_BUILD {
            build[i] := 0;
          }
        }
        buildOffset := 0;
        buildLen := BlockLength(part[0]);
      }
      var remaining := buildLen - buildOffset;
      used := Min(|part|, remaining);
      assert (begun + part)[0] == (begun + part[..used])[0];
      ReadMetaMore(interval, r, begun, part[..used]);
      hide Read, Hear, Told;
      if |part| < remaining {
        assert part[..used] == part;
        ToldNothing(Heard(), r.metas);
        KeepPart(part, begun, copyMeta);
        ok := true;
      } else {
        ToldOne(Heard(), r.metas, begun + part[..remaining]);
        ok := FinishBlock(part[..remaining], begun, copyMeta);
      }
    }

    /** An incomplete block: its bytes are kept for the next read. */
    method KeepPart(part: seq<Byte>, ghost begun: seq<Byte>, copyMeta: bool)
      requires interval > 0 && build.Length == MAX_BUILD && offset == interval
      requires part != [] && |begun| == buildOffset && buildOffset + |part| < buildLen
      requires buildLen <= MAX_BUILD && copyMeta && build[..buildOffset] == begun && (forall i | buildOffset <= i < MAX_BUILD :: build[i] == 0)
      requires buildLen == BlockLength((begun + part)[0])
      modifies this`buildOffset, build
      ensures FilterValid() && buildLen == old(buildLen) && At() == Meta(begun + part)
    {
      if copyMeta {
        CopyBuild(buildOffset, part);
      }
      buildOffset := buildOffset + |part|;
      assert build[..buildOffset] == begun + part;
    }

    /** A complete block: all its bytes but the last are kept, so that it ends in NUL, and parsed; it is never
        refused. */
    method FinishBlock(part: seq<Byte>, ghost begun: seq<Byte>, copyMeta: bool) returns (ok: bool)
      requires interval > 0 && build.Length == MAX_BUILD && buildLen <= MAX_BUILD
      requires part != [] && |begun| == buildOffset && buildOffset + |part| == buildLen
      requires copyMeta ==> build[..buildOffset] == begun && buildLen > 1
      requires copyMeta ==> forall i | buildOffset <= i < MAX_BUILD :: build[i] == 0
      requires !copyMeta ==> buildLen == 1
      requires buildLen == BlockLength((begun + part)[0])
      modifies this`offset, this`buildLen, this`parsed, build, title`fields, title`update
      ensures FilterValid() && ok && At() == Audio(0) && Heard() == Hear(old(Heard()), begun + part)
    {
      ok := true;
      if copyMeta {
        CopyBuild(buildOffset, part[..|part| - 1]);
        assert build[..buildLen] == Ended(begun + part);
        assert build[0] == (begun + part)[0];
        parsed := parsed + [build[..buildLen]];
        var ret := title.ParseIcy(build[..buildLen]);
        ok := ret >= 0;
      }
      offset, buildLen := 0, 0;
    }

    /** The loop of `mp3_get_filter_meta` over `n` bytes of `data`: what stays in front is the audio, as a
        reader of the wire format takes it out, wherever the wire was cut. */
    method Filter(data: array<Byte>, n: nat, ghost r: Reading) returns (len: nat, ok: bool)
      requires FilterValid() && n <= data.Length && data != build && r.pos == At()
      modifies this`offset, this`buildLen, this`buildOffset, this`parsed, build, data, title`fields, title`update
      ensures FilterValid() && ok && len <= n
      ensures
        var out := Read(interval, r, old(data[..n]));
        && out.pos == At() && out.audio == r.audio + data[..len]
        && Told(old(Heard()), Heard(), r.metas, out.metas)
    {
      hide Read, Step, Told, Heard, Midway;
      ghost var input := data[..n];
      ghost var k := 0;
      ghost var now := r;
      var src: nat, bytes: nat := 0, n;
      len, ok := 0, true;
      AtFirst(r, data[..], n);
      ToldNothing(Heard(), r.metas);
      while bytes > 0
        invariant FilterValid() && ok && k + bytes == n && src == len && src + bytes <= n
        invariant Midway(r, now, input, k, data[..], src, bytes) && now.pos == At()
        invariant Told(old(Heard()), Heard(), r.metas, now.metas)
        decreases bytes
      {
        var block := interval - offset;
        if bytes <= block {
          now := TakeAudio(r, now, input, k, bytes, data[..], src, bytes);
          AtLast(r, now, input, data[..], src + bytes);
          len := len + bytes;
          offset := offset + bytes;
          return;
        }
        if block > 0 {
          now := TakeAudio(r, now, input, k, block, data[..], src, bytes);
          src, bytes, len := src + block, bytes - block, len + block;
          offset := offset + block;
          k := k + block;
          continue;
        }
        var used;
        used, ok := CutHere(data, src, bytes, r, now, input, k, old(Heard()));
        now := Read(interval, r, input[..k + used]);
        k, bytes := k + used, bytes - used;
      }
      AtLast(r, now, input, data[..], src);
    }

    /** `k` bytes of the input have been read, and their audio is in front in the buffer, before the `bytes` that
        have not. */
    ghost predicate Midway(r: Reading, now: Reading, input: seq<Byte>, k: nat, data: seq<Byte>, src: nat, bytes: nat) {
      && k + bytes == |input| && src + bytes <= |data| && data[src..src + bytes] == input[k..]
      && now == Read(interval, r, input[..k]) && now.audio == r.audio + data[..src]
    }

    lemma AtFirst(r: Reading, data: seq<Byte>, n: nat)
      requires n <= |data|
      ensures Midway(r, r, data[..n], 0, data, 0, n)
    {
      ReadNone(interval, r, data[..n]);
      assert r.audio + data[..0] == r.audio;
    }

    lemma AtLast(r: Reading, now: Reading, input: seq<Byte>, data: seq<Byte>, src: nat)
      requires Midway(r, now, input, |input|, data, src, 0)
      ensures now == Read(interval, r, input) && now.audio == r.audio + data[..src]
    {
      hide Read;
      assert input[..|input|] == input;
    }

    method CutHere(data: array<Byte>, src: nat, bytes: nat, ghost r: Reading, ghost now: Reading,
                   ghost input: seq<Byte>, ghost k: nat, ghost first: Ear)
        returns (used: nat, ok: bool)
      requires FilterValid() && bytes > 0 && src + bytes <= data.Length && data != build && offset == interval
      requires Midway(r, now, input, k, data[..], src, bytes) && now.pos == At()
      requires Told(first, Heard(), r.metas, now.metas)
      modifies this`offset, this`buildLen, this`buildOffset, this`parsed, build, data, title`fields, title`update
      ensures FilterValid() && ok && 0 < used <= bytes
      ensures
        var out := Read(interval, r, input[..k + used]);
        && Midway(r, out, input, k + used, data[..], src, bytes - used) && out.pos == At()
        && Told(first, Heard(), r.metas, out.metas)
    {
      hide Read, Step, Told;
      ghost var heard := Heard();
      used, ok := CutMetadata(data, src, bytes, now);
      TakeOther(r, now, input, k, used);
      SliceCut(input, k, used);
      ToldThen(first, heard, Heard(), r.metas, now.metas, Read(interval, r, input[..k + used]).metas);
    }

    /** Takes the metadata at `src` out of the buffer, closing the gap. */
    method CutMetadata(data: array<Byte>, src: nat, bytes: nat, ghost now: Reading) returns (used: nat, ok: bool)
      requires FilterValid() && bytes > 0 && src + bytes <= data.Length && data != build
      requires offset == interval && now.pos == At()
      modifies this`offset, this`buildLen, this`buildOffset, this`parsed, build, data, title`fields, title`update
      ensures FilterValid() && ok && 0 < used <= bytes
      ensures data[..src] == old(data[..src])
      ensures data[src..src + (bytes - used)] == old(data[src..src + bytes])[used..]
      ensures
        var out := Read(interval, now, old(data[src..src + bytes])[..used]);
        && out.pos == At() && out.audio == now.audio
        && Told(old(Heard()), Heard(), now.metas, out.metas)
    {
      hide Read, Step, Told;
      ghost var was := data[..];
      used, ok := TakeMetadata(data[src..src + bytes], now);
      MoveDown(data, src, used, bytes - used);
      assert was[src..src + bytes][used..] == was[src + used..src + bytes];
    }

    lemma SliceCut(input: seq<Byte>, k: nat, used: nat)
      requires k + used <= |input|
      ensures input[k..][..used] == input[k..k + used] && input[k..][used..] == input[k + used..]
    {
    }

    lemma ReadNone(interval: nat, r: Reading, input: seq<Byte>)
      ensures Read(interval, r, input[..0]) == r
    {
    }

    lemma SliceStep(data: seq<Byte>, src: nat, bytes: nat, input: seq<Byte>, k: nat, m: nat)
      requires src + bytes <= |data| && k + bytes == |input| && m <= bytes
      requires data[src..src + bytes] == input[k..]
      ensures data[src..src + m] == input[k..k + m]
      ensures data[src + m..src + bytes] == input[k + m..]
      ensures data[..src + m] == data[..src] + input[k..k + m]
    {
      assert data[src..src + m] == data[src..src + bytes][..m];
      assert data[src + m..src + bytes] == data[src..src + bytes][m..];
    }

    lemma TakeAudio(r: Reading, now: Reading, input: seq<Byte>, k: nat, m: nat,
                    data: seq<Byte>, src: nat, bytes: nat) returns (next: Reading)
      requires Midway(r, now, input, k, data, src, bytes) && m <= bytes
      requires now.pos.Audio? && now.pos.since + m <= interval
      ensures Midway(r, next, input, k + m, data, src + m, bytes - m)
      ensures next.pos == Audio(now.pos.since + m) && next.metas == now.metas
    {
      hide Read, Step;
      TakeOther(r, now, input, k, m);
      ReadAudio(interval, now, input[k..k + m]);
      SliceStep(data, src, bytes, input, k, m);
      assert r.audio + data[..src] + input[k..k + m] == r.audio + data[..src + m];
      next := Read(interval, r, input[..k + m]);
    }

    lemma TakeOther(r: Reading, now: Reading, input: seq<Byte>, k: nat, m: nat)
      requires k + m <= |input| && now == Read(interval, r, input[..k])
      ensures Read(interval, r, input[..k + m]) == Read(interval, now, input[k..k + m])
    {
      ReadAppend(interval, r, input[..k], input[k..k + m]);
      assert input[..k + m] == input[..k] + input[k..k + m];
    }
  }

  /** `size_up_qblock` */
  function BlockSize(rate: nat): (n: nat)
    ensures 1400 <= n <= MAX_BUFFER
  {
    var multi := if rate > 0 then rate / 100000 + 1 else 6;
    1400 * Min(multi, 17)
  }

  /** When bytes are given up. */
  predicate Drops(frames: seq<Byte>, tail: int) {
    tail < 0 || Min(tail, |frames|) > TOO_MUCH
  }

  lemma DropsWhen(frames: seq<Byte>, tail: int)
    ensures Drops(frames, tail) <==> tail < 0 || (tail > 20000 && |frames| > 20000)
  {
  }

  /** A buffer is for 1400 bytes for each started hundred thousand of the rate, from one to seventeen, and for 8400
      when it is not known. */
  lemma BlockSizes(rate: nat)
    ensures BlockSize(0) == 8400
    ensures 0 < rate < 100000 ==> BlockSize(rate) == 1400
    ensures 0 < rate < 1600000 ==> BlockSize(rate + 100000) == BlockSize(rate) + 1400
    ensures rate >= 1600000 ==> BlockSize(rate) == 23800
  {
  }

  /** A source with inline metadata.  `wire` is what has gone through the filter, `emitted` the blocks put
      on the stream queue, and `gone` the audio that is either emitted or dropped. */
  class Source {
    const filter: SourceReader
    const aligned: bool               // frames are looked for
    var readData: array?<Byte>
    var readCount: nat
    var surplus: seq<Byte>
    var running: bool
    ghost var wire: seq<Byte>
    ghost var left: nat
    ghost var emitted: seq<Byte>
    ghost var gone: seq<Byte>
    ghost var dropped: bool

    /** The frame fragment at the front of the read buffer. */
    ghost function Leftover(): seq<Byte>
      reads this, readData
      requires readData != null ==> left <= readData.Length
    {
      if readData == null then [] else readData[..left]
    }

    /** What has been received but not filtered yet. */
    ghost function Unread(): seq<Byte>
      reads this, readData
      requires readData != null ==> left <= readCount <= readData.Length
    {
      if readData == null then [] else readData[left..readCount]
    }

    ghost function Reached(): Reading
      reads this`wire
    {
      Read(filter.interval, START, wire)
    }

    ghost predicate Valid()
      reads this, readData, filter, filter.build
    {
      && filter.FilterValid()
      && (readData == null ==> left == 0)
      && (readData != null ==> left <= readCount <= readData.Length <= MAX_BUFFER && readData != filter.build)
      && |surplus| + left <= TOO_MUCH
      && (!aligned ==> left == 0 && surplus == [])
      && (left == 0 ==> filter.At() == Reached().pos)
      && (left > 0 ==> Reached().pos.Audio? && Reached().pos.since <= filter.interval
                       && filter.At() == Audio(Reached().pos.since - left))
      // nothing is lost and nothing comes twice
      && Reached().audio == gone + surplus + Leftover()
      && (!dropped ==> gone == emitted)
    }

    constructor (interval: nat, aligned: bool, title: Mp3Title.Metadata)
      requires interval > 0
      ensures Valid() && running && wire == [] && emitted == [] && !dropped && Unread() == []
      ensures fresh(filter) && fresh(filter.build) && filter.interval == interval
      ensures filter.title == title && filter.parsed == []
    {
      filter := new SourceReader(interval, title);
      this.aligned := aligned;
      readData, readCount, surplus, running := null, 0, [], true;
      wire, left, emitted, gone, dropped := [], 0, [], [], false;
    }

    lemma BufferBounds()
      requires Valid()
      ensures readData != null ==> left <= readCount <= readData.Length <= MAX_BUFFER
      ensures |surplus| + |Leftover()| <= TOO_MUCH && (!dropped ==> gone == emitted)
    {
    }

    /** How much a read asks for: what the read buffer has room for. */
    function Room(rate: nat): nat
      reads this, readData
      requires readData != null ==> readCount <= readData.Length
    {
      if readData == null then BlockSize(rate) else readData.Length - readCount
    }

    ghost predicate NotFull()
      reads this, readData
    {
      readData != null ==> readCount < readData.Length
    }

    /** `complete_read`: the block is only worked on once it is full. */
    method CompleteRead(arrived: seq<Byte>, rate: nat) returns (full: bool, taken: nat)
      requires Valid()
      modifies this`readData, this`readCount, readData
      ensures Valid() && (readData == old(readData) || fresh(readData))
      ensures readData != null && readData.Length - readCount == old(Room(rate)) - taken
      ensures taken == Min(|arrived|, old(Room(rate))) && (full <==> taken == old(Room(rate)))
      ensures Unread() == old(Unread()) + arrived[..taken] && Leftover() == old(Leftover())
      ensures full ==> readData != null && readCount == readData.Length
    {
      hide Read, Reached, SourceReader.FilterValid, SourceReader.At;
      if readData == null {
        NewBuffer(rate);
      }
      var data, at := readData, readCount;
      taken := Min(|arrived|, data.Length - at);
      StoreAfter(data, left, at, arrived[..taken]);
      readCount := at + taken;
      full := readCount == data.Length;
    }

    method NewBuffer(rate: nat)
      requires Valid() && readData == null
      modifies this`readData, this`readCount
      ensures Valid() && readData != null && fresh(readData) && readData.Length == BlockSize(rate) && readCount == 0
      ensures Unread() == [] && Leftover() == []
    {
      hide Read, Reached, SourceReader.FilterValid, SourceReader.At;
      readData := new Byte[BlockSize(rate)](_ => 0);
      readCount := 0;
    }

    /** Between filtering and handing on: `block` is the audio just taken out. */
    ghost predicate Holding(block: seq<Byte>)
      reads this, filter, filter.build
    {
      && filter.FilterValid() && readData == null && left == 0
      && (!aligned ==> surplus == []) && |surplus| <= TOO_MUCH
      && filter.At() == Reached().pos
      && Reached().audio == gone + surplus + block
      && (!dropped ==> gone == emitted)
    }

    /** The filter over a full read buffer, fragment included. */
    method FilterBlock() returns (block: seq<Byte>)
      requires Valid() && readData != null
      modifies this`readData, this`left, this`wire, filter, filter.build, readData, filter.title
      ensures Holding(block) && wire == old(wire + Unread()) && Reached().audio == gone + surplus + block
      ensures Told(old(filter.Heard()), filter.Heard(), old(Reached().metas), Reached().metas)
    {
      hide Read, Step, Told;
      ghost var was := Reached();
      ghost var fragment, unread := Leftover(), Unread();
      ghost var start := Reading(filter.At(), gone + surplus, was.metas);
      var data, n := readData, readCount;
      assert data[..n] == fragment + unread;
      Replay(filter.interval, was, start, fragment, unread);
      ReadAppend(filter.interval, START, wire, unread);
      var len, ok := filter.Filter(data, n, start);
      wire := wire + unread;
      block := data[..len];
      readData, left := null, 0;
    }

    /** All but the last `kept` bytes go on, if there are any; those are kept. */
    ghost predicate Divided(frames: seq<Byte>, kept: nat, out: Option<seq<Byte>>)
      reads this, readData
      requires kept <= |frames| && (readData != null ==> left <= readData.Length)
    {
      && out == (if kept < |frames| then Some(frames[..|frames| - kept]) else None)
      && surplus + Leftover() == frames[|frames| - kept..] && (surplus == [] || Leftover() == [])
    }

    /** What is done with the frames, when this is what the parser leaves of them: they are divided, or when it
        has found none or too much is left, only those that are whole go on, if any, and the rest is gone. */
    ghost predicate Outcome(frames: seq<Byte>, tail: int, out: Option<seq<Byte>>, before: bool)
      reads this, readData
      requires readData != null ==> left <= readData.Length
    {
      if Drops(frames, tail) then
        && dropped && surplus == [] && readData == null && running == out.Some?
        && out == (if TOO_MUCH < tail < |frames| then Some(frames[..|frames| - tail]) else None)
      else
        dropped == before && running && Divided(frames, Min(tail, |frames|), out)
    }

    /** `validate_mpeg`: whole frames go on, a fragment is kept for later. */
    method Validate(block: seq<Byte>, rate: nat, tail: int) returns (out: Option<seq<Byte>>)
      requires Holding(block) && aligned && running
      modifies this`readData, this`readCount, this`surplus, this`running, this`left, this`emitted, this`gone,
               this`dropped, filter`offset
      ensures Valid() && Unread() == [] && (readData == null || fresh(readData)) && NotFull()
      ensures emitted == old(emitted) + if out.Some? then out.value else []
      ensures Outcome(old(surplus) + block, tail, out, old(dropped))
      ensures surplus != [] ==> filter.offset == old(filter.offset) >= filter.interval
    {
      hide Read, SourceReader.FilterValid, SourceReader.At, Divided;
      // mpeg_complete_frames puts the surplus in front and shortens the block to whole frames
      var frames := surplus + block;
      surplus := [];
      assert gone + [] + frames == gone + old(surplus) + block;
      var unprocessed := if tail < 0 then -1 else Min(tail, |frames|);
      if unprocessed < 0 || unprocessed > TOO_MUCH {
        out := DropFragment(frames, unprocessed);
        return;
      }
      out := Divide(frames, rate, unprocessed);
    }

    method Divide(frames: seq<Byte>, rate: nat, unprocessed: nat) returns (out: Option<seq<Byte>>)
      requires Holding(frames) && aligned && surplus == [] && unprocessed <= |frames| && unprocessed <= TOO_MUCH
      modifies this`readData, this`readCount, this`surplus, this`left, this`emitted, this`gone, filter`offset
      ensures Valid() && Unread() == [] && (readData == null || fresh(readData)) && NotFull()
      ensures emitted == old(emitted) + if out.Some? then out.value else []
      ensures Divided(frames, unprocessed, out)
      ensures surplus != [] ==> filter.offset == old(filter.offset) >= filter.interval
    {
      hide Read, SourceReader.FilterValid, SourceReader.At;
      var done := |frames| - unprocessed;
      var fragment := frames[done..];
      assert gone + [] + frames == (gone + frames[..done]) + [] + fragment;
      emitted, gone := emitted + frames[..done], gone + frames[..done];
      if unprocessed > 0 {
        KeepFragment(fragment, rate);
      }
      out := if done > 0 then Some(frames[..done]) else None;
    }

    /** No frames in the block, or too much after them: what is not whole frames is given up. */
    method DropFragment(frames: seq<Byte>, unprocessed: int) returns (out: Option<seq<Byte>>)
      requires Holding(frames) && surplus == [] && unprocessed <= |frames| && running
      modifies this`running, this`emitted, this`gone, this`dropped
      ensures Valid() && readData == null && dropped && (running <==> out.Some?)
      ensures out == if 0 < unprocessed < |frames| then Some(frames[..|frames| - unprocessed]) else None
      ensures emitted == old(emitted) + if out.Some? then out.value else []
    {
      assert gone + surplus + frames == (gone + frames) + [] + [];
      gone, dropped := gone + frames, true;
      if 0 < unprocessed < |frames| {
        out := Some(frames[..|frames| - unprocessed]);
        emitted := emitted + out.value;
        return;
      }
      running := false;
      out := None;
    }

    /** Surplus for the frame parser when the next metadata block has been reached; otherwise the count
        is wound back, below zero if need be, and the fragment starts the next read. */
    method KeepFragment(fragment: seq<Byte>, rate: nat)
      requires Holding(fragment) && aligned && surplus == [] && 0 < |fragment| <= TOO_MUCH
      modifies this`readData, this`readCount, this`surplus, this`left, filter`offset
      ensures Valid() && Unread() == [] && (readData == null || fresh(readData)) && NotFull()
      ensures surplus + Leftover() == fragment
      ensures if old(filter.interval <= filter.offset) then readData == null && filter.offset == old(filter.offset)
              else surplus == [] && left == |fragment| && filter.offset == old(filter.offset) - left
    {
      var unprocessed := |fragment|;
      if filter.interval <= filter.offset {
        assert gone + fragment + [] == gone + [] + fragment;
        surplus := fragment;
        return;
      }
      var len := BlockSize(rate);
      if len < unprocessed + 40 {
        len := unprocessed + 1000;
      }
      var next := Refill(len, fragment);
      filter.offset := filter.offset - unprocessed;
      readData, readCount, left := next, unprocessed, unprocessed;
      assert next[..left] == fragment;
    }

    /** `mp3_get_filter_meta`.  `tail` is how much the frame parser leaves unprocessed, negative when it
        finds no frames. */
    method GetBuffer(arrived: seq<Byte>, rate: nat, tail: int) returns (out: Option<seq<Byte>>, taken: nat)
      requires Valid() && running
      modifies this, filter, filter.build, readData, filter.title
      ensures Valid() && (readData == null || readData == old(readData) || fresh(readData))
      ensures taken == Min(|arrived|, old(Room(rate))) && NotFull()
      ensures wire + Unread() == old(wire + Unread()) + arrived[..taken]
      ensures emitted == old(emitted) + if out.Some? then out.value else []
      ensures taken < old(Room(rate)) ==>
                out == None && wire == old(wire) && gone == old(gone) && dropped == old(dropped) && running
      ensures taken == old(Room(rate)) ==>
                Unread() == [] && HandedOn(Reached().audio, old(gone), old(surplus), tail, out, old(dropped))
      ensures Told(old(filter.Heard()), filter.Heard(), old(Reached().metas), Reached().metas)
    {
      hide Read, Outcome, Told, HandedOn, Holding;
      ToldNothing(filter.Heard(), Reached().metas);
      var full;
      full, taken := CompleteRead(arrived, rate);
      assert wire + Unread() == old(wire + Unread()) + arrived[..taken];
      if !full {
        return None, taken;
      }
      var block := FilterBlock();
      assert wire + [] == wire;
      out := HandOn(block, rate, tail);
    }

    /** What has become of a full buffer.  `audio` is all that the wire has brought, of which `before` was emitted
        or dropped already, and `kept` was surplus. */
    ghost predicate HandedOn(audio: seq<Byte>, before: seq<Byte>, kept: seq<Byte>, tail: int, out: Option<seq<Byte>>, had: bool)
      reads this, readData
      requires readData != null ==> left <= readData.Length
    {
      && before + kept <= audio
      && var frames := audio[|before|..];
         if frames == kept then
           out == None && surplus == kept && readData == null && running && dropped == had
         else if aligned then
           Outcome(frames, tail, out, had)
         else
           out == Some(frames) && running && dropped == had
    }

    /** What becomes of the audio just taken out. */
    method HandOn(block: seq<Byte>, rate: nat, tail: int) returns (out: Option<seq<Byte>>)
      requires Holding(block) && running
      modifies this`readData, this`readCount, this`surplus, this`running, this`left, this`emitted, this`gone,
               this`dropped, filter`offset
      ensures Valid() && Unread() == [] && (readData == null || fresh(readData)) && NotFull()
      ensures emitted == old(emitted) + if out.Some? then out.value else []
      ensures HandedOn(old(gone + surplus + block), old(gone), old(surplus), tail, out, old(dropped))
    {
      hide Read, Divided, Outcome, HandedOn;
      ghost var before, kept, had := gone, surplus, dropped;
      if |block| == 0 {
        assert gone + surplus + [] == gone + surplus + block;
        out := None;
      } else if !aligned {
        emitted, gone := emitted + block, gone + block;
        out := Some(block);
      } else {
        out := Validate(block, rate, tail);
      }
      IsHanded(before, kept, block, tail, out, had);
    }

    lemma HowDivided(audio: seq<Byte>, before: seq<Byte>, kept: seq<Byte>, tail: int, out: Option<seq<Byte>>, had: bool)
      requires readData != null ==> left <= readData.Length
      requires HandedOn(audio, before, kept, tail, out, had)
      ensures before + kept <= audio
      ensures
        var frames := audio[|before|..];
        && (frames == kept ==> out == None && surplus == kept && readData == null && running && dropped == had)
        && (frames != kept && aligned && !Drops(frames, tail) ==>
              running && dropped == had && Divided(frames, Min(tail, |frames|), out))
    {
    }

    lemma NoneDropped(audio: seq<Byte>, before: seq<Byte>, kept: seq<Byte>, tail: int, out: Option<seq<Byte>>, had: bool)
      requires readData != null ==> left <= readData.Length
      requires HandedOn(audio, before, kept, tail, out, had)
      ensures 0 <= tail <= TOO_MUCH ==> running && dropped == had
      ensures !running ==> dropped
    {
    }

    lemma IsHanded(before: seq<Byte>, kept: seq<Byte>, block: seq<Byte>, tail: int, out: Option<seq<Byte>>, had: bool)
      requires readData != null ==> left <= readData.Length
      requires if block == [] then out == None && surplus == kept && readData == null && running && dropped == had
               else if aligned then Outcome(kept + block, tail, out, had)
               else out == Some(block) && kept == [] && running && dropped == had
      ensures HandedOn(before + kept + block, before, kept, tail, out, had)
    {
      hide Outcome;
      assert (before + kept + block)[|before|..] == kept + block;
    }
  }

  /** Puts bytes after those from `left` on. */
  method StoreAfter(data: array<Byte>, ghost left: nat, at: nat, part: seq<Byte>)
    requires left <= at && at + |part| <= data.Length
    modifies data
    ensures data[..left] == old(data[..left]) && data[left..at + |part|] == old(data[left..at]) + part
  {
    ghost var front := data[..at];
    Store(data, at, part);
    assert data[..left] == front[..left] && data[left..at] == front[left..];
    assert data[left..at + |part|] == data[left..at] + data[at..at + |part|];
  }

  /** A new read buffer that starts with a fragment. */
  method Refill(len: nat, fragment: seq<Byte>) returns (next: array<Byte>)
    requires |fragment| <= len
    ensures fresh(next) && next.Length == len && next[..|fragment|] == fragment
  {
    next := new Byte[len](_ => 0);
    Store(next, 0, fragment);
    assert next[..|fragment|] == next[0..0 + |fragment|];
  }

  /** Reading a fragment again from a wound-back count leads to the same place as not winding back. */
  lemma Replay(interval: nat, was: Reading, start: Reading, fragment: seq<Byte>, more: seq<Byte>)
    requires was.audio == start.audio + fragment && was.metas == start.metas
    requires fragment == [] ==> start.pos == was.pos
    requires fragment != [] ==>
               was.pos.Audio? && was.pos.since <= interval && start.pos == Audio(was.pos.since - |fragment|)
    ensures Read(interval, start, fragment + more) == Read(interval, was, more)
  {
    hide Read, Step;
    ReadAppend(interval, start, fragment, more);
    if fragment == [] {
      assert fragment + more == more && start == was;
    } else {
      ReadAudio(interval, start, fragment);
    }
  }

  /** How much a source has to give is decided by the wire alone. */
  lemma AudioConserved(s: Source)
    requires s.Valid() && !s.dropped
    ensures s.emitted + s.surplus + s.Leftover() == Read(s.filter.interval, START, s.wire).audio
  {
  }
}
