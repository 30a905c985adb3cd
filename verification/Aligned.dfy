/** A source of AAC with in-band metadata: the filter of src/format_mp3.c with the frame aligner of src/mpeg.c
    behind it, joined by `validate_mpeg`. */
module Aligned {
  import opened Bytes
  import opened Wrappers
  import opened Icy
  import opened Mp3Source
  import Mpeg

  /** The first `c` frames have been handed on, what is kept back of the audio is too short for a frame, and the
      aligner has the surplus of the source. */
  ghost predicate Handed(s: Source, a: Mpeg.Aligner, frames: seq<seq<Byte>>, c: nat)
    reads s, a, s.readData, s.filter, s.filter.build
  {
    && s.Valid() && s.running && s.aligned && !s.dropped && s.NotFull()
    && a.Synced() && Mpeg.AllAac(frames, a.header) && c <= |frames|
    && s.emitted == s.gone == Join(frames[..c]) && a.WithSurplus([]) == s.surplus
    && Mpeg.Tail(s.surplus + s.Leftover(), frames, c)
  }

  /** The audio of this wire is the beginning of these frames. */
  ghost predicate Carries(interval: nat, wire: seq<Byte>, frames: seq<seq<Byte>>) {
    Read(interval, START, wire).audio <= Join(frames)
  }

  lemma CarriesFront(interval: nat, wire: seq<Byte>, more: seq<Byte>, frames: seq<seq<Byte>>)
    requires Carries(interval, wire + more, frames)
    ensures Carries(interval, wire, frames)
  {
    hide Read, Join;
    ReadAppend(interval, START, wire, more);
    ReadGrows(interval, Read(interval, START, wire), more);
  }

  /** `mp3_get_filter_meta` with the aligner: a block that comes out is whole frames, the next ones. */
  method NextBlock(s: Source, a: Mpeg.Aligner, arrived: seq<Byte>, rate: nat, f: nat -> Mpeg.Findings,
                   ghost frames: seq<seq<Byte>>, ghost c: nat)
      returns (out: Option<seq<Byte>>, taken: nat, ghost k: nat)
    requires Handed(s, a, frames, c)
    requires Carries(s.filter.interval, s.wire + s.Unread() + arrived, frames)
    modifies s, s.filter, s.filter.build, s.readData, s.filter.title, a
    ensures Handed(s, a, frames, c + k) && (s.readData == null || s.readData == old(s.readData) || fresh(s.readData))
    ensures taken == Min(|arrived|, old(s.Room(rate)))
    ensures s.wire + s.Unread() == old(s.wire + s.Unread()) + arrived[..taken]
    ensures if out.Some? then out.value == Join(frames[c..c + k]) && out.value != [] else Join(frames[c..c + k]) == []
  {
    hide Read, Join, Mpeg.AllAac, Source.Valid, Source.Holding, Source.HandedOn;
    s.BufferBounds();
    ghost var before := s.wire + s.Unread();
    var full;
    k := 0;
    full, taken := s.CompleteRead(arrived, rate);
    NoFrames(frames, c);
    s.BufferBounds();
    assert s.wire + s.Unread() == before + arrived[..taken];
    if !full {
      return None, taken, k;
    }
    var block := s.FilterBlock();
    assert s.wire + [] == s.wire;
    AllOf(before, arrived, taken);
    CarriesFront(s.filter.interval, s.wire, arrived[taken..], frames);
    out, k := Align(s, a, block, rate, f, frames, c);
  }

  /** `validate_mpeg` with the aligner.  A fragment that becomes surplus is what the aligner is given. */
  method Align(s: Source, a: Mpeg.Aligner, block: seq<Byte>, rate: nat, f: nat -> Mpeg.Findings,
               ghost frames: seq<seq<Byte>>, ghost c: nat)
      returns (out: Option<seq<Byte>>, ghost k: nat)
    requires s.Holding(block) && s.running && s.aligned && !s.dropped
    requires a.Synced() && Mpeg.AllAac(frames, a.header) && c <= |frames|
    requires s.emitted == s.gone == Join(frames[..c]) && a.WithSurplus([]) == s.surplus
    requires s.gone + s.surplus + block <= Join(frames) && Mpeg.Tail(s.surplus, frames, c)
    modifies s`readData, s`readCount, s`surplus, s`running, s`left, s`emitted, s`gone, s`dropped, s.filter`offset, a
    ensures Handed(s, a, frames, c + k) && (s.readData == null || fresh(s.readData))
    ensures s.wire == old(s.wire) && s.Unread() == []
    ensures if out.Some? then out.value == Join(frames[c..c + k]) && out.value != [] else Join(frames[c..c + k]) == []
  {
    hide Read, Join, Mpeg.AllAac, Mpeg.Tail, Source.Valid, Source.Holding, Source.HandedOn, Handed;
    if block == [] {
      k := 0;
      NoFrames(frames, c);
      out := HandOnNothing(s, a, rate, frames, c);
      return;
    }
    var ret;
    ret, k := Parse(a, block, s.surplus, f, frames, c);
    MoreFrames(frames, c, k);
    out := HandOnFrames(s, a, block, rate, ret, frames, c, k);
  }

  method HandOnNothing(s: Source, a: Mpeg.Aligner, rate: nat, ghost frames: seq<seq<Byte>>, ghost c: nat)
      returns (out: Option<seq<Byte>>)
    requires s.Holding([]) && s.running && s.aligned && !s.dropped
    requires a.Synced() && Mpeg.AllAac(frames, a.header) && c <= |frames|
    requires s.emitted == s.gone == Join(frames[..c]) && a.WithSurplus([]) == s.surplus && Mpeg.Tail(s.surplus, frames, c)
    modifies s`readData, s`readCount, s`surplus, s`running, s`left, s`emitted, s`gone, s`dropped, s.filter`offset
    ensures Handed(s, a, frames, c) && (s.readData == null || fresh(s.readData))
    ensures s.wire == old(s.wire) && s.Unread() == [] && out == None
  {
    hide Read, Join, Mpeg.AllAac, Mpeg.Tail, Source.Valid, Source.Holding, Source.HandedOn;
    ghost var gone, surplus := s.gone, s.surplus;
    Rest(gone, surplus, []);
    out := s.HandOn([], rate, 0);
    s.BufferBounds();
    s.HowDivided(gone + surplus + [], gone, surplus, 0, out, false);
    assert s.surplus + s.Leftover() == surplus;
  }

  method HandOnFrames(s: Source, a: Mpeg.Aligner, block: seq<Byte>, rate: nat, ret: nat,
                      ghost frames: seq<seq<Byte>>, ghost c: nat, ghost k: nat)
      returns (out: Option<seq<Byte>>)
    requires s.Holding(block) && s.running && s.aligned && !s.dropped && block != []
    requires a.Synced() && a.surplus == None && Mpeg.AllAac(frames, a.header) && c + k <= |frames|
    requires s.emitted == s.gone == Join(frames[..c]) && Join(frames[..c]) + Join(frames[c..c + k]) == Join(frames[..c + k])
    requires
      var data := s.surplus + block;
      && ret <= |data| && ret <= TOO_MUCH && data[..|data| - ret] == Join(frames[c..c + k])
      && a.len + ret == a.block.Length && a.block[a.len..a.len + ret] == data[|data| - ret..]
      && Mpeg.Tail(data[|data| - ret..], frames, c + k)
    modifies s`readData, s`readCount, s`surplus, s`running, s`left, s`emitted, s`gone, s`dropped, s.filter`offset
    modifies a`surplus
    ensures Handed(s, a, frames, c + k) && (s.readData == null || fresh(s.readData))
    ensures s.wire == old(s.wire) && s.Unread() == []
    ensures if out.Some? then out.value == Join(frames[c..c + k]) && out.value != [] else Join(frames[c..c + k]) == []
  {
    hide Read, Join, Mpeg.AllAac, Mpeg.Tail, Source.Valid, Source.Holding, Source.HandedOn, Handed;
    ghost var gone, surplus := s.gone, s.surplus;
    ghost var data := surplus + block;
    Rest(gone, surplus, block);
    out := s.HandOn(block, rate, ret);
    s.BufferBounds();
    s.HowDivided(gone + surplus + block, gone, surplus, ret, out, false);
    if s.surplus != [] {
      assert s.surplus == data[|data| - ret..];
      a.KeepLeftover(ret);
    }
    NowHanded(s, a, frames, c + k);
  }

  lemma NowHanded(s: Source, a: Mpeg.Aligner, frames: seq<seq<Byte>>, c: nat)
    requires s.Valid() && s.running && s.aligned && !s.dropped && s.NotFull()
    requires s.readData != null ==> s.left <= s.readData.Length
    requires a.Synced() && Mpeg.AllAac(frames, a.header) && c <= |frames|
    requires s.emitted == s.gone == Join(frames[..c]) && a.WithSurplus([]) == s.surplus
    requires Mpeg.Tail(s.surplus + s.Leftover(), frames, c)
    ensures Handed(s, a, frames, c)
  {
    hide Join, Read, Mpeg.AllAac, Mpeg.Tail;
  }

  /** `mpeg_complete_frames` on what has come of a stream of AAC: the next so many whole frames. */
  method Parse(a: Mpeg.Aligner, block: seq<Byte>, ghost surplus: seq<Byte>, f: nat -> Mpeg.Findings,
               ghost frames: seq<seq<Byte>>, ghost c: nat)
      returns (ret: nat, ghost k: nat)
    requires a.Synced() && Mpeg.AllAac(frames, a.header) && c <= |frames| && a.WithSurplus([]) == surplus
    requires Join(frames[..c]) + surplus + block <= Join(frames)
    modifies a
    ensures a.Synced() && a.header == old(a.header) && a.surplus == None && c + k <= |frames|
    ensures
      var data := surplus + block;
      && ret <= |data| && ret <= TOO_MUCH && data[..|data| - ret] == Join(frames[c..c + k])
      && a.len + ret == a.block.Length && a.block[a.len..a.len + ret] == data[|data| - ret..]
      && Mpeg.Tail(data[|data| - ret..], frames, c + k)
  {
    hide Join, Mpeg.AllAac, Mpeg.Samples, Mpeg.Aligner.Stuck, Mpeg.Aligner.Given;
    AheadOf(frames, a.header, c, surplus, block);
    a.PutInFront(block);
    var left, stuck;
    left, stuck, k := a.CompleteFrames(block, 0, f, frames[c..]);
    ret := left;
    FramesAreShort(frames[c..], a.header, k, ret);
    SameFrames(frames, c, k);
    Mpeg.TailOn(a.block[a.len..a.len + ret], frames, c, k);
  }

  lemma MoreFrames(frames: seq<seq<Byte>>, c: nat, k: nat)
    requires c + k <= |frames|
    ensures Join(frames[..c]) + Join(frames[c..c + k]) == Join(frames[..c + k])
  {
    hide Join;
    SameFrames(frames, c, k);
    Mpeg.JoinOn(frames, c, k);
  }

  lemma NoFrames(frames: seq<seq<Byte>>, c: nat)
    requires c <= |frames|
    ensures Join(frames[c..c]) == []
  {
  }

  lemma AllOf(before: seq<Byte>, s: seq<Byte>, k: nat)
    requires k <= |s|
    ensures (before + s[..k]) + s[k..] == before + s
  {
  }

  lemma Rest(gone: seq<Byte>, surplus: seq<Byte>, block: seq<Byte>)
    ensures (gone + surplus + block)[|gone|..] == surplus + block
    ensures surplus + block == surplus <==> block == []
  {
  }

  lemma AheadOf(frames: seq<seq<Byte>>, header: Mpeg.Header, c: nat, surplus: seq<Byte>, block: seq<Byte>)
    requires Mpeg.AllAac(frames, header) && c <= |frames| && Join(frames[..c]) + surplus + block <= Join(frames)
    ensures Mpeg.AllAac(frames[c..], header) && surplus + block <= Join(frames[c..])
  {
    Mpeg.AllFrom(frames, header, c);
    hide Join;
    JoinSplit(frames, c);
    var lead := Join(frames[..c]);
    Rest(lead, surplus, block);
    assert Join(frames)[|lead|..] == Join(frames[c..]);
  }

  lemma FramesAreShort(frames: seq<seq<Byte>>, header: Mpeg.Header, k: nat, ret: int)
    requires Mpeg.AllAac(frames, header) && (ret < 10 || (k < |frames| && ret < |frames[k]|))
    ensures ret <= TOO_MUCH
  {
    if ret >= 10 {
      assert Mpeg.AacFrame(frames[k], header);
    }
  }

  /** Any number of reads of a stream whose audio is AAC, whatever each has to give: all of it is taken, every block
      emitted is the next so many whole frames, however the wire and its metadata were cut up, and what is kept
      back of the audio is less than a frame, or ten bytes, and what the filter has not seen. */
  method Run(s: Source, a: Mpeg.Aligner, given: seq<seq<Byte>>, rates: nat -> nat, f: nat -> Mpeg.Findings,
             ghost frames: seq<seq<Byte>>)
      returns (out: seq<seq<Byte>>, ghost cuts: seq<nat>)
    requires Handed(s, a, frames, 0) && s.wire == [] && s.readData == null
    requires Carries(s.filter.interval, Join(given), frames)
    modifies s, s.filter, s.filter.build, s.filter.title, a
    ensures |cuts| == |out| + 1 && cuts[|out|] <= |frames| && Handed(s, a, frames, cuts[|out|])
    ensures Mpeg.WholeFrames(out, frames, cuts) && Join(out) == s.emitted
    ensures s.wire + s.Unread() == Join(given)
    ensures s.emitted + s.surplus + s.Leftover() == Read(s.filter.interval, START, s.wire).audio
  {
    hide Read, Join, Mpeg.AllAac, Mpeg.WholeFrames, Source.Valid, Source.Unread, Handed, Carries;
    Start(s, a, frames, given);
    out, cuts := [], [0];
    var i, k := 0, 0;
    var rest: seq<Byte> := [];
    while rest != [] || i < |given|
      invariant i <= |given| && |cuts| == |out| + 1 && cuts[|out|] <= |frames|
      invariant Handed(s, a, frames, cuts[|out|]) && (s.readData == null || fresh(s.readData))
      invariant s.readData != null ==> s.left <= s.readCount < s.readData.Length
      invariant Mpeg.WholeFrames(out, frames, cuts) && Join(out) == Join(frames[..cuts[|out|]])
      invariant s.wire + s.Unread() + rest == Join(given[..i])
      decreases |given| - i, |rest|
    {
      if rest == [] {
        rest := given[i];
        JoinNext(given, i);
        i := i + 1;
      } else {
        CarriesSoFar(s.filter.interval, given, i, frames);
        rest, out, cuts := ReadOn(s, a, rest, rates(k), f, frames, out, cuts);
        k := k + 1;
      }
    }
    Finish(s, a, frames, cuts[|out|]);
    assert given[..|given|] == given;
  }

  method ReadOn(s: Source, a: Mpeg.Aligner, given: seq<Byte>, rate: nat, f: nat -> Mpeg.Findings,
                ghost frames: seq<seq<Byte>>, before: seq<seq<Byte>>, ghost at: seq<nat>)
      returns (rest: seq<Byte>, out: seq<seq<Byte>>, ghost cuts: seq<nat>)
    requires |at| == |before| + 1 && Handed(s, a, frames, at[|before|]) && given != []
    requires s.readData != null ==> s.left <= s.readCount < s.readData.Length
    requires Mpeg.WholeFrames(before, frames, at) && Join(before) == Join(frames[..at[|before|]])
    requires Carries(s.filter.interval, s.wire + s.Unread() + given, frames)
    modifies s, s.filter, s.filter.build, s.readData, s.filter.title, a
    ensures |cuts| == |out| + 1 && Handed(s, a, frames, cuts[|out|])
    ensures s.readData == null || s.readData == old(s.readData) || fresh(s.readData)
    ensures s.readData != null ==> s.left <= s.readCount < s.readData.Length
    ensures cuts[|out|] <= |frames| && Mpeg.WholeFrames(out, frames, cuts) && Join(out) == Join(frames[..cuts[|out|]])
    ensures |rest| < |given| && s.wire + s.Unread() + rest == old(s.wire + s.Unread()) + given
  {
    hide Read, Join, Mpeg.AllAac, Mpeg.WholeFrames, Source.Valid, Handed, Carries;
    ghost var c, was := at[|before|], s.wire + s.Unread();
    Bounds(s, a, frames, c);
    var block, taken;
    ghost var n;
    block, taken, n := NextBlock(s, a, given, rate, f, frames, c);
    AllOf(was, given, taken);
    rest, out, cuts := given[taken..], before, at;
    Bounds(s, a, frames, c + n);
    if block.Some? {
      Mpeg.FramesOn(frames, before, at, c, n);
      SameFrames(frames, c, n);
      out, cuts := before + [block.value], at + [c + n];
    } else if n > 0 {
      SomeBytes(frames, a.header, c, n);
    }
  }

  lemma Start(s: Source, a: Mpeg.Aligner, frames: seq<seq<Byte>>, given: seq<seq<Byte>>)
    requires Handed(s, a, frames, 0) && s.wire == [] && s.readData == null
    ensures Mpeg.WholeFrames([], frames, [0]) && Join([]) == Join(frames[..0])
    ensures s.wire + s.Unread() + [] == Join(given[..0])
  {
  }

  lemma Bounds(s: Source, a: Mpeg.Aligner, frames: seq<seq<Byte>>, c: nat)
    requires Handed(s, a, frames, c)
    ensures s.readData != null ==> s.left <= s.readCount < s.readData.Length
    ensures c <= |frames| && s.emitted == Join(frames[..c]) && Mpeg.AllAac(frames, a.header)
    ensures forall rate :: s.Room(rate) > 0
  {
    hide Read, Join, Mpeg.AllAac;
    s.BufferBounds();
  }

  lemma Finish(s: Source, a: Mpeg.Aligner, frames: seq<seq<Byte>>, c: nat)
    requires Handed(s, a, frames, c)
    ensures s.readData != null ==> s.left <= s.readCount <= s.readData.Length
    ensures s.emitted == Join(frames[..c])
    ensures s.emitted + s.surplus + s.Leftover() == Read(s.filter.interval, START, s.wire).audio
  {
    hide Read, Join, Mpeg.AllAac;
    s.BufferBounds();
    AudioConserved(s);
  }

  lemma CarriesSoFar(interval: nat, given: seq<seq<Byte>>, i: nat, frames: seq<seq<Byte>>)
    requires i <= |given| && Carries(interval, Join(given), frames)
    ensures Carries(interval, Join(given[..i]), frames)
  {
    hide Carries;
    JoinSplit(given, i);
    CarriesFront(interval, Join(given[..i]), Join(given[i..]), frames);
  }

  lemma SameFrames(frames: seq<seq<Byte>>, c: nat, n: nat)
    requires c + n <= |frames|
    ensures frames[c..][..n] == frames[c..c + n]
  {
  }

  lemma SomeBytes(frames: seq<seq<Byte>>, header: Mpeg.Header, c: nat, n: nat)
    requires Mpeg.AllAac(frames, header) && c + n <= |frames| && n > 0
    ensures Join(frames[c..c + n]) != []
  {
    var last := frames[c..c + n][n - 1];
    assert Mpeg.AacFrame(frames[c + n - 1], header);
    assert Join(frames[c..c + n]) == Join(frames[c..c + n][..n - 1]) + last;
  }
}
