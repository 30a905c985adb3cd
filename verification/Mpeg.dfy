/** The frame aligner of src/mpeg.c, for blocks that are not shared: the scan over a block in place.

    The layouts of MPEG, TS and USAC streams are not part of this model: what the checks for them find is
    given, one value of `Findings` a turn of the loop, and every theorem is for all of them. */
module Mpeg {
  import opened Bytes
  import opened Wrappers

  /** `mask`, which takes these values only: none, 0xFFFEFDC0, 0xFFFE0000, 0xFFE00000 and 0xFF000000. */
  datatype Mask = NoMask | AacMask | Mp3Mask | UsacMask | OneByte

  datatype Header = Header(b0: int, b1: int, b2: int, b3: int)

  /** The bits of a frame header that a mask keeps. */
  function Masked(mask: Mask, p: seq<Byte>): Header
    requires |p| >= 4
  {
    match mask
    case NoMask => Header(0, 0, 0, 0)
    case AacMask => Header(p[0], p[1] - p[1] % 2, p[2] - 2 * (p[2] / 2 % 2), p[3] - p[3] % 64)
    case Mp3Mask => Header(p[0], p[1] - p[1] % 2, 0, 0)
    case UsacMask => Header(p[0], p[1] - p[1] % 32, 0, 0)
    case OneByte => Header(p[0], 0, 0, 0)
  }

  /** `process_frame` */
  datatype Process = Nothing | AacFrames | Mp3Frames | UsacFrames | TsFrames | Id3Frames

  /** `get_aac_frame_len`, and the number of 1024-sample blocks in a frame. */
  function AacLen(p: seq<Byte>): (n: nat)
    requires |p| >= 7
  {
    var b3: int, b4: int, b5: int := p[3], p[4], p[5];
    b3 % 4 * 2048 + b4 * 8 + b5 / 32
  }

  function AacSamples(p: seq<Byte>): nat
    requires |p| >= 7
  {
    var b6: int := p[6];
    (b6 % 4 + 1) * 1024
  }

  /** A frame of the AAC stream that has this header. */
  predicate AacFrame(f: seq<Byte>, header: Header) {
    |f| >= 7 && AacLen(f) == |f| && Masked(AacMask, f) == header
  }

  predicate AllAac(frames: seq<seq<Byte>>, header: Header) {
    forall i | 0 <= i < |frames| :: AacFrame(frames[i], header)
  }

  /** The samples in so many frames. */
  function Samples(frames: seq<seq<Byte>>): nat {
    if frames == [] then 0
    else
      var last := frames[|frames| - 1];
      Samples(frames[..|frames| - 1]) + if |last| >= 7 then AacSamples(last) else 0
  }

  /** What is seen at the place of frame `k` when the data stops at any point after it. */
  lemma FrameAt(frames: seq<seq<Byte>>, header: Header, whole: seq<Byte>, k: nat)
    requires AllAac(frames, header) && k <= |frames| && whole <= Join(frames)
    requires |Join(frames[..k])| + 10 <= |whole|
    ensures k < |frames|
    ensures
      var left := whole[|Join(frames[..k])|..];
      && Masked(AacMask, left) == header && AacLen(left) == |frames[k]| && AacSamples(left) == AacSamples(frames[k])
    ensures |Join(frames[..k + 1])| == |Join(frames[..k])| + |frames[k]|
    ensures Samples(frames[..k + 1]) == Samples(frames[..k]) + AacSamples(frames[k])
  {
    hide Join, Masked, AacLen, AacSamples;
    assert frames[..|frames|] == frames;
    JoinNext(frames, k);
    JoinSplit(frames, k + 1);
    SamePrefix(Join(frames[..k]), frames[k], Join(frames[k + 1..]), whole);
    SameHeader(whole[|Join(frames[..k])|..], frames[k]);
    assert frames[..k + 1][..k] == frames[..k];
  }

  lemma SameHeader(p: seq<Byte>, q: seq<Byte>)
    requires |p| >= 7 && |q| >= 7 && forall i | 0 <= i < 7 :: p[i] == q[i]
    ensures AacLen(p) == AacLen(q) && AacSamples(p) == AacSamples(q) && Masked(AacMask, p) == Masked(AacMask, q)
  {
  }

  lemma SamePrefix(before: seq<Byte>, f: seq<Byte>, after: seq<Byte>, whole: seq<Byte>)
    requires whole <= (before + f) + after && |f| >= 7 && |before| + 7 <= |whole|
    ensures forall i | 0 <= i < 7 :: whole[|before|..][i] == f[i]
  {
    forall i | 0 <= i < 7
      ensures whole[|before|..][i] == f[i]
    {
      assert whole[|before| + i] == ((before + f) + after)[|before| + i];
    }
  }

  const APE: seq<Byte> := [65, 80, 69, 84, 65, 71, 69, 88]
  const TAG: seq<Byte> := [84, 65, 71]
  const ID3: seq<Byte> := [73, 68, 51]
  const MATROSKA: seq<Byte> := [0x1A, 0x45, 0xDF, 0xA3]
  const OGGS: seq<Byte> := [79, 103, 103, 83]
  const FTYP: seq<Byte> := [102, 116, 121, 112]

  function ApeLen(p: seq<Byte>): nat
    requires |p| >= 16
  {
    var b0: int, b1: int, b2: int, b3: int := p[12], p[13], p[14], p[15];
    (b0 + b1 * 0x100 + b2 * 0x1_0000 + b3 * 0x100_0000 + 32) % 0x1_0000_0000
  }

  function Id3Size(p: seq<Byte>): nat
    requires |p| >= 10
  {
    var b0: int, b1: int, b2: int, b3: int := p[6], p[7], p[8], p[9];
    ((b0 % 128 * 128 + b1 % 128) * 128 + b2 % 128) * 128 + b3 % 128
  }

  predicate IsId3(p: seq<Byte>) {
    |p| >= 16 && ID3 <= p && p[3] < 0xFF && p[4] < 0xFF && p[5] % 16 == 0
  }

  /** What `check_for_id3` makes of a place: 1 for a tag, 0 when there may be one, -1 for none. */
  function TagCheck(p: seq<Byte>): int {
    if |p| < 16 then 0
    else if APE <= p then if ApeLen(p) > |p| then 0 else 1
    else if TAG <= p then if |p| < 128 then 0 else 1
    else if IsId3(p) then 1
    else -1
  }

  predicate BeginsTag(p: seq<Byte>) {
    TAG <= p || ID3 <= p || APE <= p
  }

  /** An MP4 or a Matroska file, which are not parsed. */
  predicate OtherContainer(p: seq<Byte>)
    requires |p| >= 8
  {
    p[4..8] == FTYP || p[..4] == MATROSKA
  }

  /** Something that may be the start of a stream, as `find_align_sync` sees it. */
  predicate Candidate(p: seq<Byte>) {
    && |p| >= 3
    && (|| p[0] == 0x47
        || (p[0] == 0x56 && p[1] >= 0xE0)
        || (p[0] == 0xFF && (p[1] != 0xFF || p[2] <= 0xFB))
        || OGGS <= p || ID3 <= p || TAG <= p || APE <= p)
  }

  /** What a look at an MPEG frame finds, and what the checks for the start of a stream find. */
  datatype Frame = ShortFrame | BadFrame | WholeFrame(len: nat, samples: nat)
  datatype Stream = NoStream | MoreNeeded | Aac | Mp3 | Usac | Ts(packet: nat)

  /** `counted` is what the check for MPEG frames leaves in `sample_count`, if it gets that far. */
  datatype Findings = Findings(frame: Frame, stream: Stream, counted: Option<nat>)

  /** What a turn of the loop comes to. */
  datatype Turn = Continue | Break | Return(ret: int)

  /** Where the loop gets nowhere: out of sync at something that may be a tag but is not seen to be one, with
      no count of samples to go by. */
  predicate StuckAt(mask: Mask, header: Header, left: seq<Byte>, keepMeta: bool, resize: bool, sampleCount: nat) {
    && |left| >= 10 && mask != NoMask && Masked(mask, left) != header
    && !keepMeta && !resize && sampleCount == 0
    && (TagCheck(left) == 0 || (TagCheck(left) == 1 && APE <= left && ApeLen(left) == 0))
  }

  /** A dozen bytes that are not the next frame are enough. */
  lemma StuckExample()
    ensures
      var header := Masked(AacMask, [0xFF, 0xF1, 0x50, 0x80]);
      StuckAt(AacMask, header, [0, 1, 2, 3, 4, 5, 6, 7, 8, 9, 10, 11], false, false, 0)
  {
  }

  /** So is the start of a tag that goes on in the next block, but not a tag that is all there. */
  lemma {:induction false} StuckOnTag(mask: Mask, header: Header, left: seq<Byte>)
    requires mask != NoMask && |left| >= 16 && TAG <= left && Masked(mask, left) != header
    ensures StuckAt(mask, header, left, false, false, 0) <==> |left| < 128
  {
    assert left[1] == TAG[1] && APE[1] == 80;
  }

  // ---------------------------------------------------------------------------------------------
  // Removing and clearing bytes
  // ---------------------------------------------------------------------------------------------

  /** What is left of `was` in `now`: some bytes are gone, and some are zero, but those there are stand in their
      order. */
  ghost predicate Thinned(now: seq<Byte>, was: seq<Byte>) {
    now == [] || (was != [] && (Thinned(now, was[1..]) || (now[0] in {was[0], 0} && Thinned(now[1..], was[1..]))))
  }

  lemma {:induction false} ThinnedCleared(now: seq<Byte>, was: seq<Byte>)
    requires |now| == |was| && forall i | 0 <= i < |now| :: now[i] == was[i] || now[i] == 0
    ensures Thinned(now, was)
    decreases |now|
  {
    if now != [] {
      ThinnedCleared(now[1..], was[1..]);
    }
  }

  lemma ThinnedSame(s: seq<Byte>)
    ensures Thinned(s, s)
  {
    ThinnedCleared(s, s);
  }

  lemma {:induction false} ThinnedThen(now: seq<Byte>, mid: seq<Byte>, was: seq<Byte>)
    requires Thinned(now, mid) && Thinned(mid, was)
    ensures Thinned(now, was)
    decreases |mid| + |was|
  {
    if now != [] {
      if Thinned(mid, was[1..]) {
        ThinnedThen(now, mid, was[1..]);
      } else if Thinned(now, mid[1..]) {
        ThinnedThen(now, mid[1..], was[1..]);
      } else {
        ThinnedThen(now[1..], mid[1..], was[1..]);
      }
    }
  }

  /** A piece cut out. */
  lemma {:induction false} ThinnedCut(a: seq<Byte>, cut: seq<Byte>, b: seq<Byte>)
    ensures Thinned(a + b, a + cut + b)
    decreases |a| + |cut|
  {
    if a != [] {
      ThinnedCut(a[1..], cut, b);
      assert (a + b)[1..] == a[1..] + b && (a + cut + b)[1..] == a[1..] + cut + b;
    } else if cut != [] {
      ThinnedCut([], cut[1..], b);
      assert ([] + cut + b)[1..] == [] + cut[1..] + b && [] + b == a + b;
    } else {
      assert a + b == b && a + cut + b == b;
      ThinnedSame(b);
    }
  }

  lemma ThinnedFront(s: seq<Byte>, k: nat)
    requires k <= |s|
    ensures Thinned(s[..k], s)
  {
    ThinnedCut(s[..k], s[k..], []);
    assert s[..k] + [] == s[..k] && s[..k] + s[k..] + [] == s;
  }

  datatype Passing = Passing(whole: seq<Byte>, frames: seq<seq<Byte>>, k: nat, t: Turn)

  class Aligner {
    var mask: Mask
    var header: Header              // `match`
    var marker: Byte
    var process: Process
    var keepMeta: bool
    var copyMeta: bool
    var skipSync: bool
    var resize: bool
    var chkTag: bool
    var resyncCount: nat            // an unsigned short
    var sampleCount: nat
    var tagData: Option<seq<Byte>>
    var surplus: Option<seq<Byte>>

    // the block, and the locals of the scan
    var block: array<Byte>
    var len: nat
    var start: nat
    var loop: nat
    var samples: nat

    ghost predicate Valid()
      reads this
    {
      start <= len <= block.Length
    }

    /** What is left of the block. */
    function Left(): (p: seq<Byte>)
      reads this, block
      requires Valid()
      ensures |p| == len - start
    {
      block[start..len]
    }

    /** The block is as it was but for some zeros. */
    ghost predicate OnlyCleared(was: seq<Byte>)
      reads this`block, block
    {
      block.Length == |was| && forall i | 0 <= i < |was| :: block[i] == was[i] || block[i] == 0
    }

    /** What a turn leaves of the block, and of what is left over when it ends the scan: nothing that was not
        there before, in its order, unless the block is made larger. */
    ghost predicate Leaves(t: Turn, was: seq<Byte>)
      reads this`block, this`len, this`resize, block
    {
      if !t.Return? then len <= block.Length && Thinned(block[..len], was)
      else !resize ==> len + Max(t.ret, 0) <= block.Length && Thinned(block[..len + Max(t.ret, 0)], was)
    }

    lemma ClearedIsThinned(was: seq<Byte>, n: nat, whole: nat)
      requires OnlyCleared(was) && n <= whole <= |was|
      ensures Thinned(block[..n], was[..whole])
    {
      hide Thinned;
      ThinnedCleared(block[..n], was[..n]);
      ThinnedFront(was[..whole], n);
      assert was[..whole][..n] == was[..n];
      ThinnedThen(block[..n], was[..n], was[..whole]);
    }

    predicate Stuck()
      reads this, block
      requires Valid()
    {
      StuckAt(mask, header, Left(), keepMeta, resize, sampleCount)
    }

    /** `memset (start, 0, n)` */
    method Clear(n: nat)
      requires Valid() && start + n <= len
      modifies block
      ensures n == 0 ==> block[..] == old(block[..])
      ensures n > 0 ==> block[start] == 0
      ensures OnlyCleared(old(block[..]))
    {
      ghost var was := block[..];
      forall i | start <= i < start + n {
        block[i] := 0;
      }
      assert n == 0 ==> block[..] == was;
    }

    /** `check_for_id3` at the start of what is left. */
    method CheckForId3() returns (ret: int)
      requires Valid() && len - start >= 10
      modifies this`mask, this`marker, this`process, this`sampleCount, this`resize, block
      ensures ret == old(TagCheck(Left())) && OnlyCleared(old(block[..]))
      ensures ret <= 0 || keepMeta ==> block[..] == old(block[..])
      ensures ret <= 0 ==>
                && mask == old(mask) && marker == old(marker) && process == old(process)
                && sampleCount == old(sampleCount) && resize == old(resize)
      ensures ret == 1 && !keepMeta && !old(APE <= Left()) && !old(TAG <= Left()) ==> sampleCount > 0
      ensures ret == 1 && !keepMeta && old(APE <= Left() || TAG <= Left()) ==>
                && mask == old(mask) && marker == old(marker) && process == old(process)
                && sampleCount == old(sampleCount) && resize == old(resize)
                && if old(APE <= Left() && ApeLen(Left()) == 0) then block[..] == old(block[..]) else block[start] == 0
      ensures old(mask) != NoMask ==> mask != NoMask
      ensures block[start] == old(block[start]) || block[start] == 0
      ensures ret == 1 && !old(APE <= Left()) && !old(TAG <= Left()) ==> block[..] == old(block[..])
    {
      var p := Left();
      if |p| < 16 {
        return 0;
      }
      ret := 1;
      var setCallback := mask == NoMask;
      if p[..8] == APE {
        var n := ApeLen(p);
        if n > |p| {
          return 0;
        }
        if keepMeta {
          if setCallback {
            process, mask, marker := Id3Frames, OneByte, 0x41;
          }
          sampleCount := n;
        } else {
          Clear(n);
        }
        return;
      }
      if p[..3] == TAG {
        if |p| < 128 {
          return 0;
        }
        if keepMeta {
          process, mask, marker, sampleCount := Id3Frames, OneByte, 0x54, 128;
        } else {
          Clear(128);
        }
        return;
      }
      if p[..3] == ID3 && p[3] < 0xFF && p[4] < 0xFF && p[5] % 16 == 0 {
        var size := Id3Size(p);
        sampleCount := size + 10;
        if size > |p| {
          resize := true;
          return;
        }
        if setCallback {
          process, mask, marker := Id3Frames, OneByte, 0x49;
        }
        return;
      }
      ret := -1;
    }

    /** `match_syncbits` */
    method MatchSyncBits() returns (matched: bool)
      requires Valid() && len - start >= 10 && mask != NoMask
      modifies this`mask, this`marker, this`process, this`sampleCount, this`resize, this`chkTag, block
      ensures old(Masked(mask, Left()) == header) ==>
                && matched && chkTag == old(chkTag) && block[..] == old(block[..])
                && mask == old(mask) && marker == old(marker) && process == old(process)
                && sampleCount == old(sampleCount) && resize == old(resize)
      ensures !matched ==>
                && chkTag == old(chkTag) && block[..] == old(block[..])
                && mask == old(mask) && marker == old(marker) && process == old(process)
                && sampleCount == old(sampleCount) && resize == old(resize)
                && len - start >= 16 && !old(Stuck())
      ensures matched && old(Masked(mask, Left()) != header) ==>
                && chkTag
                && (!old(Stuck()) && !keepMeta && !resize && sampleCount == 0 ==> old(block[start]) != 0 == block[start])
                && (old(Stuck()) ==> sampleCount == 0 && !resize && block[..] == old(block[..])
                                     && mask == old(mask) && marker == old(marker) && process == old(process))
      ensures mask != NoMask && OnlyCleared(old(block[..]))
    {
      matched := true;
      var p := Left();
      if Masked(mask, p) != header {
        TagStarts(p);
        var ret := CheckForId3();
        if ret < 0 {
          return false;
        }
        chkTag := true;
      }
    }

    lemma TagStarts(p: seq<Byte>)
      requires |p| >= 10
      ensures APE <= p || TAG <= p ==> p[0] != 0
    {
    }

    /** `handle_id3_frame` */
    method HandleId3() returns (frameLen: int)
      requires Valid()
      modifies this`tagData, this`mask
      ensures frameLen == if len - start < sampleCount then 0 else if keepMeta then sampleCount else -1
      ensures mask == if frameLen == sampleCount && keepMeta && len - start >= sampleCount then NoMask else old(mask)
    {
      if len - start < sampleCount {
        return 0;
      }
      if copyMeta {
        tagData := Some(block[start..start + sampleCount]);
      }
      if keepMeta {
        mask := NoMask;
        return sampleCount;
      }
      frameLen := -1;
    }

    /** A frame of `n` bytes, when all of it is there and the next, if there is any of it, begins with
        `sync`. */
    function FrameBefore(sync: Byte, n: nat): int
      reads this, block
      requires Valid()
    {
      if n > len - start then 0 else if n < len - start && block[start + n] != sync then -1 else n
    }

    /** The `process_frame` callbacks: 0 when the frame is not all there, -1 when it is no good. */
    method ProcessFrame(f: Findings) returns (frameLen: int)
      requires Valid() && len - start >= 10
      modifies this`tagData, this`mask, this`sampleCount
      ensures -1 <= frameLen <= len - start
      ensures process == AacFrames ==>
                var n := AacLen(Left());
                && frameLen == (if n > len - start then 0 else n) && mask == old(mask)
                && (frameLen > 0 ==> sampleCount == AacSamples(Left()))
      ensures process == UsacFrames ==> frameLen == FrameBefore(0x56, 3 + Left()[1] as int % 32 * 256 + Left()[2] as int)
      ensures process == TsFrames ==> frameLen == FrameBefore(0x47, old(sampleCount))
    {
      var remaining := len - start;
      var p := Left();
      match process
      case Nothing =>
        frameLen := 0;
      case AacFrames =>
        frameLen := AacLen(p);
        if remaining - frameLen < 0 {
          return 0;
        }
        sampleCount := AacSamples(p);
      case Mp3Frames =>
        match f.frame {
          case ShortFrame =>
            frameLen := 0;
          case BadFrame =>
            sampleCount, frameLen := 0, -1;
          case WholeFrame(n, count) =>
            sampleCount, frameLen := count, if remaining - n < 0 then 0 else n;
        }
      case UsacFrames =>
        var hi: int, lo: int := p[1], p[2];
        frameLen := 3 + hi % 32 * 256 + lo;
        if remaining - frameLen < 0 {
          return 0;
        }
        if frameLen < remaining && p[frameLen] != 0x56 {
          sampleCount, frameLen := 0, -1;
        }
      case TsFrames =>
        frameLen := sampleCount;
        if remaining - frameLen < 0 {
          return 0;
        }
        if frameLen < remaining && p[frameLen] != 0x47 {
          sampleCount, frameLen := 0, -1;
        }
      case Id3Frames =>
        frameLen := HandleId3();
    }

    lemma CutIs(was: seq<Byte>, now: seq<Byte>, at: nat, k: nat, end: nat)
      requires at + k <= end <= |was| && |now| == end - k
      requires now[..at] == was[..at] && now[at..] == was[at + k..end]
      ensures Thinned(now, was[..end])
    {
      hide Thinned;
      ThinnedCut(was[..at], was[at..at + k], was[at + k..end]);
      assert now == was[..at] + was[at + k..end];
      assert was[..end] == was[..at] + was[at..at + k] + was[at + k..end];
    }

    /** `memmove (start, start + k, remaining - k)`, and the block is shorter. */
    method Skip(k: nat)
      requires Valid() && k <= len - start
      modifies this`len, block
      ensures Valid() && len == old(len) - k && block[..start] == old(block[..start])
      ensures Left() == old(Left())[k..]
      ensures k == 0 ==> block[..] == old(block[..])
      ensures Thinned(block[..len], old(block[..len]))
    {
      hide Thinned;
      ghost var was, all := block[..], len;
      MoveDown(block, start, k, len - start - k);
      len := len - k;
      assert block[start..len] == was[start + k..start + k + (len - start)];
      assert k == 0 ==> block[..] == was;
      CutIs(was, block[..len], start, k, all);
    }

    /** The stream may go on at `i`: past a marker that is not a tag, `match_syncbits` comes down to the
        masked header, which is not asked for when the marker is all there is to it. */
    predicate GoesOnAt(p: seq<Byte>, i: nat)
      reads this`mask, this`marker, this`header
      requires i < |p| && mask != NoMask
    {
      p[i] == marker && (mask == OneByte || |p| - i < 4 || Masked(mask, p[i..]) == header)
    }

    predicate GoesOnNowhere(p: seq<Byte>)
      reads this`mask, this`marker, this`header
      requires mask != NoMask
    {
      forall j | 0 <= j < |p| :: !GoesOnAt(p, j)
    }

    /** The part of `find_align_sync` that looks for the marker of the stream it is in: the first place
        where the stream may go on, unless a tag comes instead. */
    method FindMarker() returns (found: Option<nat>)
      requires Valid() && len - start >= 16 && mask != NoMask
      ensures found.Some? ==> found.value < len - start && GoesOnAt(Left(), found.value)
      ensures found.Some? ==> forall j | 0 <= j < found.value :: !GoesOnAt(Left(), j)
      ensures found.None? ==> BeginsTag(Left()) || GoesOnNowhere(Left())
      ensures BeginsTag(Left()) ==> found.None?
    {
      var p := Left();
      if BeginsTag(p) {
        return None;
      }
      var i := 0;
      while i < |p|
        invariant i <= |p|
        invariant forall j | 0 <= j < i :: !GoesOnAt(p, j)
      {
        if p[i] == marker && (mask == OneByte || |p| - i < 4 || Masked(mask, p[i..]) == header) {
          return Some(i);
        }
        i := i + 1;
      }
      found := None;
    }

    /** The part that looks for anything known, and takes the first it finds, or leaves two bytes.  0 also
        when the content is not to be parsed. */
    method FindCandidate() returns (skip: nat)
      requires Valid() && len - start >= 10
      modifies this`skipSync
      ensures skip <= len - start - 2
      ensures skip == 0 ==> skipSync || block[start] != 0
      ensures if OtherContainer(Left()) then skip == 0 && skipSync else skipSync == old(skipSync)
      ensures !OtherContainer(Left()) ==>
                && (skip == len - start - 2 || Candidate(Left()[skip..]))
                && forall j | 0 <= j < skip :: !Candidate(Left()[j..])
    {
      var p := Left();
      if OtherContainer(p) {
        skipSync := true;
        return 0;
      }
      skip := 0;
      while |p| - skip >= 3 && !Candidate(p[skip..])
        invariant skip <= |p| - 2
        invariant forall j | 0 <= j < skip :: !Candidate(p[j..])
      {
        skip := skip + 1;
      }
      assert skip == 0 ==> Candidate(p) && p[0] != 0;
    }

    /** The first place to look at next: where the stream goes on, or when it does not, a candidate for the
        start of another, short of the last two bytes. */
    ghost predicate IsNextPlace(p: seq<Byte>, skip: nat)
      reads this`mask, this`marker, this`header, this`skipSync
      requires |p| >= 10 && skip < |p|
    {
      if mask != NoMask then
        && !BeginsTag(p) && GoesOnAt(p, skip)
        && forall j | 0 <= j < skip :: !GoesOnAt(p, j)
      else if OtherContainer(p) then
        skip == 0 && skipSync
      else
        && (skip == |p| - 2 || Candidate(p[skip..]))
        && forall j | 0 <= j < skip :: !Candidate(p[j..])
    }

    /** `find_align_sync`: how much to skip.  The block is moved down unless much is left of it, in which
        case it is the end of the block that the caller cuts off. */
    method FindAlignSync() returns (skip: nat)
      requires Valid() && len - start >= 10 && (mask != NoMask ==> len - start >= 16)
      modifies this`mask, this`skipSync, this`resyncCount, block
      ensures skip < len - start
      ensures skip == 0 ==> block[..] == old(block[..]) && (mask == NoMask ==> skipSync || block[start] != 0)
      ensures block[start..len - skip] == Kept(old(Left()), skip) && block[..start] == old(block[..start])
      ensures mask == old(mask) || mask == NoMask
      ensures resyncCount == (old(resyncCount) + skip) % 0x1_0000
      ensures IsNextPlace(old(Left()), skip)
    {
      hide IsNextPlace;
      skip := FindSkip();
      var remaining := len - start - skip;
      MoveOver(skip, remaining);
      resyncCount := (resyncCount + skip) % 0x1_0000;
    }

    method MoveOver(skip: nat, remaining: nat)
      requires Valid() && skip + remaining == len - start
      modifies block
      ensures skip == 0 ==> block[..] == old(block[..])
      ensures block[start..start + remaining] == Kept(old(Left()), skip) && block[..start] == old(block[..start])
    {
      hide Kept;
      ghost var was := block[..];
      assert Left() == was[start..len];
      KeptIs(was, start, len, skip);
      if remaining < 20000 && skip > 0 {
        MoveDown(block, start, skip, remaining);
      }
    }

    method FindSkip() returns (skip: nat)
      requires Valid() && len - start >= 10 && (mask != NoMask ==> len - start >= 16)
      modifies this`mask, this`skipSync
      ensures skip < len - start
      ensures skip == 0 && mask == NoMask ==> skipSync || block[start] != 0
      ensures mask == old(mask) || mask == NoMask
      ensures IsNextPlace(Left(), skip)
      ensures old(mask) != NoMask && mask == NoMask ==>
                BeginsTag(Left()) || old(GoesOnNowhere(Left()))
    {
      var p: Option<nat> := None;
      if mask != NoMask {
        p := FindMarker();
        if p == None {
          mask := NoMask;
        }
      }
      if p == None {
        skip := FindCandidate();
      } else {
        skip := p.value;
      }
    }

    /** `get_initial_frame`, where no stream is known: 1 for one found, 2 for one not to be parsed. */
    method InitialFrame(f: Findings) returns (ret: int)
      requires Valid() && len - start >= 10 && mask == NoMask
      modifies this`mask, this`marker, this`process, this`sampleCount, this`resize, this`chkTag, this`skipSync,
               this`resyncCount, this`header, block
      ensures -1 <= ret <= 2 && OnlyCleared(old(block[..]))
      ensures ret == -1 ==> block[..] == old(block[..])
      ensures ret == -1 ==> !chkTag && !old(skipSync)
    {
      if skipSync {
        return 2;
      }
      chkTag, resize := false, false;
      ret := -1;
      var p := Left();
      if p[0] == 0x49 || p[0] == 0x54 || p[0] == 0x41 {
        ret := CheckForId3();
      }
      var q := Left();
      if MATROSKA <= q {
        skipSync := true;
        return 1;
      }
      if OGGS <= q {
        assert block[start] == q[0] == OGGS[0];
        skipSync := true;
        return -1;
      }
      if ret < 0 {
        ret := FindStream(f);
      }
      if ret > 0 {
        resyncCount := 0;
        header := Masked(mask, Left());
      }
    }

    /** `check_for_ts`, `check_for_aac`, `check_for_mp3` and `check_for_usac`. */
    method FindStream(f: Findings) returns (ret: int)
      requires Valid() && len - start >= 10
      modifies this`mask, this`marker, this`process, this`sampleCount, this`skipSync
      ensures -1 <= ret <= 1
    {
      var p := Left();
      ret := -1;
      if p[0] == 0x47 || p[1] >= 0xE0 {
        sampleCount := if f.counted.Some? then f.counted.value else sampleCount;
        match f.stream
        case NoStream =>
        case MoreNeeded =>
          ret := 0;
        case Aac =>
          mask, marker, process, ret := AacMask, 0xFF, AacFrames, 1;
        case Mp3 =>
          mask, marker, process, ret := Mp3Mask, 0xFF, Mp3Frames, 1;
        case Usac =>
          mask, marker, process, ret := UsacMask, 0x56, UsacFrames, 1;
        case Ts(packet) =>
          mask, marker, process, ret := OneByte, 0x47, TsFrames, 1;
          sampleCount, skipSync := packet, true;
      }
    }

    /** `realloc`, with whatever in the part that is new. */
    method Resize(n: nat)
      modifies this`block, this`len
      ensures len == n == block.Length && fresh(block)
    {
      var more := new Byte[n](_ => 0);
      forall i | 0 <= i < Min(n, block.Length) {
        more[i] := block[i];
      }
      block, len := more, n;
    }

    /** The measure of the scan: what is left of the block, how often the loop may still come round, whether
        the byte it is at is non-zero, and whether a tag is being checked. */
    twostate predicate Nearer()
      reads this, block
    {
      && Valid() && old(Valid())
      && (|| len - start < old(len - start)
          || (len - start == old(len - start)
              && (|| loop < old(loop)
                  || (loop == old(loop)
                      && (|| Lead() < old(Lead())
                          || (Lead() == old(Lead()) && !chkTag && old(chkTag)))))))
    }

    function Lead(): nat
      reads this, block
    {
      if start < len <= block.Length && block[start] != 0 then 1 else 0
    }

    /** A turn of the loop where the header matches, or where a tag is being checked. */
    method InSync(f: Findings) returns (t: Turn)
      requires Valid() && len - start >= 10 && mask != NoMask
      modifies this`mask, this`sampleCount, this`chkTag, this`resyncCount, this`tagData,
               this`block, this`len, this`start, this`samples, block
      ensures t != Break && !t.Continue? ==> len <= block.Length
      ensures Leaves(t, old(block[..len]))
      ensures t == Break ==> Valid() && block == old(block) && block[..] == old(block[..]) && len == old(len) && start == old(start)
      ensures t == Continue ==> Valid() && block == old(block) && !chkTag && start >= old(start)
      ensures t == Continue && len - start >= old(len - start) ==>
                && old(chkTag) && !resize && !keepMeta && old(sampleCount) == 0 && sampleCount == 0
                && len == old(len) && start == old(start) && samples == old(samples)
                && mask == old(mask) && block[..] == old(block[..])
      ensures old(chkTag) && !resize && !keepMeta && old(sampleCount) == 0 ==> t == Continue && len - start == old(len - start)
      ensures !old(chkTag) && process == AacFrames ==>
                var n := old(AacLen(Left()));
                && mask == old(mask) && block == old(block) && block[..] == old(block[..]) && len == old(len) && !chkTag
                && t == (if 0 < n <= old(len - start) then Continue else Break)
                && start == (if t == Continue then old(start) + n else old(start))
                && samples == (if t == Continue then old(samples) + old(AacSamples(Left())) else old(samples))
    {
      hide Thinned;
      var remaining := len - start;
      var frameLen;
      if chkTag {
        if resize {
          var oldLen := len;
          Resize(oldLen - remaining + if sampleCount > 0 then sampleCount else 5000);
          chkTag := false;
          return Return(oldLen);
        }
        frameLen := HandleId3();
      } else {
        frameLen := ProcessFrame(f);
      }
      t := Settle(frameLen);
    }

    /** What follows from the length of a frame: wait for more, go on after it, or cut something out. */
    method Settle(frameLen: int) returns (t: Turn)
      requires Valid() && -1 <= frameLen <= len - start && start < len
      requires frameLen < 0 && chkTag ==> sampleCount <= len - start
      modifies this`mask, this`sampleCount, this`chkTag, this`resyncCount, this`len, this`start, this`samples, block
      ensures Valid() && t == if frameLen == 0 then Break else Continue
      ensures frameLen >= 0 ==> block[..] == old(block[..]) && len == old(len) && start == old(start) + frameLen
      ensures frameLen == 0 ==> chkTag == old(chkTag) && mask == old(mask) && samples == old(samples)
      ensures Thinned(block[..len], old(block[..len]))
      ensures frameLen != 0 ==> !chkTag
      ensures frameLen > 0 ==> mask == old(mask) && samples == old(samples + sampleCount)
      ensures frameLen < 0 ==>
                && start == old(start) && samples == old(samples) && sampleCount == 0
                && (if old(chkTag) then mask == old(mask) && len == old(len - sampleCount) else len < old(len))
                && (len == old(len) ==> block[..] == old(block[..]))
    {
      hide Thinned;
      ThinnedSame(block[..len]);
      if frameLen == 0 {
        return Break;
      }
      if frameLen > 0 {
        samples := samples + sampleCount;
        start := start + frameLen;
        resyncCount := 0;
        chkTag := false;
        return Continue;
      }
      if !chkTag {
        if sampleCount == 0 || len - start < sampleCount {
          sampleCount := 1;
        }
        mask := NoMask;
      }
      Skip(sampleCount);
      sampleCount := 0;
      chkTag := false;
      t := Continue;
    }

    /** A turn of the loop with no match: look elsewhere. */
    method OutOfSync(f: Findings, offset: nat) returns (t: Turn)
      requires Valid() && offset <= start && len - start >= 10 && loop > 0
      requires mask != NoMask ==> len - start >= 16
      modifies this, block
      ensures keepMeta == old(keepMeta) && len <= block.Length && Leaves(t, old(block[..len]))
      ensures t != Break
      ensures t == Continue ==> Nearer() && block == old(block) && offset <= start
    {
      hide Kept, Candidate, Thinned, Leaves;
      ghost var was := block[..];
      var skip := FindAlignSync();
      assert skip == 0 ==> Lead() == old(Lead());
      hide Lead;
      if skip > 0 {
        // Not all that remains is ever skipped, and resync_count, an unsigned short, never gets to 100000:
        // there is nothing to do here in either case.
        KeptIsThinned(was, skip);
        len := len - skip;
        samples := 0;
        ThereIs(was[..len + skip]);
        return Continue;
      }
      if mask == NoMask {
        t := Initial(f, offset);
        return;
      }
      AllLeft(Continue);
      loop := loop - 1;
      t := Continue;
    }

    lemma ThereIs(was: seq<Byte>)
      requires len <= block.Length && Thinned(block[..len], was)
      ensures Leaves(Continue, was)
    {
    }

    lemma AllLeft(t: Turn)
      requires Valid() && !t.Return?
      ensures Leaves(t, block[..len])
    {
      ThinnedSame(block[..len]);
    }

    lemma LeavesThen(t: Turn, mid: seq<Byte>, was: seq<Byte>)
      requires Leaves(t, mid) && Thinned(mid, was)
      ensures Leaves(t, was)
    {
      hide Thinned;
      if !t.Return? {
        ThinnedThen(block[..len], mid, was);
      } else if !resize {
        ThinnedThen(block[..len + Max(t.ret, 0)], mid, was);
      }
    }

    lemma KeptIsThinned(was: seq<Byte>, skip: nat)
      requires Valid() && |was| == block.Length && skip <= len - start
      requires block[..start] == was[..start] && block[start..len - skip] == Kept(was[start..len], skip)
      ensures Thinned(block[..len - skip], was[..len])
    {
      hide Thinned, Kept;
      KeptIs(was, start, len, skip);
      var n := len - skip;
      assert block[..n] == block[..start] + block[start..n];
      if n - start < 20000 {
        ThinnedCut(was[..start], was[start..start + skip], was[start + skip..len]);
        assert was[..len] == was[..start] + was[start..start + skip] + was[start + skip..len];
      } else {
        ThinnedFront(was[..len], n);
        assert was[..n] == was[..start] + was[start..n] && was[..len][..n] == was[..n];
      }
    }

    /** A turn of the loop with no stream known and something found. */
    method Initial(f: Findings, offset: nat) returns (t: Turn)
      requires Valid() && offset <= start && len - start >= 10 && loop > 0 && mask == NoMask
      requires skipSync || block[start] != 0
      modifies this, block
      ensures keepMeta == old(keepMeta) && len <= block.Length && Leaves(t, old(block[..len]))
      ensures t != Break
      ensures t == Continue ==> Nearer() && block == old(block) && offset <= start
    {
      hide Thinned, Leaves;
      ghost var was, n := block[..], len;
      t := InitialTurn(f, offset);
      if t.Return? && resize {
        LargerIs(t, was[..n]);
      } else {
        IsLeft(t, was, n);
      }
    }

    lemma LargerIs(t: Turn, was: seq<Byte>)
      requires t.Return? && resize
      ensures Leaves(t, was)
    {
    }

    lemma IsLeft(t: Turn, was: seq<Byte>, n: nat)
      requires OnlyCleared(was) && n <= |was| && len + (if t.Return? then Max(t.ret, 0) else 0) <= n
      ensures Leaves(t, was[..n])
    {
      hide Thinned;
      ClearedIsThinned(was, len + if t.Return? then Max(t.ret, 0) else 0, n);
    }

    method InitialTurn(f: Findings, offset: nat) returns (t: Turn)
      requires Valid() && offset <= start && len - start >= 10 && loop > 0 && mask == NoMask
      requires skipSync || block[start] != 0
      modifies this, block
      ensures keepMeta == old(keepMeta) && len <= block.Length
      ensures t != Break
      ensures t == Continue ==> Nearer() && block == old(block) && offset <= start
      ensures (t.Return? && resize) ||
              (OnlyCleared(old(block[..])) && len + (if t.Return? then Max(t.ret, 0) else 0) <= old(len))
    {
      var remaining := len - start;
      var ret := InitialFrame(f);
      if ret < 0 {
        block[start] := 0;
        skipSync := false;
        return Continue;
      }
      if ret == 0 {
        if remaining > 100000 {
          return Return(-1);
        }
        if resize {
          Resize(if sampleCount > 0 then sampleCount else len + 5000);
        } else {
          len := offset;
        }
        return Return(remaining);
      }
      if ret > 1 {
        return Return(0);
      }
      if resize && sampleCount < 2000000 {
        Resize(sampleCount + (len - remaining));
        return Return(remaining);
      }
      loop := loop - 1;
      t := Continue;
    }

    /** One turn of the loop of `mpeg_complete_frames_cb`.  It comes nearer to the end or ends the scan,
        except from a stuck state, which it leaves as it is. */
    method NextTurn(f: Findings, offset: nat) returns (t: Turn)
      requires Valid() && offset <= start && loop > 0
      modifies this, block
      ensures keepMeta == old(keepMeta) && len <= block.Length && Leaves(t, old(block[..len]))
      ensures t == Break ==> Valid()
      ensures t == Continue ==> Valid() && offset <= start && block == old(block)
      ensures t == Continue && !old(Stuck()) ==> Nearer()
      ensures old(Stuck()) ==>
                && t == Continue && Stuck() && block[..] == old(block[..]) && len == old(len) && start == old(start)
                && loop == old(loop) && samples == old(samples) && mask == old(mask) && header == old(header)
      ensures old(InAac()) ==> AacTurn(t)
    {
      hide Masked, TagCheck, AacSamples, Thinned, Leaves, OnlyCleared;
      ghost var was, n := block[..], len;
      if len - start < 10 {
        AllLeft(Break);
        return Break;
      }
      if mask != NoMask {
        var matched := MatchSyncBits();
        ghost var seen := block[..len];
        ClearedIsThinned(was, n, n);
        if matched {
          t := InSync(f);
          LeavesThen(t, seen, was[..n]);
          return;
        }
      }
      t := OutOfSync(f, offset);
    }

    /** At a frame of the AAC stream that is known, or too near the end to tell. */
    ghost predicate InAac()
      reads this, block
    {
      && Valid() && mask == AacMask && process == AacFrames && !chkTag
      && (len - start >= 10 ==> Masked(AacMask, Left()) == header)
    }

    /** What a turn does there. */
    twostate predicate AacTurn(t: Turn)
      requires old(Valid())
      reads this, block
    {
      && start <= len <= block.Length
      && mask == AacMask && process == AacFrames && header == old(header) && !chkTag
      && skipSync == old(skipSync) && surplus == old(surplus)
      && block == old(block) && block[..] == old(block[..]) && len == old(len) && loop == old(loop)
      && var there := old(len - start >= 10 && 0 < AacLen(Left()) <= len - start);
      && t == (if there then Continue else Break)
      && start == (if there then old(start + AacLen(Left())) else old(start))
      && samples == (if there then old(samples + AacSamples(Left())) else old(samples))
    }

    /** Synced to an AAC stream. */
    ghost predicate Synced()
      reads this
    {
      mask == AacMask && process == AacFrames && !chkTag && !skipSync
    }

    /** Scanning `whole`, which has the first of `frames`, past the first `k` of them. */
    ghost predicate Past(whole: seq<Byte>, frames: seq<seq<Byte>>, k: nat)
      reads this, block
    {
      && Valid() && block[..] == whole && len == |whole|
      && mask == AacMask && process == AacFrames && !chkTag
      && AllAac(frames, header) && whole <= Join(frames) && k <= |frames|
      && start == |Join(frames[..k])| && samples == Samples(frames[..k])
    }

    lemma PastIsIn(whole: seq<Byte>, frames: seq<seq<Byte>>, k: nat)
      requires Past(whole, frames, k)
      ensures InAac()
    {
      hide Join, Samples, AllAac;
      if len - start >= 10 {
        FrameAt(frames, header, whole, k);
        assert Left() == whole[start..];
      }
    }

    twostate lemma PastNext(p: Passing)
      requires old(Past(p.whole, p.frames, p.k)) && AacTurn(p.t)
      ensures p.t == Continue || p.t == Break
      ensures header == old(header) && loop == old(loop) && skipSync == old(skipSync) && surplus == old(surplus)
      ensures p.t == Continue ==> Past(p.whole, p.frames, p.k + 1)
      ensures p.t == Break ==> Past(p.whole, p.frames, p.k) && AtTail(p.frames, p.k)
    {
      hide Join, Samples, Masked, AacLen, AacSamples;
      if old(len - start >= 10) {
        FrameAt(p.frames, header, p.whole, p.k);
        assert old(Left()) == p.whole[old(start)..];
      }
    }

    /** What is left is too short to look at, or does not have all of the next frame. */
    ghost predicate AtTail(frames: seq<seq<Byte>>, k: nat)
      reads this
    {
      len - start < 10 || (k < |frames| && len - start < |frames[k]|)
    }

    /** The loop of `mpeg_complete_frames_cb`.  It ends, but where it would go round for ever: `stuck` says
        that it does.  On a known AAC stream it goes from frame to frame. */
    method Scan(f: nat -> Findings, offset: nat, ghost frames: seq<seq<Byte>>)
        returns (t: Turn, stuck: bool, ghost k: nat)
      requires Valid() && offset <= start
      modifies this, block
      ensures keepMeta == old(keepMeta) && len <= block.Length
      ensures stuck ==> Valid() && Stuck() && !keepMeta
      ensures old(loop > 0 && Stuck()) ==> stuck
      ensures t == Break && !stuck ==> Valid()
      ensures t != Continue && (!stuck ==> Leaves(t, old(block[..len])))
      ensures old(loop > 0 && Past(block[..], frames, 0)) ==>
                && t == Break && !stuck && Past(old(block[..]), frames, k) && header == old(header)
                && skipSync == old(skipSync) && surplus == old(surplus)
                && AtTail(frames, k)
    {
      hide Past, AacTurn, Stuck, Leaves, Thinned;
      AllLeft(Break);
      ghost var was := block[..len];
      ghost var whole, aac, n := block[..], loop > 0 && Past(block[..], frames, 0), loop;
      var turns := 0;
      stuck, k := false, 0;
      while loop > 0
        invariant Valid() && offset <= start && block == old(block) && keepMeta == old(keepMeta)
        invariant aac ==> Past(whole, frames, k) && loop == n && header == old(header)
        invariant aac ==> skipSync == old(skipSync) && surplus == old(surplus)
        invariant Leaves(Break, was)
        invariant old(Stuck()) ==> loop == n && Stuck()
        decreases len - start, loop, Lead(), chkTag
      {
        if aac {
          PastIsIn(whole, frames, k);
          InIsNotStuck();
        }
        if Stuck() {
          NotKeeping();
          return Break, true, k;
        }
        label L:
        ghost var seen := block[..len];
        SoFar(Break, was);
        t := NextTurn(f(turns), offset);
        LeavesThen(t, seen, was);
        if aac {
          PastNext@L(Passing(whole, frames, k, t));
        }
        if t != Continue {
          return;
        }
        Goes(was);
        turns := turns + 1;
        k := k + 1;
      }
      t := Break;
    }

    lemma SoFar(t: Turn, was: seq<Byte>)
      requires !t.Return? && Leaves(t, was)
      ensures len <= block.Length && Thinned(block[..len], was)
    {
    }

    lemma Goes(was: seq<Byte>)
      requires Leaves(Continue, was)
      ensures Leaves(Break, was)
    {
    }

    lemma LeftIs(t: Turn, was: seq<Byte>)
      requires Leaves(t, was)
      ensures !t.Return? ==> len <= block.Length && Thinned(block[..len], was)
      ensures t.Return? && !resize ==>
                len + Max(t.ret, 0) <= block.Length && Thinned(block[..len + Max(t.ret, 0)], was)
    {
    }

    lemma NotKeeping()
      requires Valid() && Stuck()
      ensures !keepMeta
    {
    }

    lemma InIsNotStuck()
      requires InAac()
      ensures !Stuck()
    {
    }

    /** `mpeg_complete_frames_cb` on a block that is not shared: what the surplus of the last call and the
        new data hold of whole frames.  Afterwards the block is `block[..len]` and `ret` bytes after it are
        left over.  Does not return when `stuck`.  `frames` is what the stream is, if it is known. */
    method CompleteFrames(input: seq<Byte>, at: nat, f: nat -> Findings, ghost frames: seq<seq<Byte>>)
        returns (ret: int, stuck: bool, ghost k: nat)
      requires at <= |input|
      modifies this
      ensures len <= block.Length && keepMeta == old(keepMeta)
      ensures stuck ==> Valid() && Stuck() && !keepMeta
      ensures !stuck && !resize ==>
                && len + Max(ret, 0) <= block.Length
                && Thinned(block[..len + Max(ret, 0)], if old(skipSync) then input else old(Given(input, at)))
      ensures
        !old(skipSync) && at == 0 && StuckAt(old(mask), old(header), old(WithSurplus(input)), keepMeta, false, 0) ==>
          stuck
      ensures old(Synced()) && at == 0 && AllAac(frames, old(header)) && old(WithSurplus(input)) <= Join(frames) ==>
                && !stuck && Synced() && header == old(header) && surplus == None
                && k <= |frames| && ret >= 0
                && block[..len] == Join(frames[..k]) && block[..] == old(WithSurplus(input)) && ret == block.Length - len
                && sampleCount == Samples(frames[..k])
                && (ret < 10 || (k < |frames| && ret < |frames[k]|))
    {
      hide Past, AllAac, Join, Stuck, StuckAt, Samples, Thinned, Leaves;
      stuck, k := false, 0;
      if skipSync {
        Load(input, 0);
        ThinnedSame(input);
        assert block[..len] == input;
        return 0, stuck, k;
      }
      ghost var data, given := WithSurplus(input), Given(input, at);
      var offset := Begin(input, at);
      if Synced() && at == 0 && AllAac(frames, header) && data <= Join(frames) {
        PastNone(data, frames);
      }
      if at == 0 {
        StuckIs(data);
      }
      var t;
      assert block[..len] == given;
      t, stuck, k := Scan(f, offset, frames);
      if stuck {
        return -1, stuck, k;
      }
      ret := Finish(t, given, data, frames, k);
    }

    /** What comes after the scan. */
    method Finish(t: Turn, ghost given: seq<Byte>, ghost data: seq<Byte>, ghost frames: seq<seq<Byte>>, ghost k: nat)
        returns (ret: int)
      requires t != Continue && Leaves(t, given) && len <= block.Length && (t == Break ==> Valid())
      modifies this`len, this`sampleCount
      ensures len <= block.Length
      ensures !resize ==> len + Max(ret, 0) <= block.Length && Thinned(block[..len + Max(ret, 0)], given)
      ensures t == Break && old(Past(data, frames, k)) && old(AtTail(frames, k)) ==>
                && k <= |frames| && ret >= 0
                && block[..len] == Join(frames[..k]) && block[..] == data && ret == block.Length - len
                && sampleCount == Samples(frames[..k])
                && (ret < 10 || (k < |frames| && ret < |frames[k]|))
                && mask == AacMask && process == AacFrames && !chkTag
    {
      hide Past, AllAac, Join, Samples, Thinned, Leaves;
      LeftIs(t, given);
      if t.Return? {
        return t.ret;
      }
      PastOpen(data, frames, k);
      var remaining := len - start;
      assert 0 <= remaining <= len; // so there is no abort
      len := len - remaining;
      sampleCount := samples;
      ret := remaining;
    }

    /** Sets up the scan. */
    method Begin(input: seq<Byte>, at: nat) returns (offset: nat)
      requires at <= |input|
      modifies this`resize, this`sampleCount, this`surplus, this`block, this`len, this`start, this`loop, this`samples
      ensures fresh(block) && Valid() && start == offset && loop == 50 && samples == 0 && len == block.Length
      ensures surplus == None && !resize && sampleCount == 0
      ensures block[..] == old(Given(input, at))
      ensures at == 0 ==> offset == 0 && block[..] == old(WithSurplus(input))
    {
      assert [] + input == input;
      resize, sampleCount := false, 0;
      var data := input;
      offset := at;
      if surplus.Some? {
        if offset >= |surplus.value| {
          offset := offset - |surplus.value|;
        } else {
          data := surplus.value + data;
        }
        surplus := None;
      }
      Load(data, offset);
    }

    /** The data of a call: what was left over is put in front. */
    function WithSurplus(input: seq<Byte>): seq<Byte>
      reads this
    {
      if surplus.Some? then surplus.value + input else input
    }

    /** What it is when the scan is to begin further on; a surplus that would be passed over is left out. */
    function Given(input: seq<Byte>, at: nat): seq<Byte>
      reads this
    {
      if surplus.Some? && at < |surplus.value| then surplus.value + input else input
    }

    method Load(data: seq<Byte>, offset: nat)
      requires offset <= |data|
      modifies this`block, this`len, this`start, this`loop, this`samples
      ensures fresh(block) && block[..] == data && len == |data| && start == offset && loop == 50 && samples == 0
    {
      block := new Byte[|data|](i requires 0 <= i < |data| => data[i]);
      len, start, loop, samples := |data|, offset, 50, 0;
    }

    lemma StuckIs(data: seq<Byte>)
      requires Valid() && start == 0 && len == |data| && block[..] == data
      ensures Stuck() == StuckAt(mask, header, data, keepMeta, resize, sampleCount)
    {
      hide StuckAt;
      assert Left() == data;
    }

    lemma PastNone(data: seq<Byte>, frames: seq<seq<Byte>>)
      requires Valid() && Synced() && AllAac(frames, header) && data <= Join(frames)
      requires block[..] == data && len == |data| && start == 0 && samples == 0
      ensures Past(data, frames, 0)
    {
      JoinNone(frames);
    }

    lemma PastOpen(data: seq<Byte>, frames: seq<seq<Byte>>, k: nat)
      ensures Past(data, frames, k) ==>
                && Valid() && block[..] == data && len == |data| && mask == AacMask && process == AacFrames && !chkTag
                && k <= |frames| && AllAac(frames, header) && samples == Samples(frames[..k])
                && block[..start] == Join(frames[..k])
    {
      if Past(data, frames, k) {
        JoinSplit(frames, k);
      }
    }

    /** `mpeg_data_insert`, as the callers use it: what was left over is kept for the next block. */
    method KeepLeftover(ret: nat)
      requires len + ret <= block.Length
      modifies this`surplus
      ensures WithSurplus([]) == block[len..len + ret]
    {
      surplus := None;
      if ret > 0 {
        surplus := Some(block[len..len + ret]);
      }
      assert block[len..len + 0] == [];
      assert block[len..len + ret] + [] == block[len..len + ret];
    }

    lemma PutInFront(chunk: seq<Byte>)
      ensures WithSurplus(chunk) == WithSurplus([]) + chunk
    {
      if surplus.Some? {
        assert surplus.value + [] == surplus.value;
      } else {
        assert [] + chunk == chunk;
      }
    }

    /** One chunk of a stream of which the frames up to here have been handed on. */
    method FeedOne(chunk: seq<Byte>, f: nat -> Findings, ghost frames: seq<seq<Byte>>)
        returns (whole: seq<Byte>, count: nat, ghost k: nat)
      requires Synced() && AllAac(frames, header) && WithSurplus(chunk) <= Join(frames)
      modifies this
      ensures Synced() && header == old(header) && k <= |frames|
      ensures whole == Join(frames[..k]) && count == Samples(frames[..k])
      ensures whole + WithSurplus([]) == old(WithSurplus(chunk))
      ensures Tail(WithSurplus([]), frames, k)
    {
      hide Samples, Join, AllAac, Stuck;
      var ret, stuck;
      ret, stuck, k := CompleteFrames(chunk, 0, f, frames);
      whole, count := block[..len], sampleCount;
      assert block[..] == block[..len] + block[len..len + ret];
      KeepLeftover(ret);
    }

    /** However an AAC stream is cut up, the blocks that come out are whole frames, and with what is left
        over they are what went in; `total` is the samples in them.  `cuts` says which frames each has. */
    method Feed(chunks: seq<seq<Byte>>, f: nat -> Findings, ghost frames: seq<seq<Byte>>)
        returns (out: seq<seq<Byte>>, total: nat, ghost cuts: seq<nat>)
      requires Synced() && surplus == None && AllAac(frames, header) && Join(chunks) <= Join(frames)
      modifies this
      ensures Synced() && header == old(header)
      ensures Join(out) + WithSurplus([]) == Join(chunks)
      ensures |out| == |chunks| && WholeFrames(out, frames, cuts) && cuts[|out|] <= |frames|
      ensures total == Samples(frames[..cuts[|out|]])
      ensures Tail(WithSurplus([]), frames, cuts[|out|])
    {
      hide Samples, Join, AllAac, WholeFrames;
      out, total, cuts := [], 0, [0];
      NoneYet(frames, header, chunks);
      for i := 0 to |chunks|
        invariant Synced() && header == old(header) && AllAac(frames, header)
        invariant |out| == i && |cuts| == i + 1 && cuts[i] <= |frames| && WholeFrames(out, frames, cuts)
        invariant Join(out) == Join(frames[..cuts[i]]) && Join(out) + WithSurplus([]) == Join(chunks[..i])
        invariant total == Samples(frames[..cuts[i]]) && Tail(WithSurplus([]), frames, cuts[i])
      {
        ghost var c, left := cuts[i], WithSurplus([]);
        Ahead(frames, header, chunks, i, c, left);
        PutInFront(chunks[i]);
        var whole, count;
        ghost var k;
        whole, count, k := FeedOne(chunks[i], f, frames[c..]);
        FramesOn(frames, out, cuts, c, k);
        SamplesOn(frames, c, k);
        TailOn(WithSurplus([]), frames, c, k);
        Glue(Join(out), left, chunks[i], whole, WithSurplus([]));
        JoinNext(chunks, i);
        out, total, cuts := out + [whole], total + count, cuts + [c + k];
      }
      assert chunks[..|chunks|] == chunks;
    }
  }

  /** What is left over is too short to look at, or does not have all of frame `k`. */
  predicate Tail(left: seq<Byte>, frames: seq<seq<Byte>>, k: nat) {
    |left| < 10 || (k < |frames| && |left| < |frames[k]|)
  }

  /** Each block has the frames from one cut to the next. */
  predicate WholeFrames(out: seq<seq<Byte>>, frames: seq<seq<Byte>>, cuts: seq<nat>) {
    && |cuts| == |out| + 1 && cuts[0] == 0
    && forall i | 0 <= i < |out| :: IsSpan(out[i], frames, cuts[i], cuts[i + 1])
  }

  predicate IsSpan(whole: seq<Byte>, frames: seq<seq<Byte>>, a: nat, b: nat) {
    a <= b <= |frames| && whole == Join(frames[a..b])
  }

  lemma NoneYet(frames: seq<seq<Byte>>, header: Header, chunks: seq<seq<Byte>>)
    requires AllAac(frames, header)
    ensures WholeFrames([], frames, [0]) && Join([]) == Join(frames[..0]) == Join(chunks[..0]) == []
    ensures Samples(frames[..0]) == 0 && Tail([], frames, 0)
  {
  }

  /** The next chunk goes on with the frames. */
  lemma Ahead(frames: seq<seq<Byte>>, header: Header, chunks: seq<seq<Byte>>, i: nat, c: nat, left: seq<Byte>)
    requires AllAac(frames, header) && c <= |frames| && i < |chunks| && Join(chunks) <= Join(frames)
    requires Join(frames[..c]) + left == Join(chunks[..i])
    ensures AllAac(frames[c..], header) && left + chunks[i] <= Join(frames[c..])
  {
    AllFrom(frames, header, c);
    hide Join, AllAac;
    JoinSplit(frames, c);
    JoinNext(chunks, i);
    JoinSplit(chunks, i + 1);
    Cancel(Join(frames[..c]), left, chunks[i], Join(chunks[i + 1..]), Join(frames[c..]));
  }

  lemma AllFrom(frames: seq<seq<Byte>>, header: Header, c: nat)
    requires AllAac(frames, header) && c <= |frames|
    ensures AllAac(frames[c..], header)
  {
    hide AacFrame;
  }

  lemma Cancel(a: seq<Byte>, left: seq<Byte>, chunk: seq<Byte>, c: seq<Byte>, d: seq<Byte>)
    requires ((a + left) + chunk) + c <= a + d
    ensures left + chunk <= d
  {
    var s, b := ((a + left) + chunk) + c, left + chunk;
    forall i | 0 <= i < |b|
      ensures b[i] == d[i]
    {
      assert s[|a| + i] == b[i] && (a + d)[|a| + i] == d[i];
    }
  }

  lemma FramesOn(frames: seq<seq<Byte>>, out: seq<seq<Byte>>, cuts: seq<nat>, c: nat, k: nat)
    requires WholeFrames(out, frames, cuts) && c == cuts[|out|] && c + k <= |frames|
    requires Join(out) == Join(frames[..c])
    ensures
      var whole := Join(frames[c..][..k]);
      && WholeFrames(out + [whole], frames, cuts + [c + k])
      && Join(out + [whole]) == Join(out) + whole == Join(frames[..c + k])
  {
    hide Join, IsSpan;
    var whole := Join(frames[c..][..k]);
    JoinOn(frames, c, k);
    JoinSnoc(out, whole);
    MoreCuts(out, frames, cuts, whole, c + k);
  }

  lemma TailOn(left: seq<Byte>, frames: seq<seq<Byte>>, c: nat, k: nat)
    requires c <= |frames| && Tail(left, frames[c..], k)
    ensures Tail(left, frames, c + k)
  {
  }

  lemma JoinOn(frames: seq<seq<Byte>>, c: nat, k: nat)
    requires c + k <= |frames|
    ensures IsSpan(Join(frames[c..][..k]), frames, c, c + k)
    ensures Join(frames[..c]) + Join(frames[c..][..k]) == Join(frames[..c + k])
  {
    hide Join;
    assert frames[c..][..k] == frames[c..c + k];
    JoinSplit(frames[..c + k], c);
    assert frames[..c + k][..c] == frames[..c] && frames[..c + k][c..] == frames[c..c + k];
  }

  lemma MoreCuts(out: seq<seq<Byte>>, frames: seq<seq<Byte>>, cuts: seq<nat>, whole: seq<Byte>, next: nat)
    requires WholeFrames(out, frames, cuts) && IsSpan(whole, frames, cuts[|out|], next)
    ensures WholeFrames(out + [whole], frames, cuts + [next])
  {
    hide IsSpan;
    forall i | 0 <= i < |out + [whole]|
      ensures IsSpan((out + [whole])[i], frames, (cuts + [next])[i], (cuts + [next])[i + 1])
    {
      if i < |out| {
        assert IsSpan(out[i], frames, cuts[i], cuts[i + 1]);
      }
    }
    assert (cuts + [next])[|out| + 1] == next;
  }

  lemma {:induction false} SamplesOn(frames: seq<seq<Byte>>, c: nat, k: nat)
    requires c + k <= |frames|
    ensures Samples(frames[..c]) + Samples(frames[c..][..k]) == Samples(frames[..c + k])
    decreases k
  {
    if k > 0 {
      SamplesOn(frames, c, k - 1);
      assert frames[c..][..k][..k - 1] == frames[c..][..k - 1];
      assert frames[..c + k][..c + k - 1] == frames[..c + (k - 1)];
    }
  }

  lemma Glue(before: seq<Byte>, left: seq<Byte>, chunk: seq<Byte>, whole: seq<Byte>, rest: seq<Byte>)
    requires whole + rest == left + chunk
    ensures (before + whole) + rest == (before + left) + chunk
  {
    assert (before + whole) + rest == before + (whole + rest);
  }

  /** What stays of the rest of a block when `skip` bytes of it are to go. */
  function Kept(left: seq<Byte>, skip: nat): seq<Byte>
    requires skip <= |left|
  {
    if |left| - skip < 20000 then left[skip..] else left[..|left| - skip]
  }

  /** With 20000 bytes left after it, a byte of garbage stays and the last byte goes; with one less it is the
      garbage that goes. */
  lemma KeptExample()
    ensures
      var left := seq(20001, i => if i == 0 then 0 else 1);
      Kept(left, 1)[0] == 0 && Kept(left[..20000], 1) == left[1..20000]
  {
  }

  lemma KeptIs(s: seq<Byte>, start: nat, len: nat, skip: nat)
    requires start + skip <= len <= |s|
    ensures Kept(s[start..len], skip)
         == if len - start - skip < 20000 then s[start + skip..len] else s[start..len - skip]
  {
  }
}
