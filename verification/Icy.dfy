/** In-band ("ICY") metadata: after every `interval` bytes of audio comes a metadata block, whose first
    byte counts the 16-byte units after it.

    `Interleave` is the wire format; `Read` is a reader of it, one byte at a time, from any position. */
module Icy {
  import opened Bytes

  function BlockLength(first: Byte): nat {
    16 * (first as int) + 1
  }

  predicate WellFormed(block: seq<Byte>) {
    |block| > 0 && |block| == BlockLength(block[0])
  }

  /** A metadata block is a length byte and sixteen times so many bytes. */
  lemma WellFormedIs(block: seq<Byte>)
    ensures WellFormed(block) <==> block != [] && |block[1..]| == 16 * (block[0] as int)
  {
  }

  // ---------------------------------------------------------------------------------------------
  // The wire format
  // ---------------------------------------------------------------------------------------------

  /** Every metadata block is preceded by a whole interval of audio, and at most one more follows. */
  ghost predicate Fits(interval: nat, audio: seq<Byte>, metas: seq<seq<Byte>>) {
    if metas == [] then |audio| <= interval
    else |audio| >= interval && WellFormed(metas[0]) && Fits(interval, audio[interval..], metas[1..])
  }

  /** How much audio follows the last metadata block. */
  ghost function Since(interval: nat, audio: seq<Byte>, metas: seq<seq<Byte>>): (n: nat)
    requires Fits(interval, audio, metas)
    ensures n <= interval
  {
    if metas == [] then |audio| else Since(interval, audio[interval..], metas[1..])
  }

  ghost function Interleave(interval: nat, audio: seq<Byte>, metas: seq<seq<Byte>>): seq<Byte>
    requires Fits(interval, audio, metas)
  {
    if metas == [] then audio
    else audio[..interval] + metas[0] + Interleave(interval, audio[interval..], metas[1..])
  }

  lemma {:induction false} MoreAudio(interval: nat, audio: seq<Byte>, metas: seq<seq<Byte>>, s: seq<Byte>)
    requires Fits(interval, audio, metas) && Since(interval, audio, metas) + |s| <= interval
    ensures Fits(interval, audio + s, metas)
    ensures Since(interval, audio + s, metas) == Since(interval, audio, metas) + |s|
    ensures Interleave(interval, audio + s, metas) == Interleave(interval, audio, metas) + s
    decreases |metas|
  {
    if metas != [] {
      MoreAudio(interval, audio[interval..], metas[1..], s);
      assert (audio + s)[interval..] == audio[interval..] + s;
      assert (audio + s)[..interval] == audio[..interval];
    }
  }

  lemma {:induction false} MoreMeta(interval: nat, audio: seq<Byte>, metas: seq<seq<Byte>>, m: seq<Byte>)
    requires Fits(interval, audio, metas) && Since(interval, audio, metas) == interval && WellFormed(m)
    ensures Fits(interval, audio, metas + [m]) && Since(interval, audio, metas + [m]) == 0
    ensures Interleave(interval, audio, metas + [m]) == Interleave(interval, audio, metas) + m
    decreases |metas|
  {
    if metas == [] {
      assert metas + [m] == [m] && [m][1..] == [];
      assert audio[..interval] == audio && audio[interval..] == [];
    } else {
      MoreMeta(interval, audio[interval..], metas[1..], m);
      assert (metas + [m])[1..] == metas[1..] + [m];
    }
  }

  // ---------------------------------------------------------------------------------------------
  // Reading it
  // ---------------------------------------------------------------------------------------------

  /** Where a reader is: so many bytes past the last metadata block, or with so much of one read.  A
      negative count is audio that will be seen again. */
  datatype Pos = Audio(since: int) | Meta(block: seq<Byte>)
  datatype Reading = Reading(pos: Pos, audio: seq<Byte>, metas: seq<seq<Byte>>)

  const START := Reading(Audio(0), [], [])

  function Step(interval: nat, r: Reading, b: Byte): Reading {
    match r.pos
    case Audio(n) =>
      if n < interval then Reading(Audio(n + 1), r.audio + [b], r.metas)
      else if b == 0 then Reading(Audio(0), r.audio, r.metas + [[b]])
      else Reading(Meta([b]), r.audio, r.metas)
    case Meta(block) =>
      var more := block + [b];
      if |more| >= BlockLength(more[0]) then Reading(Audio(0), r.audio, r.metas + [more])
      else Reading(Meta(more), r.audio, r.metas)
  }

  function Read(interval: nat, r: Reading, wire: seq<Byte>): Reading {
    if wire == [] then r
    else Step(interval, Read(interval, r, wire[..|wire| - 1]), wire[|wire| - 1])
  }

  /** It does not matter where the wire is cut into reads. */
  lemma {:induction false} ReadAppend(interval: nat, r: Reading, a: seq<Byte>, b: seq<Byte>)
    ensures Read(interval, r, a + b) == Read(interval, Read(interval, r, a), b)
    decreases |b|
  {
    if b == [] {
      assert a + b == a;
    } else {
      var n := |b| - 1;
      ReadAppend(interval, r, a, b[..n]);
      assert (a + b)[..|a + b| - 1] == a + b[..n];
    }
  }

  lemma {:induction false} ReadAudio(interval: nat, r: Reading, s: seq<Byte>)
    requires r.pos.Audio? && r.pos.since + |s| <= interval
    ensures Read(interval, r, s) == Reading(Audio(r.pos.since + |s|), r.audio + s, r.metas)
    decreases |s|
  {
    if s == [] {
      assert r.audio + s == r.audio;
    } else {
      var n := |s| - 1;
      ReadAudio(interval, r, s[..n]);
      assert r.audio + s == r.audio + s[..n] + [s[n]];
    }
  }

  /** The position of a reader with `k` bytes of a metadata block read. */
  ghost predicate Inside(interval: nat, r: Reading, block: seq<Byte>, k: nat) {
    k <= |block| && r.pos == if k == 0 then Audio(interval) else Meta(block[..k])
  }

  lemma MetaByte(interval: nat, r: Reading, block: seq<Byte>, k: nat)
    requires WellFormed(block) && k < |block| && Inside(interval, r, block, k)
    ensures Step(interval, r, block[k]) ==
            if k + 1 < |block| then r.(pos := Meta(block[..k + 1])) else Reading(Audio(0), r.audio, r.metas + [block])
  {
    assert block[..k] + [block[k]] == block[..k + 1];
    assert block[..|block|] == block;
    assert [block[0]] == block[..1];
  }

  /** Reading on within one metadata block. */
  lemma {:induction false} ReadMeta(interval: nat, r: Reading, block: seq<Byte>, i: nat, j: nat)
    requires WellFormed(block) && i <= j <= |block| && i < |block| && Inside(interval, r, block, i)
    ensures j < |block| ==> Inside(interval, Read(interval, r, block[i..j]), block, j)
    ensures j < |block| ==> Read(interval, r, block[i..j]) == r.(pos := Read(interval, r, block[i..j]).pos)
    ensures j == |block| ==> Read(interval, r, block[i..j]) == Reading(Audio(0), r.audio, r.metas + [block])
    decreases j - i
  {
    hide Step;
    if i < j {
      ReadMeta(interval, r, block, i, j - 1);
      var s := block[i..j];
      assert s[..|s| - 1] == block[i..j - 1] && s[|s| - 1] == block[j - 1];
      MetaByte(interval, Read(interval, r, block[i..j - 1]), block, j - 1);
    }
  }

  /** A reader of the wire format gets back exactly what was interleaved. */
  lemma {:induction false} ReadInterleave(interval: nat, r: Reading, audio: seq<Byte>, metas: seq<seq<Byte>>)
    requires Fits(interval, audio, metas) && r.pos == Audio(0)
    ensures Read(interval, r, Interleave(interval, audio, metas))
         == Reading(Audio(Since(interval, audio, metas)), r.audio + audio, r.metas + metas)
    decreases |metas|
  {
    hide Read, Step;
    if metas == [] {
      ReadAudio(interval, r, audio);
      assert r.metas + metas == r.metas;
    } else {
      var first, rest, ms := audio[..interval], audio[interval..], metas[1..];
      var next := Reading(Audio(0), r.audio + first, r.metas + [metas[0]]);
      FirstUnit(interval, r, first, metas[0]);
      ReadInterleave(interval, next, rest, ms);
      ReadAppend(interval, r, first + metas[0], Interleave(interval, rest, ms));
      NextUnit(interval, audio, metas);
      hide Interleave, Fits, Since, WellFormed;
      assert next.audio + rest == r.audio + audio;
      assert next.metas + ms == r.metas + metas;
    }
  }

  lemma NextUnit(interval: nat, audio: seq<Byte>, metas: seq<seq<Byte>>)
    requires Fits(interval, audio, metas) && metas != []
    ensures Fits(interval, audio[interval..], metas[1..])
    ensures Since(interval, audio, metas) == Since(interval, audio[interval..], metas[1..])
    ensures Interleave(interval, audio, metas)
         == audio[..interval] + metas[0] + Interleave(interval, audio[interval..], metas[1..])
  {
  }

  /** A whole interval of audio and the block after it. */
  lemma FirstUnit(interval: nat, r: Reading, audio: seq<Byte>, block: seq<Byte>)
    requires r.pos == Audio(0) && |audio| == interval && WellFormed(block)
    ensures Read(interval, r, audio + block) == Reading(Audio(0), r.audio + audio, r.metas + [block])
  {
    ReadAppend(interval, r, audio, block);
    ReadAudio(interval, r, audio);
    ReadMeta(interval, Read(interval, r, audio), block, 0, |block|);
    assert block[0..|block|] == block;
  }

  /** Reading on within one metadata block whose end may not have been seen yet. */
  lemma ReadMetaMore(interval: nat, r: Reading, begun: seq<Byte>, s: seq<Byte>)
    requires s != [] && r.pos == if begun == [] then Audio(interval) else Meta(begun)
    requires |begun| < |begun + s| <= BlockLength((begun + s)[0])
    ensures Read(interval, r, s) ==
            if |begun + s| < BlockLength((begun + s)[0]) then r.(pos := Meta(begun + s))
            else Reading(Audio(0), r.audio, r.metas + [begun + s])
  {
    var seen := begun + s;
    var block := seen + seq(BlockLength(seen[0]) - |seen|, _ => 0);
    assert block[..|begun|] == begun && block[|begun|..|seen|] == s && block[..|seen|] == seen;
    assert WellFormed(block) && Inside(interval, r, block, |begun|);
    ReadMeta(interval, r, block, |begun|, |seen|);
    if |seen| == |block| {
      assert block == seen;
    }
  }

  /** More wire never takes back audio. */
  lemma {:induction false} ReadGrows(interval: nat, r: Reading, wire: seq<Byte>)
    ensures r.audio <= Read(interval, r, wire).audio && r.metas <= Read(interval, r, wire).metas
    decreases |wire|
  {
    if wire != [] {
      ReadGrows(interval, r, wire[..|wire| - 1]);
    }
  }
}
