/** The EBML splitter of src/format_ebml.c: a header, then blocks, some of which start a cluster.

    The source is read a slice at a time.  `Cuts` says which blocks the slices make; the class is the code,
    whose buffers hold what has not been handed on yet. */
module Ebml {
  import opened Bytes
  import opened Wrappers

  const SLICE := 4096
  const HEADER_MAX := 131072

  /** The cluster id, and where a slice is seen to hold one: not in its last four bytes. */
  const ID: seq<Byte> := [0x1F, 0x43, 0xB6, 0x75]

  predicate IdAt(s: seq<Byte>, b: nat) {
    b + 4 < |s| && s[b..b + 4] == ID
  }

  /** The id of a cluster, byte by byte. */
  lemma IdSpelled(s: seq<Byte>, b: nat)
    ensures IdAt(s, b) <==>
              b + 4 < |s| && s[b] == 0x1F && s[b + 1] == 0x43 && s[b + 2] == 0xB6 && s[b + 3] == 0x75
  {
  }

  /** The first place of an id in a slice. */
  function FirstId(s: seq<Byte>, from: nat): (b: Option<nat>)
    requires from <= |s|
    ensures b.Some? ==> from <= b.value && IdAt(s, b.value) && forall k | from <= k < b.value :: !IdAt(s, k)
    ensures b.None? ==> forall k: nat | from <= k :: !IdAt(s, k)
    decreases |s| - from
  {
    if from + 4 >= |s| then None else if IdAt(s, from) then Some(from) else FirstId(s, from + 1)
  }

  /** The last place before `upto` of an id in a slice. */
  function LastId(s: seq<Byte>, upto: nat): (b: Option<nat>)
    ensures b.Some? ==> b.value < upto && IdAt(s, b.value) && forall k | b.value < k < upto :: !IdAt(s, k)
    ensures b.None? ==> forall k | 0 <= k < upto :: !IdAt(s, k)
  {
    if upto == 0 then None else if IdAt(s, upto - 1) then Some(upto - 1) else LastId(s, upto - 1)
  }

  datatype Block = Block(data: seq<Byte>, sync: bool)

  /** All but the last four bytes, and those. */
  function Most(s: seq<Byte>): seq<Byte> {
    s[..Max(0, |s| - 4)]
  }

  function Rest(s: seq<Byte>): (r: seq<Byte>)
    ensures Most(s) + r == s
    ensures |s| >= 4 ==> |r| == 4
  {
    s[Max(0, |s| - 4)..]
  }

  /** The blocks that a slice adds, when `kept` is what was kept back from before it. */
  function CutOf(kept: seq<Byte>, slice: seq<Byte>): seq<Block> {
    match LastId(slice, |slice|)
    case None => [Block(Most(kept + slice), false)]
    case Some(b) => [Block(kept + slice[..b], false), Block(Most(slice[b..]), true)]
  }

  /** The blocks of a stream of which `first` is what follows the header in its slice. */
  function Cuts(first: seq<Byte>, slices: seq<seq<Byte>>): seq<Block> {
    if slices == [] then [Block(Most(first), true)]
    else
      var n := |slices| - 1;
      Cuts(first, slices[..n]) + CutOf(Rest(first + Join(slices[..n])), slices[n])
  }

  function Datas(blocks: seq<Block>): (r: seq<seq<Byte>>)
    ensures |r| == |blocks| && forall i | 0 <= i < |r| :: r[i] == blocks[i].data
  {
    seq(|blocks|, i requires 0 <= i < |blocks| => blocks[i].data)
  }

  function Data(blocks: seq<Block>): seq<Byte> {
    Join(Datas(blocks))
  }

  lemma DataAppend(a: seq<Block>, b: seq<Block>)
    ensures Data(a + b) == Data(a) + Data(b)
  {
    hide Join;
    assert Datas(a + b) == Datas(a) + Datas(b);
    JoinAppend(Datas(a), Datas(b));
  }

  lemma DataOne(x: Block)
    ensures Data([x]) == x.data
  {
    assert Datas([x]) == [x.data];
    JoinOne(x.data);
  }

  lemma DataTwo(x: Block, y: Block)
    ensures Data([x, y]) == x.data + y.data
  {
    hide Data;
    DataOne(x);
    DataOne(y);
    DataAppend([x], [y]);
    assert [x] + [y] == [x, y];
  }

  lemma CutOfKeeps(kept: seq<Byte>, slice: seq<Byte>)
    requires |kept| == 4 && slice != []
    ensures Data(CutOf(kept, slice)) + Rest(kept + slice) == kept + slice
    ensures forall i | 0 <= i < |CutOf(kept, slice)| :: CutOf(kept, slice)[i].data != []
  {
    hide Data;
    match LastId(slice, |slice|)
    case None =>
      DataOne(Block(Most(kept + slice), false));
    case Some(b) =>
      DataTwo(Block(kept + slice[..b], false), Block(Most(slice[b..]), true));
      assert Rest(slice[b..]) == Rest(kept + slice);
      assert kept + slice == (kept + slice[..b]) + (Most(slice[b..]) + Rest(slice[b..]));
  }

  /** Blocks and what is kept back make up the stream, and no block is empty. */
  lemma {:induction false} CutsConserve(first: seq<Byte>, slices: seq<seq<Byte>>)
    requires IdAt(first, 0) && forall i | 0 <= i < |slices| :: slices[i] != []
    ensures Data(Cuts(first, slices)) + Rest(first + Join(slices)) == first + Join(slices)
    ensures forall i | 0 <= i < |Cuts(first, slices)| :: Cuts(first, slices)[i].data != []
    decreases |slices|
  {
    hide Data, CutOf;
    if slices == [] {
      DataOne(Block(Most(first), true));
      assert first + Join(slices) == first;
    } else {
      var n := |slices| - 1;
      var before, kept := Cuts(first, slices[..n]), Rest(first + Join(slices[..n]));
      CutsConserve(first, slices[..n]);
      CutOfKeeps(kept, slices[n]);
      DataAppend(before, CutOf(kept, slices[n]));
      Glue(first, Join(slices[..n]), slices[n], Data(before), Data(CutOf(kept, slices[n])));
      assert Join(slices) == Join(slices[..n]) + slices[n];
    }
  }

  lemma Glue(first: seq<Byte>, joined: seq<Byte>, slice: seq<Byte>, before: seq<Byte>, more: seq<Byte>)
    requires |first| >= 4
    requires before + Rest(first + joined) == first + joined
    requires more + Rest(Rest(first + joined) + slice) == Rest(first + joined) + slice
    ensures (before + more) + Rest(first + (joined + slice)) == first + (joined + slice)
  {
    hide Rest;
    var kept := Rest(first + joined);
    var tail := Rest(kept + slice);
    RestOf(before, kept + slice);
    Assoc(first, joined, slice);
    Assoc(before, kept, slice);
    Assoc(before, more, tail);
  }

  lemma RestOf(s: seq<Byte>, t: seq<Byte>)
    requires |t| >= 4
    ensures Rest(s + t) == Rest(t)
  {
  }

  lemma Assoc(a: seq<Byte>, b: seq<Byte>, c: seq<Byte>)
    ensures (a + b) + c == a + (b + c)
  {
  }

  /** Where the slice ends that holds a byte of the stream. */
  function SliceEnd(first: seq<Byte>, slices: seq<seq<Byte>>, at: nat): nat {
    if slices == [] then |first|
    else
      var n := |slices| - 1;
      if at < |first + Join(slices[..n])| then SliceEnd(first, slices[..n], at) else |first + Join(slices)|
  }

  /** After `before` the stream has an id, and `data` is what comes then, to four bytes before `end`; so it has
      the whole id if and only if eight bytes are left up to there. */
  predicate IsCluster(stream: seq<Byte>, before: seq<Byte>, data: seq<Byte>, end: nat) {
    var at := |before|;
    && at + 4 < end <= |stream| && before == stream[..at] && stream[at..at + 4] == ID
    && data == stream[at..end - 4]
    && (ID <= data <==> at + 8 <= end)
  }

  /** A block marked as sync is where a cluster starts, and is the rest of the slice but for four bytes. */
  lemma {:induction false} SyncIsCluster(first: seq<Byte>, slices: seq<seq<Byte>>, i: nat)
    requires IdAt(first, 0) && forall k | 0 <= k < |slices| :: slices[k] != []
    requires i < |Cuts(first, slices)| && Cuts(first, slices)[i].sync
    ensures
      var before := Data(Cuts(first, slices)[..i]);
      IsCluster(first + Join(slices), before, Cuts(first, slices)[i].data, SliceEnd(first, slices, |before|))
    decreases |slices|
  {
    hide Data, IsCluster, CutOf, Rest;
    var blocks, stream := Cuts(first, slices), first + Join(slices);
    if slices == [] {
      assert blocks[..0] == [];
      DataNone();
      assert first == stream;
      FirstIsCluster(first);
    } else {
      var n := |slices| - 1;
      var before, last := Cuts(first, slices[..n]), slices[n];
      var s := first + Join(slices[..n]);
      assert stream == s + last;
      if i < |before| {
        SyncIsCluster(first, slices[..n], i);
        assert blocks[..i] == before[..i];
        Further(s, last, Data(before[..i]), before[i].data, SliceEnd(first, slices[..n], |Data(before[..i])|));
      } else {
        CutsConserve(first, slices[..n]);
        LastCut(before, s, last, i - |before|);
        assert blocks[..i] == (before + CutOf(Rest(s), last))[..i];
      }
    }
  }

  lemma DataNone()
    ensures Data([]) == []
  {
  }

  lemma FirstIsCluster(first: seq<Byte>)
    requires IdAt(first, 0)
    ensures IsCluster(first, [], Most(first), |first|)
  {
    assert first[0..0 + 4] == ID;
    HasId(first, 0, |first|);
  }

  lemma Further(s: seq<Byte>, more: seq<Byte>, before: seq<Byte>, data: seq<Byte>, end: nat)
    requires IsCluster(s, before, data, end)
    ensures IsCluster(s + more, before, data, end) && |before| < |s|
  {
    var at := |before|;
    assert (s + more)[..at] == s[..at] && (s + more)[at..at + 4] == s[at..at + 4];
    assert (s + more)[at..end - 4] == s[at..end - 4];
  }

  lemma HasId(s: seq<Byte>, at: nat, end: nat)
    requires at + 4 < end <= |s| && s[at..at + 4] == ID
    ensures ID <= s[at..end - 4] <==> at + 8 <= end
  {
    if at + 8 <= end {
      assert s[at..end - 4][..4] == s[at..at + 4];
    }
  }

  lemma InSlice(s: seq<Byte>, slice: seq<Byte>, b: nat)
    requires b + 4 < |slice|
    ensures (s + slice)[..|s| + b] == s + slice[..b]
    ensures (s + slice)[|s| + b..|s| + b + 4] == slice[b..b + 4]
    ensures Most(slice[b..]) == (s + slice)[|s| + b..|s + slice| - 4]
  {
  }

  /** The sync block that the last slice makes. */
  lemma LastCut(before: seq<Block>, s: seq<Byte>, slice: seq<Byte>, i: nat)
    requires |s| >= 4 && Data(before) + Rest(s) == s
    requires i < |CutOf(Rest(s), slice)| && CutOf(Rest(s), slice)[i].sync
    ensures LastId(slice, |slice|).Some?
    ensures
      var cut := CutOf(Rest(s), slice);
      && |Data((before + cut)[..|before| + i])| == |s| + LastId(slice, |slice|).value
      && IsCluster(s + slice, Data((before + cut)[..|before| + i]), cut[i].data, |s + slice|)
  {
    hide Data, Rest, Most;
    var b := LastId(slice, |slice|).value;
    var lead := Block(Rest(s) + slice[..b], false);
    assert (before + CutOf(Rest(s), slice))[..|before| + i] == before + [lead];
    DataAppend(before, [lead]);
    DataOne(lead);
    Assoc(Data(before), Rest(s), slice[..b]);
    InSlice(s, slice, b);
    HasId(s + slice, |s| + b, |s + slice|);
  }

  /** A sync block begins at this place of the stream. */
  ghost predicate SyncBlockAt(blocks: seq<Block>, at: nat) {
    exists i | 0 <= i < |blocks| :: blocks[i].sync && |Data(blocks[..i])| == at
  }

  /** The place is that of the last id seen in some slice. */
  ghost predicate LastIdAt(first: seq<Byte>, slices: seq<seq<Byte>>, at: nat) {
    exists k | 0 <= k < |slices| :: LastIdIn(slices[k], at - |first + Join(slices[..k])|)
  }

  ghost predicate LastIdIn(slice: seq<Byte>, b: int) {
    b >= 0 && IdAt(slice, b) && forall c: nat | b < c :: !IdAt(slice, c)
  }

  /** Sync blocks begin at the end of the header and at the last id of every slice after that, and nowhere else.
      So an id goes unmarked exactly when another is seen after it in its slice, or it lies across slices or in
      the last four bytes of one, or when it comes after the first in the slice where the header ends. */
  lemma {:induction false} SyncStarts(first: seq<Byte>, slices: seq<seq<Byte>>, at: nat)
    requires IdAt(first, 0) && forall k | 0 <= k < |slices| :: slices[k] != []
    ensures SyncBlockAt(Cuts(first, slices), at) <==> at == 0 || LastIdAt(first, slices, at)
    decreases |slices|
  {
    hide Data, CutOf, Rest, LastIdIn, SyncBlockAt, LastIdAt;
    if slices == [] {
      FirstStarts(Block(Most(first), true), first, at);
    } else {
      var n := |slices| - 1;
      var before, cut := Cuts(first, slices[..n]), CutOf(Rest(first + Join(slices[..n])), slices[n]);
      SyncStarts(first, slices[..n], at);
      CutsConserve(first, slices[..n]);
      SyncInEither(before, cut, at);
      SyncInCut(before, first + Join(slices[..n]), slices[n], at);
      LastIdInEither(first, slices, at);
    }
  }

  lemma FirstStarts(block: Block, first: seq<Byte>, at: nat)
    requires block.sync
    ensures SyncBlockAt([block], at) <==> at == 0
    ensures !LastIdAt(first, [], at)
  {
    hide Data;
    assert [block][..0] == [];
    DataNone();
  }

  lemma LastIdInEither(first: seq<Byte>, slices: seq<seq<Byte>>, at: nat)
    requires slices != []
    ensures
      var n := |slices| - 1;
      LastIdAt(first, slices, at) <==>
        LastIdAt(first, slices[..n], at) || LastIdIn(slices[n], at - |first + Join(slices[..n])|)
  {
    hide LastIdIn, Join;
    var n := |slices| - 1;
    assert forall k | 0 <= k < n :: slices[..n][k] == slices[k] && slices[..n][..k] == slices[..k];
  }

  lemma SyncInEither(before: seq<Block>, cut: seq<Block>, at: nat)
    ensures SyncBlockAt(before + cut, at) <==>
              SyncBlockAt(before, at) || exists i | 0 <= i < |cut| :: cut[i].sync && |Data((before + cut)[..|before| + i])| == at
  {
    hide Data;
    var all := before + cut;
    assert forall i | 0 <= i < |before| :: all[..i] == before[..i];
    if SyncBlockAt(all, at) {
      var i :| 0 <= i < |all| && all[i].sync && |Data(all[..i])| == at;
      if i >= |before| {
        assert cut[i - |before|].sync && |Data((before + cut)[..|before| + (i - |before|)])| == at;
      }
    }
    if i :| 0 <= i < |cut| && cut[i].sync && |Data((before + cut)[..|before| + i])| == at {
      assert all[|before| + i].sync;
    }
  }

  lemma SyncInCut(before: seq<Block>, s: seq<Byte>, slice: seq<Byte>, at: nat)
    requires |s| >= 4 && Data(before) + Rest(s) == s
    ensures
      var cut := CutOf(Rest(s), slice);
      (exists i | 0 <= i < |cut| :: cut[i].sync && |Data((before + cut)[..|before| + i])| == at)
        <==> LastIdIn(slice, at - |s|)
  {
    hide Data;
    var cut := CutOf(Rest(s), slice);
    match LastId(slice, |slice|)
    case None =>
    case Some(b) =>
      LastCut(before, s, slice, 1);
      assert cut[1].sync && |Data((before + cut)[..|before| + 1])| == |s| + b;
      assert LastIdIn(slice, b);
  }

  /** A slice that ends in the five bytes of an id and one more makes a sync block of one byte. */
  lemma ShortSync(kept: seq<Byte>)
    ensures CutOf(kept, ID + [9]) == [Block(kept, false), Block([0x1F], true)]
    ensures !(ID <= [0x1F])
  {
    var slice := ID + [9];
    assert slice[0..0 + 4] == ID && IdAt(slice, 0);
    assert LastId(slice, 5) == Some(0);
    assert kept + slice[..0] == kept && Most(slice[0..]) == [0x1F];
  }

  /** Of two ids in a slice only the second is marked. */
  lemma FirstOfTwoUnmarked(first: seq<Byte>)
    requires IdAt(first, 0)
    ensures !SyncBlockAt(Cuts(first, [ID + ID + [9]]), |first|)
    ensures SyncBlockAt(Cuts(first, [ID + ID + [9]]), |first| + 4)
  {
    hide Cuts, Data;
    var slice := ID + ID + [9];
    assert slice[4..8] == ID && slice[0..4] == ID;
    SyncStarts(first, [slice], |first|);
    SyncStarts(first, [slice], |first| + 4);
    assert [slice][0] == slice && Join([slice][..0]) == [];
    assert IdAt(slice, 4) && LastIdIn(slice, 4) && !LastIdIn(slice, 0);
  }

  /** What one read returns, as it asks for a slice. */
  type Piece = s: seq<Byte> | |s| <= 4096

  /** In none of these pieces the header ends.  An id at the very start of the stream does not end it. */
  ghost predicate AllHeader(pieces: seq<seq<Byte>>) {
    forall i | 0 <= i < |pieces| :: FirstId(pieces[i], 0) == if i == 0 && IdAt(pieces[i], 0) then Some(0) else None
  }

  /** The header has this size, and ends in piece `n`, which goes on with `first`. */
  ghost predicate EndsIn(pieces: seq<seq<Byte>>, n: nat, size: int, first: seq<Byte>) {
    && n < |pieces| && AllHeader(pieces[..n]) && size > 0
    && FirstId(pieces[n], 0).Some?
    && var b := FirstId(pieces[n], 0).value;
       size == |Join(pieces[..n])| + b && first == pieces[n][b..]
  }

  lemma StillHeader(pieces: seq<seq<Byte>>, piece: seq<Byte>)
    requires AllHeader(pieces)
    requires FirstId(piece, 0) == if pieces == [] && IdAt(piece, 0) then Some(0) else None
    ensures AllHeader(pieces + [piece])
  {
  }

  lemma EndsNow(pieces: seq<seq<Byte>>, piece: seq<Byte>, b: nat)
    requires AllHeader(pieces) && FirstId(piece, 0) == Some(b) && |Join(pieces)| + b > 0
    ensures EndsIn(pieces + [piece], |pieces|, |Join(pieces)| + b, piece[b..])
  {
    assert (pieces + [piece])[..|pieces|] == pieces;
  }

  lemma EndedBefore(pieces: seq<seq<Byte>>, piece: seq<Byte>, n: nat, size: int, first: seq<Byte>)
    requires EndsIn(pieces, n, size, first)
    ensures EndsIn(pieces + [piece], n, size, first)
  {
    assert (pieces + [piece])[..n] == pieces[..n];
  }

  /** The blocks that a buffer will be handed on as, all but its last four bytes. */
  function PendingOf(held: seq<Byte>, start: int): seq<Block>
    requires start <= |held|
  {
    if start > 0 then [Block(held[..start], false), Block(Most(held[start..]), true)]
    else if start == -1 then [Block(Most(held), true)]
    else if |held| > 4 then [Block(Most(held), false)]
    else []
  }

  /** The first of them is what is read next. */
  lemma NextPending(held: seq<Byte>, start: int)
    requires start == -2 || (start == -1 && |held| > 4) || 0 < start < |held| - 4
    requires |held| >= 4 && (start > 0 || |held| > 4)
    ensures
      var n := if start > 0 then start else |held| - 4;
      var after := if start > 0 then -1 else -2;
      && PendingOf(held, start) == [Block(held[..n], start == -1)] + PendingOf(held[n..], after)
      && Rest(held[n..]) == Rest(held) && |held[n..]| >= 4 && (after == -1 ==> |held[n..]| > 4)
  {
  }

  /** `ebml_t`, with the header block of the plugin that uses it. */
  class Splitter {
    const header: array<Byte>
    const buffer: array<Byte>
    const input: array<Byte>
    var headerRead: bool
    var headerSize: int
    var headerPosition: nat
    var headerReadPosition: nat
    var position: int
    var clusterStart: int
    var headerBlock: Option<seq<Byte>>
    var running: bool

    ghost var pieces: seq<seq<Byte>>  // what the reads have given
    ghost var received: seq<Byte>
    ghost var first: seq<Byte>
    ghost var slices: seq<seq<Byte>>
    ghost var blocks: seq<Block>

    /** What is in the working buffer. */
    ghost function Held(): seq<Byte>
      reads this, buffer
      requires 0 <= position <= buffer.Length
    {
      buffer[..position]
    }

    /** The blocks that the working buffer will be handed on as before any more is read. */
    ghost function Pending(): seq<Block>
      reads this, buffer
      requires 0 <= position <= buffer.Length && clusterStart <= position
    {
      PendingOf(Held(), clusterStart)
    }

    ghost predicate Shapes()
      reads this
    {
      && header.Length == HEADER_MAX && buffer.Length == 4 * SLICE && input.Length == SLICE
      && header != buffer && header != input && buffer != input
    }

    ghost predicate InHeader()
      reads this, header
    {
      && !headerRead && headerReadPosition == 0 && headerBlock == None && blocks == []
      && headerPosition <= header.Length && received == header[..headerPosition]
    }

    ghost predicate InBody()
      reads this, header, buffer
    {
      && 0 < headerSize <= header.Length && received == header[..headerSize] + first + Join(slices)
      && IdAt(first, 0) && (forall i | 0 <= i < |slices| :: slices[i] != [])
      && 4 <= position <= 4 + SLICE <= buffer.Length
      && (clusterStart == -2 || (clusterStart == -1 && position > 4) || 0 < clusterStart < position - 4)
      && blocks + Pending() == Cuts(first, slices)
      && Rest(Held()) == Rest(first + Join(slices))
      && (!headerRead ==> headerReadPosition == 0 && headerBlock == None && slices == [] && blocks == [])
      && (headerRead ==> headerBlock == Some(header[..headerSize]))
    }

    /** Where it all comes from. */
    ghost predicate Origin()
      reads this`pieces, this`received, this`headerSize, this`first, this`slices
    {
      && received == Join(pieces) && (forall i | 0 <= i < |pieces| :: pieces[i] != [])
      && if headerSize == 0 then AllHeader(pieces)
         else
           && |slices| < |pieces| && slices == pieces[|pieces| - |slices|..]
           && EndsIn(pieces, |pieces| - 1 - |slices|, headerSize, first)
    }

    ghost predicate Valid()
      reads this, header, buffer
    {
      Shapes() && Origin() && if headerSize == 0 then InHeader() else InBody()
    }

    constructor ()
      ensures Valid() && pieces == [] && blocks == [] && running
      ensures fresh(header) && fresh(buffer) && fresh(input)
    {
      header := new Byte[HEADER_MAX](_ => 0);
      buffer := new Byte[4 * SLICE](_ => 0);
      input := new Byte[SLICE](_ => 0);
      headerRead, headerSize, headerPosition, headerReadPosition, headerBlock := false, 0, 0, 0, None;
      position, clusterStart, running := 0, -2, true;
      pieces, received, first, slices, blocks := [], [], [], [], [];
    }

    /** The working buffer never holds more than four bytes and a slice, and nothing is lost: header,
        blocks handed on and what is held make up what was received. */
    lemma Conserved()
      requires Valid() && headerSize != 0
      ensures position <= 4100
      ensures Join(pieces) == header[..headerSize] + Data(blocks) + Held()
    {
      hide Cuts, Data, Join, Rest, Pending;
      CutsConserve(first, slices);
      DataAppend(blocks, Pending());
      PendingHeld();
      Reassemble(header[..headerSize], first, Join(slices), Data(blocks), Data(Pending()), Rest(Held()));
    }

    lemma Bounded()
      requires Valid()
      ensures |Data(blocks)| <= |Join(pieces)|
      ensures Shapes()
    {
      hide Cuts, Data, Join;
      if headerSize != 0 {
        Conserved();
      } else {
        DataNone();
      }
    }

    /** When there is nothing more to hand on. */
    lemma Finished()
      requires Valid() && Idle()
      ensures headerSize == 0 ==> blocks == [] && AllHeader(pieces)
      ensures headerSize != 0 ==>
                && 0 < headerSize <= header.Length && 4 == position <= buffer.Length
                && headerBlock == Some(header[..headerSize])
                && Join(pieces) == header[..headerSize] + Data(blocks) + Held()
                && |slices| < |pieces| && slices == pieces[|pieces| - |slices|..]
                && EndsIn(pieces, |pieces| - 1 - |slices|, headerSize, first)
                && blocks == Cuts(first, slices)
    {
      hide Cuts, Data, Join, EndsIn, AllHeader;
      if headerSize != 0 {
        Conserved();
      }
    }

    lemma Reassemble(header: seq<Byte>, first: seq<Byte>, joined: seq<Byte>,
                     d: seq<Byte>, p: seq<Byte>, r: seq<Byte>)
      requires (d + p) + r == first + joined
      ensures header + first + joined == header + d + (p + r)
    {
      assert header + first + joined == header + (first + joined);
    }

    lemma PendingHeld()
      requires Valid() && headerSize != 0
      ensures Data(Pending()) + Rest(Held()) == Held()
    {
      hide Data, Cuts;
      if clusterStart > 0 {
        DataTwo(Block(Held()[..clusterStart], false), Block(Most(Held()[clusterStart..]), true));
        assert Held() == Held()[..clusterStart] + (Most(Held()[clusterStart..]) + Rest(Held()[clusterStart..]));
      } else if position > 4 {
        DataOne(Block(Most(Held()), clusterStart == -1));
      } else {
        DataNone();
      }
    }

    /** `ebml_read_space` */
    function ReadSpace(): int
      reads this
    {
      if headerRead then
        if clusterStart > 0 then clusterStart else position - 4
      else headerSize
    }

    /** `ebml_wrote` before the end of the header has been seen: -1 when there is too much of it. */
    method WroteHeader(len: nat) returns (ret: int)
      requires Valid() && headerSize == 0 && 0 < len <= SLICE
      modifies this, header, buffer
      ensures Valid() && ret == (if old(headerPosition) + len > 131072 then -1 else len)
      ensures ret == -1 ==> pieces == old(pieces) && headerSize == 0
      ensures ret != -1 ==>
                && pieces == old(pieces) + [input[..len]]
                && headerSize == match FirstId(input[..len], 0) case Some(b) => |Join(old(pieces))| + b case None => 0
      ensures running == old(running) && headerBlock == None && blocks == []
    {
      hide FirstId, Cuts, InBody, AllHeader, EndsIn, Join;
      if headerPosition + len > HEADER_MAX {
        return -1;
      }
      ghost var before := pieces;
      AddToHeader(len);
      LookForCluster(len, before);
      ret := len;
    }

    method LookForCluster(len: nat, ghost before: seq<seq<Byte>>)
      requires Shapes() && InHeader() && headerSize == 0 && 0 < len <= SLICE && len <= headerPosition
      requires AllHeader(before) && (forall i | 0 <= i < |before| :: before[i] != [])
      requires pieces == before + [input[..len]] && received == Join(pieces) && |Join(before)| == headerPosition - len
      requires received[headerPosition - len..] == input[..len]
      modifies this`headerSize, this`position, this`clusterStart, this`first, this`slices, buffer
      ensures Valid()
      ensures headerSize == match FirstId(input[..len], 0) case Some(b) => |Join(before)| + b case None => 0
    {
      hide FirstId, Cuts, InBody, IdAt, AllHeader, EndsIn, Join;
      ghost var slice := input[..len];
      var b := FindId(len);
      assert slice == input[..len];
      if b < len {
        FirstIs(slice, b);
        FoundCluster(b, len);
        SeenFirst(before, slice, b);
      } else {
        NoneIs(slice);
        StillHeader(before, slice);
        position := position + len;
      }
    }

    method AddToHeader(len: nat)
      requires Valid() && headerSize == 0 && 0 < len <= SLICE && headerPosition + len <= HEADER_MAX
      modifies this`headerPosition, this`received, this`pieces, header
      ensures Shapes() && InHeader() && headerPosition == old(headerPosition) + len
      ensures pieces == old(pieces) + [input[..len]] && received == Join(pieces) && |Join(old(pieces))| == old(headerPosition)
      ensures forall i | 0 <= i < |pieces| :: pieces[i] != []
      ensures received[headerPosition - len..] == input[..len]
    {
      hide Cuts, InBody, FirstId, IdAt, EndsIn, Join;
      ghost var slice := input[..len];
      Store(header, headerPosition, input[..len]);
      headerPosition := headerPosition + len;
      JoinSnoc(pieces, slice);
      received, pieces := received + slice, pieces + [slice];
      assert received == header[..headerPosition];
    }

    lemma SeenFirst(before: seq<seq<Byte>>, slice: seq<Byte>, b: nat)
      requires AllHeader(before) && (forall i | 0 <= i < |before| :: before[i] != []) && slice != []
      requires pieces == before + [slice] && received == Join(pieces) && FirstId(slice, 0) == Some(b)
      requires headerSize == |Join(before)| + b
      requires headerSize > 0 ==> first == slice[b..] && slices == []
      ensures Origin()
    {
      hide FirstId, IdAt, AllHeader, EndsIn;
      if headerSize == 0 {
        AtStart(slice);
        StillHeader(before, slice);
      } else {
        EndsNow(before, slice, b);
      }
    }

    lemma AtStart(slice: seq<Byte>)
      requires FirstId(slice, 0) == Some(0)
      ensures IdAt(slice, 0)
    {
    }

    /** The loop of `ebml_wrote` up to the first id, or to the end. */
    method FindId(len: nat) returns (b: nat)
      requires len <= input.Length
      ensures b < len ==> IdAt(input[..len], b)
      ensures b == len || b < len
      ensures forall k: nat | k < b :: !IdAt(input[..len], k)
    {
      b := 0;
      while b < len - 4
        invariant forall k: nat | k < b :: !IdAt(input[..len], k)
      {
        assert input[b..b + 4] == input[..len][b..b + 4];
        if input[b..b + 4] == ID {
          return;
        }
        b := b + 1;
      }
      b := len;
    }

    method FoundCluster(b: nat, len: nat)
      requires Shapes() && InHeader() && headerSize == 0 && b < len <= SLICE && IdAt(input[..len], b)
      requires len <= headerPosition <= HEADER_MAX && received[headerPosition - len..] == input[..len]
      modifies this`headerSize, this`position, this`clusterStart, this`first, this`slices, buffer
      ensures Shapes() && if headerSize == 0 then InHeader() else InBody()
      ensures headerSize == headerPosition - len + b && first == input[..len][b..] && slices == []
    {
      hide Cuts;
      ghost var slice := input[..len];
      headerSize := headerPosition - len + b;
      Store(buffer, 0, input[b..len]);
      position := len - b;
      clusterStart := -1;
      first, slices := slice[b..], [];
      assert received[headerSize..] == received[headerPosition - len..][b..];
      if headerSize > 0 {
        Begun(slice, b);
      }
    }

    lemma FirstIs(slice: seq<Byte>, b: nat)
      requires IdAt(slice, b) && forall k: nat | k < b :: !IdAt(slice, k)
      ensures FirstId(slice, 0) == Some(b)
    {
    }

    lemma NoneIs(slice: seq<Byte>)
      requires forall k: nat | k < |slice| :: !IdAt(slice, k)
      ensures FirstId(slice, 0) == None
    {
    }

    lemma Begun(slice: seq<Byte>, b: nat)
      requires Shapes() && IdAt(slice, b) && |slice| <= SLICE && first == slice[b..] && slices == [] && blocks == []
      requires 0 < headerSize <= HEADER_MAX && headerSize + |first| == headerPosition <= HEADER_MAX
      requires received == header[..headerPosition] && received[headerSize..] == first
      requires position == |slice| - b && buffer[0..position] == first && clusterStart == -1
      requires !headerRead && headerReadPosition == 0 && headerBlock == None
      ensures InBody()
    {
      assert header[..headerSize] + first + [] == received;
      assert Held() == first;
      assert slice[b..][0..4] == slice[b..b + 4];
      assert first + [] == first;
    }

    /** `ebml_wrote` afterwards: the last id in the slice is where the next sync block is to start. */
    method WroteBody(len: nat) returns (ret: int)
      requires Valid() && headerRead && headerSize != 0 && position == 4 && 0 < len <= SLICE
      modifies this`position, this`clusterStart, this`received, this`pieces, this`slices, buffer
      ensures Valid() && ret == len && pieces == old(pieces) + [input[..len]]
    {
      hide Cuts, LastId, IdAt, CutOf, InBody, InHeader, Pending, Rest, Join, Origin;
      Quiet();
      ghost var slice, kept := input[..len], Held();
      Store(buffer, position, input[..len]);
      assert buffer[..position + len] == kept + slice;
      MarkLast(len);
      position := position + len;
      ret := len;
      Note(slice, kept);
    }

    /** The model's side of it. */
    ghost method Note(slice: seq<Byte>, kept: seq<Byte>)
      requires Shapes() && headerRead && 0 < headerSize <= HEADER_MAX && headerBlock == Some(header[..headerSize])
      requires received == header[..headerSize] + first + Join(slices)
      requires IdAt(first, 0) && forall i | 0 <= i < |slices| :: slices[i] != []
      requires blocks == Cuts(first, slices) && kept == Rest(first + Join(slices)) && |kept| == 4
      requires 4 < position <= 4 + SLICE && Held() == kept + slice && slice != []
      requires clusterStart == match LastId(slice, |slice|) case None => -2 case Some(b) => 4 + b
      requires clusterStart < |slice| && Origin()
      modifies this`received, this`pieces, this`slices
      ensures Valid() && pieces == old(pieces) + [slice]
    {
      hide Cuts, LastId, IdAt, CutOf, InBody, EndsIn, AllHeader, Join;
      PendingIs(slice, kept);
      Extended(slice, kept);
      JoinSnoc(slices, slice);
      assert header[..headerSize] + first + (Join(slices) + slice) == (header[..headerSize] + first + Join(slices)) + slice;
      JoinSnoc(pieces, slice);
      EndedBefore(pieces, slice, |pieces| - 1 - |slices|, headerSize, first);
      received := received + slice;
      pieces := pieces + [slice];
      slices := slices + [slice];
      Grown();
    }

    lemma Grown()
      requires Shapes() && headerRead && 0 < headerSize <= HEADER_MAX && headerBlock == Some(header[..headerSize])
      requires received == header[..headerSize] + first + Join(slices)
      requires IdAt(first, 0) && forall i | 0 <= i < |slices| :: slices[i] != []
      requires 4 <= position <= 4 + SLICE
      requires clusterStart == -2 || (clusterStart == -1 && position > 4) || 0 < clusterStart < position - 4
      requires blocks + Pending() == Cuts(first, slices) && Rest(Held()) == Rest(first + Join(slices))
      requires Origin()
      ensures Valid()
    {
      hide Cuts, Pending, Rest, Join, Origin;
    }

    /** The loop of `ebml_wrote` then. */
    method MarkLast(len: nat)
      requires len <= input.Length && clusterStart == -2 && position == 4
      modifies this`clusterStart
      ensures clusterStart == match LastId(input[..len], len) case None => -2 case Some(b) => 4 + b
      ensures clusterStart < len && (clusterStart == -2 || clusterStart >= 4)
    {
      ghost var slice := input[..len];
      var b: nat := 0;
      while b < len - 4
        invariant clusterStart < b + 4 && (clusterStart == -2 || (clusterStart >= 4 && IdAt(slice, clusterStart - 4)))
        invariant forall k: nat | k < b && IdAt(slice, k) :: clusterStart >= 4 + k
      {
        assert input[b..b + 4] == slice[b..b + 4];
        if input[b..b + 4] == ID {
          clusterStart := position + b;
        }
        b := b + 1;
      }
      LastIs(slice, clusterStart);
    }

    /** When nothing is pending all blocks have been handed on. */
    lemma Quiet()
      requires Valid() && headerRead && headerSize != 0 && position == 4
      ensures clusterStart == -2 && blocks == Cuts(first, slices) && Held() == Rest(first + Join(slices))
      ensures 0 < headerSize <= HEADER_MAX && headerBlock == Some(header[..headerSize])
      ensures received == header[..headerSize] + first + Join(slices)
      ensures IdAt(first, 0) && forall i | 0 <= i < |slices| :: slices[i] != []
    {
      hide Cuts;
      assert blocks + [] == blocks;
      assert Rest(Held()) == Held();
    }

    lemma LastIs(slice: seq<Byte>, start: int)
      requires forall k: nat | k + 4 < |slice| && IdAt(slice, k) :: start >= 4 + k
      requires start == -2 || (start >= 4 && IdAt(slice, start - 4))
      ensures LastId(slice, |slice|) == if start == -2 then None else Some(start - 4)
      ensures start == -2 || start < |slice|
    {
      var b := LastId(slice, |slice|);
      hide LastId;
      if b.Some? {
        assert IdAt(slice, b.value);
      }
    }

    /** What is pending after a slice more. */
    lemma PendingIs(slice: seq<Byte>, kept: seq<Byte>)
      requires slice != [] && |kept| == 4
      requires 0 <= position <= buffer.Length && Held() == kept + slice && clusterStart < |slice|
      requires clusterStart == match LastId(slice, |slice|) case None => -2 case Some(b) => 4 + b
      ensures clusterStart < position && Pending() == CutOf(kept, slice)
      ensures clusterStart == -2 || clusterStart < position - 4
    {
      hide LastId;
      if clusterStart != -2 {
        assert Held()[..clusterStart] == kept + slice[..clusterStart - 4];
        assert Held()[clusterStart..] == slice[clusterStart - 4..];
      }
    }

    lemma Extended(slice: seq<Byte>, kept: seq<Byte>)
      requires kept == Rest(first + Join(slices)) && |kept| == 4
      ensures Cuts(first, slices + [slice]) == Cuts(first, slices) + CutOf(kept, slice)
      ensures Rest(kept + slice) == Rest(first + Join(slices + [slice]))
    {
      hide CutOf;
      JoinSnoc(slices, slice);
      assert (slices + [slice])[..|slices|] == slices;
      var stream := first + Join(slices);
      assert first + (Join(slices) + slice) == stream + slice;
      assert stream + slice == Most(stream) + (kept + slice);
    }

    /** When there is nothing to hand on, only four bytes are held. */
    lemma Drained()
      requires Valid() && headerSize != 0 && ReadSpace() <= 0
      ensures headerRead && position == 4
    {
    }

    lemma HeaderBlockSet()
      requires Valid()
      ensures headerSize != 0 ==> (headerBlock.None? <==> !headerRead)
      ensures headerSize == 0 ==> !headerRead && |Join(pieces)| == headerPosition && blocks == []
      ensures Shapes()
    {
      hide Cuts, Join, EndsIn;
    }

    /** `ebml_read` for all that `ebml_read_space` says there is. */
    method Read(len: int) returns (data: seq<Byte>)
      requires Valid() && headerSize != 0 && len == ReadSpace() && len > 0
      modifies this`position, this`clusterStart, this`headerReadPosition, this`headerRead, buffer
      ensures old(headerRead) ==>
                && headerRead && headerReadPosition == old(headerReadPosition)
                && data == old(Held())[..len] && position == old(position) - len && Shapes()
                && buffer[..position] == old(Held())[len..]
                && clusterStart == (if old(clusterStart) > 0 then old(clusterStart) - len else old(clusterStart))
      ensures !old(headerRead) ==>
                && headerRead && data == header[..headerSize] && position == old(position)
                && clusterStart == old(clusterStart) && buffer[..] == old(buffer[..])
    {
      hide Cuts;
      var toRead := len;
      if headerRead {
        data := buffer[..toRead];
        MoveDown(buffer, 0, toRead, position - toRead);
        assert buffer[..position - toRead] == buffer[0..position - toRead];
        position := position - toRead;
        if clusterStart > 0 {
          clusterStart := clusterStart - toRead;
        }
      } else {
        var space := headerSize - headerReadPosition;
        toRead := Min(len, space);
        data := header[..toRead];
        headerReadPosition := headerReadPosition + toRead;
        if headerReadPosition == headerSize {
          headerRead := true;
        }
      }
    }

    /** `ebml_last_was_sync` */
    method LastWasSync() returns (sync: bool)
      modifies this`clusterStart
      ensures sync == (old(clusterStart) == -1)
      ensures clusterStart == if old(clusterStart) == 0 then -1 else if old(clusterStart) == -1 then -2 else old(clusterStart)
    {
      sync := false;
      if clusterStart == 0 {
        clusterStart := clusterStart - 1;
      } else if clusterStart == -1 {
        clusterStart := clusterStart - 1;
        sync := true;
      }
    }

    /** The header is handed to the plugin. */
    method TakeHeader()
      requires Valid() && headerSize != 0 && !headerRead
      modifies this`headerBlock, this`position, this`clusterStart, this`headerReadPosition, this`headerRead, buffer
      ensures Valid() && headerRead
    {
      hide Cuts, Origin;
      var data := Read(headerSize);
      assert Held() == old(Held());
      headerBlock := Some(data);
    }

    /** The next block is handed on. */
    method TakeBlock() returns (block: Block)
      requires Valid() && headerSize != 0 && headerRead && ReadSpace() > 0
      modifies this`position, this`clusterStart, this`headerReadPosition, this`headerRead, this`blocks, buffer
      ensures Valid() && headerRead && blocks == old(blocks) + [block] && block.data != []
    {
      hide Cuts, Origin, PendingOf, Rest, Join, InHeader;
      ghost var held, start := Held(), clusterStart;
      NextPending(held, start);
      var data := Read(ReadSpace());
      var sync := LastWasSync();
      block := Block(data, sync);
      assert Held() == held[|data|..];
      ghost var pending := Pending();
      assert blocks + ([block] + pending) == (blocks + [block]) + pending;
      blocks := blocks + [block];
      Grown();
    }

    /** `ebml_get_buffer`.  `incoming` is what the reads have to give; one that gives nothing ends it. */
    method GetBuffer(incoming: seq<Piece>) returns (out: Option<Block>, used: nat)
      requires Valid() && running
      modifies this, header, buffer, input
      ensures Valid() && used <= |incoming| && pieces == old(pieces) + incoming[..used]
      ensures blocks == old(blocks) + match out case None => [] case Some(block) => [block]
      ensures out.Some? ==> out.value.data != []
      ensures out.None? ==> Idle()
      ensures out.None? && running ==> used == |incoming| || incoming[used] == []
      ensures !running ==>
                && out.None? && headerSize == 0
                && used < |incoming| && |Join(pieces)| + |incoming[used]| > 131072
    {
      hide Valid, Join;
      used := 0;
      assert incoming[..0] == [];
      while true
        invariant Valid() && running && used <= |incoming| && blocks == old(blocks)
        invariant pieces == old(pieces) + incoming[..used]
        decreases |incoming| - used, headerSize != 0 && !headerRead
      {
        HeaderBlockSet();
        if headerSize != 0 && ReadSpace() > 0 {
          if headerBlock == None {
            TakeHeader();
            continue;
          }
          var block := TakeBlock();
          return Some(block), used;
        }
        NowIdle();
        if used == |incoming| || incoming[used] == [] {
          return None, used;
        }
        var len := |incoming[used]|;
        Fill(incoming[used]);
        assert incoming[..used + 1] == incoming[..used] + [incoming[used]];
        var ret;
        if headerSize == 0 {
          ret := WroteHeader(len);
        } else {
          Drained();
          ret := WroteBody(len);
        }
        if ret != len {
          Stop();
          return None, used;
        }
        used := used + 1;
      }
    }

    /** All has been handed on but the four bytes kept back. */
    ghost predicate Idle()
      reads this, header, buffer
    {
      headerSize != 0 ==>
        && headerRead && 0 < headerSize <= header.Length && headerBlock == Some(header[..headerSize])
        && blocks == Cuts(first, slices) && 0 <= position <= buffer.Length && Held() == Rest(first + Join(slices))
    }

    lemma NowIdle()
      requires Valid() && (headerSize != 0 ==> ReadSpace() <= 0)
      ensures Idle()
    {
      hide Cuts, Join, Origin, EndsIn;
      if headerSize != 0 {
        Drained();
        Quiet();
      }
    }

    method Stop()
      requires Valid()
      modifies this`running
      ensures Valid() && !running
    {
      hide Cuts;
      running := false;
    }

    method Fill(slice: seq<Byte>)
      requires Valid() && |slice| <= SLICE
      modifies input
      ensures Valid() && input[..|slice|] == slice
    {
      hide Cuts;
      Store(input, 0, slice);
      assert input[..|slice|] == input[0..0 + |slice|];
    }
  }

  function NonEmpty(given: seq<seq<Byte>>): seq<seq<Byte>> {
    if given == [] then []
    else
      var n := |given| - 1;
      NonEmpty(given[..n]) + if given[n] == [] then [] else [given[n]]
  }

  lemma {:induction false} JoinNonEmpty(given: seq<seq<Byte>>)
    ensures Join(NonEmpty(given)) == Join(given)
    decreases |given|
  {
    if given != [] {
      var n := |given| - 1;
      JoinNonEmpty(given[..n]);
      if given[n] == [] {
        assert NonEmpty(given) == NonEmpty(given[..n]);
      } else {
        JoinSnoc(NonEmpty(given[..n]), given[n]);
      }
    }
  }

  lemma {:induction false} MoreReads(given: seq<seq<Byte>>, used: nat, more: nat)
    requires used + more <= |given| && forall i | used <= i < used + more :: given[i] != []
    ensures NonEmpty(given[..used + more]) == NonEmpty(given[..used]) + given[used..used + more]
    decreases more
  {
    if more > 0 {
      MoreReads(given, used, more - 1);
      var to := used + more - 1;
      assert given[..to + 1][..to] == given[..to] && given[..to + 1][to] == given[to];
      assert given[used..to + 1] == given[used..to] + [given[to]];
    }
  }

  lemma NothingRead(given: seq<seq<Byte>>, used: nat)
    requires used < |given| && given[used] == []
    ensures NonEmpty(given[..used + 1]) == NonEmpty(given[..used])
  {
    assert given[..used + 1][..used] == given[..used];
  }

  /** A source is asked for blocks again and again, whatever each read gives.  All that is given is the header,
      the blocks handed on, and four bytes kept back. */
  method Split(s: Splitter, given: seq<Piece>) returns (out: seq<Block>, used: nat)
    requires s.Valid() && s.running && s.pieces == [] && s.blocks == []
    modifies s, s.header, s.buffer, s.input
    ensures s.Valid() && used <= |given| && s.pieces == NonEmpty(given[..used])
    ensures s.headerSize == 0 ==> out == [] && AllHeader(s.pieces)
    ensures s.headerSize != 0 ==>
              && 0 < s.headerSize <= s.header.Length && 4 == s.position <= s.buffer.Length
              && s.headerBlock == Some(s.header[..s.headerSize])
              && Join(given[..used]) == s.header[..s.headerSize] + Data(out) + s.Held()
              && |s.slices| < |s.pieces| && s.slices == s.pieces[|s.pieces| - |s.slices|..]
              && EndsIn(s.pieces, |s.pieces| - 1 - |s.slices|, s.headerSize, s.first)
              && out == Cuts(s.first, s.slices)
    ensures if s.running then used == |given|
            else s.headerSize == 0 && used < |given| && |Join(given[..used])| + |given[used]| > 131072
  {
    hide Splitter.Valid, Splitter.Idle, Join, Cuts, Data, EndsIn, AllHeader, NonEmpty;
    out, used := [], 0;
    NoneRead(given);
    s.Bounded();
    while true
      invariant s.Valid() && s.running && used <= |given| && s.pieces == NonEmpty(given[..used]) && out == s.blocks
      invariant |Data(s.blocks)| <= |Join(s.pieces)|
      decreases |given| - used, |Join(s.pieces)| - |Data(s.blocks)|
    {
      ghost var before, pieces := out, s.pieces;
      var block, n := s.GetBuffer(given[used..]);
      s.Bounded();
      AsRead(s, pieces, given, used, n);
      used := used + n;
      match block {
        case Some(b) =>
          out := out + [b];
          DataAppend(before, [b]);
          DataOne(b);
        case None =>
          s.Finished();
          JoinNonEmpty(given[..used]);
          assert out == s.blocks;
          if !s.running || used == |given| {
            return;
          }
          NothingRead(given, used);
          used := used + 1;
      }
    }
  }

  lemma NoneRead(given: seq<seq<Byte>>)
    ensures NonEmpty(given[..0]) == []
  {
  }

  lemma AsRead(s: Splitter, pieces: seq<seq<Byte>>, given: seq<Piece>, used: nat, n: nat)
    requires s.Valid() && used + n <= |given|
    requires pieces == NonEmpty(given[..used]) && s.pieces == pieces + given[used..][..n]
    ensures s.pieces == NonEmpty(given[..used + n])
  {
    hide Join, Cuts, EndsIn, NonEmpty;
    assert given[used..][..n] == given[used..used + n];
    assert forall i | used <= i < used + n :: given[i] == s.pieces[|pieces| + i - used];
    MoreReads(given, used, n);
  }
}
