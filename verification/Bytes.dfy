/** Bytes and plain facts about sequences of them. */
module Bytes {
  type Byte = x: int | 0 <= x < 256

  function Max(a: int, b: int): int {
    if a < b then b else a
  }

  function Min(a: int, b: int): int {
    if a < b then a else b
  }

  /** A text in letters, as bytes. */
  function Letters(text: string): (s: seq<Byte>)
    requires forall i | 0 <= i < |text| :: text[i] as int < 256
    ensures |s| == |text| && forall i | 0 <= i < |text| :: s[i] == text[i] as int
  {
    seq(|text|, i requires 0 <= i < |text| => text[i] as int)
  }

  /** All the pieces, one after the other. */
  function Join(pieces: seq<seq<Byte>>): seq<Byte> {
    if pieces == [] then [] else Join(pieces[..|pieces| - 1]) + pieces[|pieces| - 1]
  }

  lemma JoinSnoc(pieces: seq<seq<Byte>>, last: seq<Byte>)
    ensures Join(pieces + [last]) == Join(pieces) + last
  {
    assert (pieces + [last])[..|pieces|] == pieces;
  }

  lemma {:induction false} JoinAppend(a: seq<seq<Byte>>, b: seq<seq<Byte>>)
    ensures Join(a + b) == Join(a) + Join(b)
    decreases |b|
  {
    if b == [] {
      assert a + b == a;
    } else {
      var n := |b| - 1;
      JoinAppend(a, b[..n]);
      assert a + b == (a + b[..n]) + [b[n]];
      JoinSnoc(a + b[..n], b[n]);
    }
  }

  lemma JoinNone(pieces: seq<seq<Byte>>)
    ensures Join(pieces[..0]) == []
  {
  }

  lemma JoinOne(piece: seq<Byte>)
    ensures Join([piece]) == piece
  {
    assert [piece] == [] + [piece];
    JoinSnoc([], piece);
  }

  lemma JoinNext(pieces: seq<seq<Byte>>, i: nat)
    requires i < |pieces|
    ensures Join(pieces[..i + 1]) == Join(pieces[..i]) + pieces[i]
  {
    hide Join;
    JoinSnoc(pieces[..i], pieces[i]);
    assert pieces[..i + 1] == pieces[..i] + [pieces[i]];
  }

  lemma TwoParts(pieces: seq<seq<Byte>>, i: nat)
    requires i <= |pieces|
    ensures pieces[..i] + pieces[i..] == pieces
  {
  }

  lemma JoinSplit(pieces: seq<seq<Byte>>, i: nat)
    requires i <= |pieces|
    ensures Join(pieces) == Join(pieces[..i]) + Join(pieces[i..])
  {
    hide Join, Letters;
    TwoParts(pieces, i);
    JoinAppend(pieces[..i], pieces[i..]);
  }

  /** `memcpy (data + at, part, |part|)` */
  method Store(data: array<Byte>, at: nat, part: seq<Byte>)
    requires at + |part| <= data.Length
    modifies data
    ensures data[..at] == old(data[..at]) && data[at..at + |part|] == part
    ensures data[at + |part|..] == old(data[at + |part|..])
  {
    for i := 0 to |part|
      invariant data[..at] == old(data[..at]) && data[at..at + i] == part[..i]
      invariant data[at + |part|..] == old(data[at + |part|..])
    {
      data[at + i] := part[i];
    }
  }

  /** `memmove (src, src + gap, count)` */
  method MoveDown(data: array<Byte>, src: nat, gap: nat, count: nat)
    requires src + gap + count <= data.Length
    modifies data
    ensures data[..src] == old(data[..src])
    ensures data[src..src + count] == old(data[src + gap..src + gap + count])
    ensures data[src + count..] == old(data[src + count..])
  {
    ghost var was := data[..];
    for i := 0 to count
      invariant data[..src] == was[..src]
      invariant data[src..src + i] == was[src + gap..src + gap + i]
      invariant data[src + i..] == was[src + i..]
    {
      data[src + i] := data[src + gap + i];
    }
  }
}
