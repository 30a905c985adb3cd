/** The streaming context of src/md5.c against sections 3.1 to 3.5 of RFC 1321: a message fed in pieces
    of any size gives the digest of the whole. */
module Md5 {
  import opened Bytes
  import opened Md5Transform

  type U32 = x: int | 0 <= x < 0x1_0000_0000

  const TWO32 := 0x1_0000_0000
  const TWO64 := 0x1_0000_0000_0000_0000

  // ---------------------------------------------------------------------------------------------
  // The standard
  // ---------------------------------------------------------------------------------------------

  // Section 3.3.
  const INITIAL := State(Word(0x67452301), Word(0xefcdab89), Word(0x98badcfe), Word(0x10325476))

  /** Section 2: four bytes are a word, low-order byte first. */
  function ToWord(b0: Byte, b1: Byte, b2: Byte, b3: Byte): Word {
    Word(((((b3 as bv32) << 8) | (b2 as bv32)) << 16) | (((b1 as bv32) << 8) | (b0 as bv32)))
  }

  function ToWords(s: seq<Byte>): (r: seq<Word>)
    ensures |r| == |s| / 4
  {
    seq(|s| / 4, i requires 0 <= i < |s| / 4 => ToWord(s[4 * i], s[4 * i + 1], s[4 * i + 2], s[4 * i + 3]))
  }

  lemma QuarterOf(n: nat, k: nat)
    requires n == 64 * k
    ensures n % 4 == 0 && n / 4 == 16 * k && (n / 4) % 16 == 0
  {
  }

  /** Section 3.4 over a message of whole 16-word blocks. */
  function Fold(st: State, ws: seq<Word>): State
    decreases |ws|
  {
    if |ws| < 16 then st else Fold(Compress(st, ws[..16]), ws[16..])
  }

  /** Section 3.1: how many bytes are appended to `n` to reach 56 modulo 64, at least one. */
  function PadLength(n: nat): (k: nat)
    ensures 1 <= k <= 64 && (n + k) % 64 == 56
  {
    (119 - n % 64) % 64 + 1
  }

  function Zeros(n: nat): (z: seq<Byte>)
    ensures |z| == n
  {
    seq(n, _ => 0)
  }

  function Padding(n: nat): (p: seq<Byte>)
    ensures |p| == PadLength(n)
  {
    [0x80] + Zeros(PadLength(n) - 1)
  }

  function IntWord(n: U32): Word {
    Word(n as bv32)
  }

  /** Section 3.2: the bit length modulo 2^64 as two words, low-order word first. */
  function LengthWords(n: nat): (r: seq<Word>)
    ensures |r| == 2
  {
    var bits := 8 * n % TWO64;
    [IntWord(bits % TWO32), IntWord(bits / TWO32)]
  }

  function Padded(m: seq<Byte>): (r: seq<Word>)
    ensures |r| % 16 == 0
  {
    var n := |m| + PadLength(|m|);
    QuarterOf(n + 8, (n + 8) / 64);
    ToWords(m + Padding(|m|)) + LengthWords(|m|)
  }

  function WordBytes(w: Word): seq<Byte> {
    [(w.v & 0xff) as Byte, ((w.v >> 8) & 0xff) as Byte, ((w.v >> 16) & 0xff) as Byte, (w.v >> 24) as Byte]
  }

  /** Section 3.5. */
  function Output(st: State): seq<Byte> {
    WordBytes(st.a) + WordBytes(st.b) + WordBytes(st.c) + WordBytes(st.d)
  }

  function Digest(m: seq<Byte>): seq<Byte> {
    Output(Fold(INITIAL, Padded(m)))
  }

  // ---------------------------------------------------------------------------------------------
  // Whole blocks
  // ---------------------------------------------------------------------------------------------

  lemma {:induction false} FoldAppend(st: State, ws: seq<Word>, block: Block)
    requires |ws| % 16 == 0
    ensures Fold(st, ws + block) == Compress(Fold(st, ws), block)
    decreases |ws|
  {
    hide Compress;
    if |ws| == 0 {
      assert ws + block == block && block[..16] == block && block[16..] == [];
      assert Fold(Compress(st, block), []) == Compress(st, block);
    } else {
      assert (ws + block)[..16] == ws[..16] && (ws + block)[16..] == ws[16..] + block;
      FoldAppend(Compress(st, ws[..16]), ws[16..], block);
    }
  }

  lemma ToWordsAppend(s: seq<Byte>, t: seq<Byte>)
    requires |s| % 4 == 0 && |t| % 4 == 0
    ensures ToWords(s + t) == ToWords(s) + ToWords(t)
  {
    hide ToWord;
    var u := s + t;
    forall i | 0 <= i < |u| / 4
      ensures ToWords(u)[i] == (ToWords(s) + ToWords(t))[i]
    {
      if i < |s| / 4 {
        assert u[4 * i] == s[4 * i] && u[4 * i + 1] == s[4 * i + 1];
        assert u[4 * i + 2] == s[4 * i + 2] && u[4 * i + 3] == s[4 * i + 3];
      } else {
        var j := i - |s| / 4;
        assert u[4 * i] == t[4 * j] && u[4 * i + 1] == t[4 * j + 1];
        assert u[4 * i + 2] == t[4 * j + 2] && u[4 * i + 3] == t[4 * j + 3];
      }
    }
  }

  /** The hash of the whole 64-byte blocks at the front of a message. */
  function Hashed(m: seq<Byte>): State
  {
    Fold(INITIAL, ToWords(m))
  }

  lemma HashedAppend(m: seq<Byte>, block: seq<Byte>)
    requires |m| % 64 == 0 && |block| == 64
    ensures Hashed(m + block) == Compress(Hashed(m), ToWords(block))
  {
    QuarterOf(|m|, |m| / 64);
    ToWordsAppend(m, block);
    FoldAppend(INITIAL, ToWords(m), ToWords(block));
  }

  // ---------------------------------------------------------------------------------------------
  // The bit count
  // ---------------------------------------------------------------------------------------------

  /** Two 32-bit halves hold eight times the length modulo 2^64. */
  predicate CountsBits(lo: U32, hi: U32, n: nat) {
    hi * TWO32 + lo == 8 * n % TWO64
  }

  lemma DivMod32(a: nat, q: nat, r: nat)
    requires a == q * TWO32 + r && r < TWO32
    ensures a / TWO32 == q && a % TWO32 == r
  {
  }

  lemma DivMod64(a: nat, q: nat, r: nat)
    requires a == q * TWO64 + r && r < TWO64
    ensures a % TWO64 == r
  {
  }

  /** The low half after adding `len`, and whether the addition carries. */
  function LowAfter(lo: U32, len: nat): U32 {
    (lo + 8 * len) % TWO32
  }

  /** The high half after the carry and the high part of the length. */
  function HighAfter(lo: U32, hi: U32, len: nat): U32 {
    ((hi + if LowAfter(lo, len) < lo then 1 else 0) % TWO32 + len / 0x2000_0000) % TWO32
  }

  lemma CarryIsDetected(lo: U32, len: nat)
    ensures
      var carry := if LowAfter(lo, len) < lo then 1 else 0;
      lo + 8 * len == (carry + len / 0x2000_0000) * TWO32 + LowAfter(lo, len)
  {
    var high, low := len / 0x2000_0000, 8 * (len % 0x2000_0000);
    assert 8 * len == high * TWO32 + low && 0 <= low <= TWO32 - 8;
    if lo + low < TWO32 {
      DivMod32(lo + 8 * len, high, lo + low);
    } else {
      DivMod32(lo + 8 * len, high + 1, lo + low - TWO32);
    }
  }

  /** The carry code of `MD5Update` keeps the count. */
  lemma CarryKeepsCount(lo: U32, hi: U32, n: nat, len: nat)
    requires CountsBits(lo, hi, n)
    ensures CountsBits(LowAfter(lo, len), HighAfter(lo, hi, len), n + len)
  {
    CarryIsDetected(lo, len);
    var carry := if LowAfter(lo, len) < lo then 1 else 0;
    var k, high := 8 * n / TWO64, len / 0x2000_0000;
    var sum := hi + carry + high;
    var k1 := sum / TWO32;
    assert HighAfter(lo, hi, len) == sum % TWO32 by {
      if hi + carry == TWO32 {
        DivMod32(hi + carry, 1, 0);
        DivMod32(sum, high / TWO32 + 1, high % TWO32);
      }
    }
    DivMod64(8 * (n + len), k + k1, (sum % TWO32) * TWO32 + LowAfter(lo, len));
  }

  lemma CountIsLength(lo: U32, hi: U32, n: nat)
    requires CountsBits(lo, hi, n)
    ensures lo / 8 % 64 == n % 64
    ensures lo == 8 * n % TWO64 % TWO32 && hi == 8 * n % TWO64 / TWO32
  {
    DivMod32(8 * n % TWO64, hi, lo);
    var k := 8 * n / TWO64;
    var bytes := n - k * 0x2000_0000_0000_0000 - hi * 0x2000_0000;
    assert lo == 8 * bytes;
    SameMod64(n, k * 0x80_0000_0000_0000 + hi * 0x80_0000, bytes);
  }

  lemma SameMod64(n: nat, q: int, r: nat)
    requires n == 64 * q + r
    ensures 8 * r / 8 % 64 == n % 64
  {
    assert n % 64 == r % 64;
  }

  /** `(uint32_t) len << 3` adds what eight times the length adds. */
  lemma ShiftedLength(lo: U32, len: nat)
    ensures (lo + len % TWO32 * 8 % TWO32) % TWO32 == LowAfter(lo, len)
  {
    var k, r := len / TWO32, len % TWO32;
    var q, low := r * 8 / TWO32, r * 8 % TWO32;
    assert lo + 8 * len == (8 * k + q) * TWO32 + (lo + low);
    if lo + low < TWO32 {
      DivMod32(lo + 8 * len, 8 * k + q, lo + low);
    } else {
      DivMod32(lo + 8 * len, 8 * k + q + 1, lo + low - TWO32);
      DivMod32(lo + low, 1, lo + low - TWO32);
    }
  }

  // ---------------------------------------------------------------------------------------------
  // The context
  // ---------------------------------------------------------------------------------------------

  /** How much of a message is in whole blocks. */
  function Whole(n: nat): (w: nat)
    ensures w <= n < w + 64 && w % 64 == 0 && n - w == n % 64
  {
    64 * (n / 64)
  }

  class Md5Context {
    const buf: array<Word>
    const block: array<Byte>
    var bits0: U32
    var bits1: U32
    ghost var message: seq<Byte>

    ghost predicate Valid()
      reads this, buf, block
    {
      && buf.Length == 4 && block.Length == 64
      && CountsBits(bits0, bits1, |message|)
      && Registers(buf) == Hashed(message[..Whole(|message|)])
      && block[..|message| % 64] == message[Whole(|message|)..]
    }

    /** `MD5Init`. */
    constructor ()
      ensures Valid() && message == [] && fresh(buf) && fresh(block)
    {
      hide Compress;
      buf := new Word[4] [Word(0x67452301), Word(0xefcdab89), Word(0x98badcfe), Word(0x10325476)];
      block := new Byte[64];
      bits0, bits1 := 0, 0;
      message := [];
    }

    /** Runs the transform over a full block. */
    method Absorb(ghost before: seq<Byte>)
      requires buf.Length == 4 && block.Length == 64
      requires |before| % 64 == 0 && Registers(buf) == Hashed(before)
      modifies buf
      ensures Registers(buf) == Hashed(before + block[..])
    {
      HashedAppend(before, block[..]);
      Transform(buf, ToWords(block[..]));
    }

    /** The bit count of `MD5Update`. */
    method CountLength(len: nat, ghost n: nat)
      requires CountsBits(bits0, bits1, n)
      modifies this`bits0, this`bits1
      ensures CountsBits(bits0, bits1, n + len)
    {
      ShiftedLength(bits0, len);
      CarryKeepsCount(bits0, bits1, n, len);
      var t := bits0;
      bits0 := (t + len % TWO32 * 8 % TWO32) % TWO32;
      if bits0 < t {
        bits1 := (bits1 + 1) % TWO32;
      }
      bits1 := (bits1 + len / 0x2000_0000) % TWO32;
    }

    method AbsorbChunk(ghost before: seq<Byte>, chunk: seq<Byte>)
      requires buf.Length == 4 && block.Length == 64 && |chunk| == 64
      requires |before| % 64 == 0 && Registers(buf) == Hashed(before)
      modifies buf, block
      ensures Registers(buf) == Hashed(before + chunk)
    {
      hide Compress, Hashed, ToWords;
      Store(block, 0, chunk);
      assert block[..] == block[0..0 + 64];
      Absorb(before);
    }

    lemma NextChunk(before: seq<Byte>, data: seq<Byte>, at: nat)
      requires at + 64 <= |data|
      ensures before + data[..at] + data[at..at + 64] == before + data[..at + 64]
    {
      assert data[..at] + data[at..at + 64] == data[..at + 64];
    }

    /** The second half of `MD5Update`: 64-byte chunks, and what remains kept in the block. */
    method AbsorbChunks(ghost before: seq<Byte>, data: seq<Byte>) returns (ghost pos: nat)
      requires buf.Length == 4 && block.Length == 64
      requires |before| % 64 == 0 && Registers(buf) == Hashed(before)
      modifies buf, block
      ensures pos == Whole(|data|) && (|before| + pos) % 64 == 0
      ensures Registers(buf) == Hashed(before + data[..pos])
      ensures block[..|data| - pos] == data[pos..]
    {
      hide Compress, Hashed, ToWords;
      var at := 0;
      assert before + data[..0] == before;
      while |data| - at >= 64
        invariant 0 <= at <= |data| && at % 64 == 0 && (|before| + at) % 64 == 0
        invariant Registers(buf) == Hashed(before + data[..at])
        decreases |data| - at
      {
        AbsorbChunk(before + data[..at], data[at..at + 64]);
        NextChunk(before, data, at);
        at := at + 64;
      }
      Store(block, 0, data[at..]);
      assert block[..|data| - at] == block[0..0 + (|data| - at)];
      pos := at;
    }

    /** `MD5Update`: the context afterwards stands for the longer message. */
    method Update(data: seq<Byte>)
      requires Valid()
      modifies this, buf, block
      ensures Valid() && message == old(message) + data
    {
      hide Compress, Hashed, ToWords, CountsBits, Whole;
      ghost var m, n := message, |message|;
      ghost var whole, rest := m[..Whole(n)], m[Whole(n)..];
      CountIsLength(bits0, bits1, n);
      var t := bits0 / 8 % 64;
      CountLength(|data|, n);
      message := message + data;
      assert m == whole + rest;
      TakeIn(t, data, whole, rest);
    }

    /** The bytes go to the block behind the `t` that are there, and whole blocks are absorbed. */
    method TakeIn(t: nat, data: seq<Byte>, ghost whole: seq<Byte>, ghost rest: seq<Byte>)
      requires buf.Length == 4 && block.Length == 64
      requires |whole| % 64 == 0 && t == |rest| < 64 && Registers(buf) == Hashed(whole) && block[..t] == rest
      modifies buf, block
      ensures
        var m := whole + rest + data;
        Registers(buf) == Hashed(m[..Whole(|m|)]) && block[..|m| % 64] == m[Whole(|m|)..]
    {
      hide Compress, Hashed, ToWords, Whole;
      if t == 0 {
        ghost var pos := AbsorbChunks(whole, data);
        Regroup(whole, rest, data, pos);
      } else if |data| < 64 - t {
        Store(block, t, data);
        assert block[..t + |data|] == block[..t] + block[t..t + |data|];
        SameWhole(whole, rest, data);
      } else {
        CompleteBlock(t, data[..64 - t], whole, rest);
        ghost var longer := whole + (rest + data[..64 - t]);
        Lead(whole, rest, data, 64 - t);
        ghost var pos := AbsorbChunks(longer, data[64 - t..]);
        Regroup(longer, [], data[64 - t..], pos);
      }
    }

    lemma Lead(whole: seq<Byte>, rest: seq<Byte>, data: seq<Byte>, k: nat)
      requires k <= |data|
      ensures (whole + (rest + data[..k])) + [] + data[k..] == whole + rest + data
    {
      assert data == data[..k] + data[k..];
    }

    /** Completes a partly filled block and absorbs it. */
    method CompleteBlock(t: nat, lead: seq<Byte>, ghost whole: seq<Byte>, ghost rest: seq<Byte>)
      requires buf.Length == 4 && block.Length == 64 && t + |lead| == 64
      requires |whole| % 64 == 0 && Registers(buf) == Hashed(whole) && block[..t] == rest
      modifies buf, block
      ensures Registers(buf) == Hashed(whole + (rest + lead)) && (|whole| + 64) % 64 == 0
    {
      hide Compress, Hashed, ToWords;
      Store(block, t, lead);
      assert block[..] == block[..t] + block[t..t + |lead|];
      Absorb(whole);
    }

    /** The padding of `MD5Final`, which takes one block or two. */
    method Pad(used: nat, ghost m: seq<Byte>, ghost whole0: seq<Byte>, ghost rest: seq<Byte>)
      returns (ghost whole: seq<Byte>)
      requires buf.Length == 4 && block.Length == 64
      requires m == whole0 + rest && |whole0| % 64 == 0 && used == |rest| == |m| % 64
      requires Registers(buf) == Hashed(whole0) && block[..used] == rest
      modifies buf, block
      ensures |whole| % 64 == 0 && Registers(buf) == Hashed(whole)
      ensures whole + block[..56] == m + Padding(|m|)
    {
      hide Compress, Hashed, ToWords, Padding, PadLength;
      whole := whole0;
      Store(block, used, [0x80]);
      var count := 64 - 1 - used;
      assert block[..used + 1] == block[..used] + block[used..used + 1];
      if count < 8 {
        CompleteBlock(used + 1, Zeros(count), whole, rest + [0x80]);
        whole := whole + (rest + [0x80] + Zeros(count));
        Store(block, 0, Zeros(56));
        assert block[..56] == block[0..0 + 56];
        TwoBlocks(m, whole0, rest, count);
      } else {
        Store(block, used + 1, Zeros(count - 8));
        assert block[..56] == block[..used + 1] + block[used + 1..used + 1 + (count - 8)];
        OneBlock(m, whole0, rest, count);
      }
    }

    /** `MD5Final`: the digest of everything fed, after which the context is cleared. */
    method Final() returns (digest: seq<Byte>)
      requires Valid()
      modifies this, buf, block
      ensures digest == Digest(old(message))
      ensures bits0 == bits1 == 0 && forall i | 0 <= i < 4 :: buf[i] == Word(0)
      ensures forall i | 0 <= i < 64 :: block[i] == 0
    {
      hide Compress, Hashed, ToWords, CountsBits, Whole, Padding, Padded, Fold, Output, IntWord;
      ghost var m := message;
      CountIsLength(bits0, bits1, |m|);
      assert m == m[..Whole(|m|)] + m[Whole(|m|)..];
      ghost var whole := Pad(bits0 / 8 % 64, m, m[..Whole(|m|)], m[Whole(|m|)..]);
      FinalBlock(m, whole, block[..56], bits0, bits1);
      Transform(buf, ToWords(block[..56]) + [IntWord(bits0), IntWord(bits1)]);
      digest := Output(Registers(buf));
      Clear();
    }

    method Clear()
      requires buf.Length == 4 && block.Length == 64
      modifies this, buf, block
      ensures bits0 == bits1 == 0 && forall i | 0 <= i < 4 :: buf[i] == Word(0)
      ensures forall i | 0 <= i < 64 :: block[i] == 0
    {
      bits0, bits1 := 0, 0;
      forall i | 0 <= i < 4 {
        buf[i] := Word(0);
      }
      forall i | 0 <= i < 64 {
        block[i] := 0;
      }
    }
  }

  /** Absorbing from a block boundary leaves the whole blocks of the longer message behind. */
  lemma Regroup(whole: seq<Byte>, rest: seq<Byte>, data: seq<Byte>, pos: nat)
    requires |whole| % 64 == 0 && rest == [] && pos == Whole(|data|)
    ensures
      var m := whole + rest + data;
      && Whole(|m|) == |whole| + pos
      && m[..Whole(|m|)] == whole + data[..pos] && m[Whole(|m|)..] == data[pos..]
      && |m| % 64 == |data| - pos
  {
    var m := whole + rest + data;
    BoundaryPlus(|whole|, |data|);
    assert m == whole + data;
  }

  lemma BoundaryPlus(a: nat, n: nat)
    requires a % 64 == 0
    ensures Whole(a + n) == a + Whole(n) && (a + n) % 64 == n % 64
  {
    var k, j := a / 64, n / 64;
    assert a + n == 64 * (k + j) + n % 64;
  }

  lemma SameWhole(whole: seq<Byte>, rest: seq<Byte>, data: seq<Byte>)
    requires |whole| % 64 == 0 && |rest| + |data| < 64
    ensures
      var m := whole + rest + data;
      && Whole(|m|) == |whole| && |m| % 64 == |rest| + |data|
      && m[..Whole(|m|)] == whole && m[Whole(|m|)..] == rest + data
  {
    BoundaryPlus(|whole|, |rest| + |data|);
    assert whole + rest + data == whole + (rest + data);
  }

  lemma PaddedIs(m: seq<Byte>, whole: seq<Byte>, last: seq<Byte>, lo: U32, hi: U32)
    requires |whole| % 64 == 0 && |last| == 56 && m + Padding(|m|) == whole + last
    requires CountsBits(lo, hi, |m|)
    ensures Padded(m) == ToWords(whole) + (ToWords(last) + [IntWord(lo), IntWord(hi)])
  {
    hide ToWords, Padding, CountsBits, IntWord, LengthWords;
    LengthIs(|m|, lo, hi);
    QuarterOf(|whole|, |whole| / 64);
    ToWordsAppend(whole, last);
    assert ToWords(m + Padding(|m|)) == ToWords(whole) + ToWords(last);
  }

  lemma LengthIs(n: nat, lo: U32, hi: U32)
    requires CountsBits(lo, hi, n)
    ensures LengthWords(n) == [IntWord(lo), IntWord(hi)]
  {
    hide IntWord;
    CountIsLength(lo, hi, n);
  }

  /** The padding when there is no room left for the length, and when there is. */
  lemma TwoBlocks(m: seq<Byte>, whole: seq<Byte>, rest: seq<Byte>, count: nat)
    requires m == whole + rest && |rest| == |m| % 64 && count == 63 - |rest| < 8
    ensures (whole + (rest + [0x80] + Zeros(count))) + Zeros(56) == m + Padding(|m|)
  {
    assert PadLength(|m|) == count + 57;
    assert Padding(|m|) == [0x80] + Zeros(count) + Zeros(56);
  }

  lemma OneBlock(m: seq<Byte>, whole: seq<Byte>, rest: seq<Byte>, count: nat)
    requires m == whole + rest && |rest| == |m| % 64 && count == 63 - |rest| >= 8
    ensures whole + (rest + [0x80] + Zeros(count - 8)) == m + Padding(|m|)
  {
    assert PadLength(|m|) == count - 7;
    assert Padding(|m|) == [0x80] + Zeros(count - 8);
  }

  /** The last block, with the two counts as its last words, completes the padded message. */
  lemma FinalBlock(m: seq<Byte>, whole: seq<Byte>, last: seq<Byte>, lo: U32, hi: U32)
    requires |whole| % 64 == 0 && |last| == 56 && m + Padding(|m|) == whole + last
    requires CountsBits(lo, hi, |m|)
    ensures |ToWords(last)| == 14
    ensures Fold(INITIAL, Padded(m))
         == Compress(Hashed(whole), ToWords(last) + [IntWord(lo), IntWord(hi)])
  {
    hide Compress, Padded, ToWords, Padding, CountsBits, Fold, IntWord;
    PaddedIs(m, whole, last, lo, hi);
    QuarterOf(|whole|, |whole| / 64);
    FoldAppend(INITIAL, ToWords(whole), ToWords(last) + [IntWord(lo), IntWord(hi)]);
  }

  /** However a message is cut up, the digest is that of the whole. */
  method DigestOfPieces(pieces: seq<seq<Byte>>) returns (digest: seq<Byte>)
    ensures digest == Digest(Join(pieces))
  {
    hide Md5Context.Valid, Digest;
    var context := new Md5Context();
    for i := 0 to |pieces|
      invariant context.Valid() && context.message == Join(pieces[..i])
      invariant fresh(context) && fresh(context.buf) && fresh(context.block)
    {
      context.Update(pieces[i]);
      assert pieces[..i + 1] == pieces[..i] + [pieces[i]];
      JoinSnoc(pieces[..i], pieces[i]);
    }
    assert pieces[..|pieces|] == pieces;
    digest := context.Final();
  }
}
