/** The block transform of src/md5.c against section 3.4 of RFC 1321: the 64 unrolled lines of the source
    are the 64 operations that the standard drives by tables. */
module Md5Transform {
  /** A 32-bit word; wrapped so that only the lemmas about single operations look at its bits. */
  datatype Word = Word(v: bv32)

  datatype State = State(a: Word, b: Word, c: Word, d: Word)

  // ---------------------------------------------------------------------------------------------
  // The standard
  // ---------------------------------------------------------------------------------------------

  // Section 3.4: the auxiliary functions.
  function BitsF(x: bv32, y: bv32, z: bv32): bv32 { (x & y) | (!x & z) }
  function BitsG(x: bv32, y: bv32, z: bv32): bv32 { (x & z) | (y & !z) }
  function F(x: Word, y: Word, z: Word): Word { Word(BitsF(x.v, y.v, z.v)) }
  function G(x: Word, y: Word, z: Word): Word { Word(BitsG(x.v, y.v, z.v)) }
  function H(x: Word, y: Word, z: Word): Word { Word(x.v ^ y.v ^ z.v) }
  function I(x: Word, y: Word, z: Word): Word { Word(y.v ^ (x.v | !z.v)) }

  function Round(i: nat): nat {
    if i < 16 then 0 else if i < 32 then 1 else if i < 48 then 2 else 3
  }

  function Mix(round: nat, x: Word, y: Word, z: Word): Word {
    if round == 0 then F(x, y, z) else if round == 1 then G(x, y, z)
    else if round == 2 then H(x, y, z) else I(x, y, z)
  }

  function Rotl(x: Word, s: nat): Word
    requires 0 < s < 32
  {
    Word((x.v << s) | (x.v >> (32 - s)))
  }

  // Section 3.4: which word, which shift and which table entry operation `i` uses.
  function Words2(j: nat): (k: nat)
    requires j < 16
    ensures k < 16
  {
    match j
    case 0 => 1    case 1 => 6    case 2 => 11    case 3 => 0    case 4 => 5    case 5 => 10    case 6 => 15    case 7 => 4
    case 8 => 9    case 9 => 14    case 10 => 3    case 11 => 8    case 12 => 13    case 13 => 2    case 14 => 7    case 15 => 12
  }

  function Words3(j: nat): (k: nat)
    requires j < 16
    ensures k < 16
  {
    match j
    case 0 => 5    case 1 => 8    case 2 => 11    case 3 => 14    case 4 => 1    case 5 => 4    case 6 => 7    case 7 => 10
    case 8 => 13    case 9 => 0    case 10 => 3    case 11 => 6    case 12 => 9    case 13 => 12    case 14 => 15    case 15 => 2
  }

  function Words4(j: nat): (k: nat)
    requires j < 16
    ensures k < 16
  {
    match j
    case 0 => 0    case 1 => 7    case 2 => 14    case 3 => 5    case 4 => 12    case 5 => 3    case 6 => 10    case 7 => 1
    case 8 => 8    case 9 => 15    case 10 => 6    case 11 => 13    case 12 => 4    case 13 => 11    case 14 => 2    case 15 => 9
  }

  function WordIndex(i: nat): (k: nat)
    requires i < 64
    ensures k < 16
  {
    if i < 16 then i else if i < 32 then Words2(i - 16) else if i < 48 then Words3(i - 32) else Words4(i - 48)
  }

  function Shift(i: nat): (s: nat)
    requires i < 64
    ensures 0 < s < 32
  {
    var col := i % 4;
    if i < 16 then (if col == 0 then 7 else if col == 1 then 12 else if col == 2 then 17 else 22)
    else if i < 32 then (if col == 0 then 5 else if col == 1 then 9 else if col == 2 then 14 else 20)
    else if i < 48 then (if col == 0 then 4 else if col == 1 then 11 else if col == 2 then 16 else 23)
    else (if col == 0 then 6 else if col == 1 then 10 else if col == 2 then 15 else 21)
  }

  // The table T of section 3.4, counted from 0, sixteen entries a round.
  function T1(j: nat): Word
    requires j < 16
  {
    match j
    case 0 => Word(0xd76aa478)    case 1 => Word(0xe8c7b756)    case 2 => Word(0x242070db)    case 3 => Word(0xc1bdceee)
    case 4 => Word(0xf57c0faf)    case 5 => Word(0x4787c62a)    case 6 => Word(0xa8304613)    case 7 => Word(0xfd469501)
    case 8 => Word(0x698098d8)    case 9 => Word(0x8b44f7af)    case 10 => Word(0xffff5bb1)    case 11 => Word(0x895cd7be)
    case 12 => Word(0x6b901122)    case 13 => Word(0xfd987193)    case 14 => Word(0xa679438e)    case 15 => Word(0x49b40821)
  }

  function T2(j: nat): Word
    requires j < 16
  {
    match j
    case 0 => Word(0xf61e2562)    case 1 => Word(0xc040b340)    case 2 => Word(0x265e5a51)    case 3 => Word(0xe9b6c7aa)
    case 4 => Word(0xd62f105d)    case 5 => Word(0x02441453)    case 6 => Word(0xd8a1e681)    case 7 => Word(0xe7d3fbc8)
    case 8 => Word(0x21e1cde6)    case 9 => Word(0xc33707d6)    case 10 => Word(0xf4d50d87)    case 11 => Word(0x455a14ed)
    case 12 => Word(0xa9e3e905)    case 13 => Word(0xfcefa3f8)    case 14 => Word(0x676f02d9)    case 15 => Word(0x8d2a4c8a)
  }

  function T3(j: nat): Word
    requires j < 16
  {
    match j
    case 0 => Word(0xfffa3942)    case 1 => Word(0x8771f681)    case 2 => Word(0x6d9d6122)    case 3 => Word(0xfde5380c)
    case 4 => Word(0xa4beea44)    case 5 => Word(0x4bdecfa9)    case 6 => Word(0xf6bb4b60)    case 7 => Word(0xbebfbc70)
    case 8 => Word(0x289b7ec6)    case 9 => Word(0xeaa127fa)    case 10 => Word(0xd4ef3085)    case 11 => Word(0x04881d05)
    case 12 => Word(0xd9d4d039)    case 13 => Word(0xe6db99e5)    case 14 => Word(0x1fa27cf8)    case 15 => Word(0xc4ac5665)
  }

  function T4(j: nat): Word
    requires j < 16
  {
    match j
    case 0 => Word(0xf4292244)    case 1 => Word(0x432aff97)    case 2 => Word(0xab9423a7)    case 3 => Word(0xfc93a039)
    case 4 => Word(0x655b59c3)    case 5 => Word(0x8f0ccc92)    case 6 => Word(0xffeff47d)    case 7 => Word(0x85845dd1)
    case 8 => Word(0x6fa87e4f)    case 9 => Word(0xfe2ce6e0)    case 10 => Word(0xa3014314)    case 11 => Word(0x4e0811a1)
    case 12 => Word(0xf7537e82)    case 13 => Word(0xbd3af235)    case 14 => Word(0x2ad7d2bb)    case 15 => Word(0xeb86d391)
  }

  function T(i: nat): Word
    requires i < 64
  {
    if i < 16 then T1(i) else if i < 32 then T2(i - 16) else if i < 48 then T3(i - 32) else T4(i - 48)
  }

  type Block = x: seq<Word> | |x| == 16 witness seq(16, _ => Word(0))

  /** b + ((a + f + X[k] + T[i]) <<< s) */
  function AddTurnAdd(a: Word, f: Word, xk: Word, t: Word, s: nat, b: Word): Word
    requires 0 < s < 32
  {
    Plus(b, Rotl(Plus(a, Plus(f, Plus(xk, t))), s))
  }

  /** Operation `i` of section 3.4 on the four registers, which then trade places. */
  function Op(st: State, x: Block, i: nat): State
    requires i < 64
  {
    State(st.d, AddTurnAdd(st.a, Mix(Round(i), st.b, st.c, st.d), x[WordIndex(i)], T(i), Shift(i), st.b), st.b, st.c)
  }

  function Ops(st: State, x: Block, n: nat): State
    requires n <= 64
  {
    if n == 0 then st else Op(Ops(st, x, n - 1), x, n - 1)
  }

  function Compress(st: State, x: Block): State {
    var r := Ops(st, x, 4 * |x|);
    State(Plus(st.a, r.a), Plus(st.b, r.b), Plus(st.c, r.c), Plus(st.d, r.d))
  }

  function Plus(x: Word, y: Word): Word { Word(Add(x.v, y.v)) }

  function Add(x: bv32, y: bv32): bv32 { x + y }



  // ---------------------------------------------------------------------------------------------
  // The transform
  // ---------------------------------------------------------------------------------------------

  // The source's shorter forms of the auxiliary functions.
  function BitsF1(x: bv32, y: bv32, z: bv32): bv32 { z ^ (x & (y ^ z)) }
  function F1(x: Word, y: Word, z: Word): Word { Word(BitsF1(x.v, y.v, z.v)) }
  function F2(x: Word, y: Word, z: Word): Word { F1(z, x, y) }
  function F3(x: Word, y: Word, z: Word): Word { Word(x.v ^ y.v ^ z.v) }
  function F4(x: Word, y: Word, z: Word): Word { Word(y.v ^ (x.v | !z.v)) }

  // They compute the standard's.
  lemma BitsF1IsF(x: bv32, y: bv32, z: bv32)
    ensures BitsF1(x, y, z) == BitsF(x, y, z)
  {
    Select(x, y, z);
  }

  lemma Select(x: bv32, y: bv32, z: bv32)
    ensures z ^ (x & (y ^ z)) == (x & y) | (!x & z)
  {
  }

  lemma BitsF2IsG(x: bv32, y: bv32, z: bv32)
    ensures BitsF1(z, x, y) == BitsG(x, y, z)
  {
    SelectByLast(x, y, z);
  }

  lemma SelectByLast(x: bv32, y: bv32, z: bv32)
    ensures y ^ (z & (x ^ y)) == (x & z) | (y & !z)
  {
  }

  lemma ShortIsMix(round: nat, x: Word, y: Word, z: Word)
    ensures Short(round, x, y, z) == Mix(round, x, y, z)
  {
    BitsF1IsF(x.v, y.v, z.v);
    BitsF2IsG(x.v, y.v, z.v);
    hide BitsF, BitsG, BitsF1;
  }

  /** `MD5STEP` with the auxiliary function already applied: `w` is added to, turned, and `x` added. */
  function Md5Step(f: Word, w: Word, x: Word, data: Word, t: Word, s: nat): Word
    requires 0 < s < 32
  {
    Plus(Rotl(Plus(w, Plus(f, Plus(data, t))), s), x)
  }

  function Short(round: nat, x: Word, y: Word, z: Word): Word {
    if round == 0 then F1(x, y, z) else if round == 1 then F2(x, y, z)
    else if round == 2 then F3(x, y, z) else F4(x, y, z)
  }

  lemma AddCommutes(x: bv32, y: bv32)
    ensures Add(x, y) == Add(y, x)
  {
  }

  lemma StepIsSum(f: Word, w: Word, x: Word, data: Word, t: Word, s: nat)
    requires 0 < s < 32
    ensures Md5Step(f, w, x, data, t, s) == AddTurnAdd(w, f, data, t, s, x)
  {
    hide Add, Rotl;
    AddCommutes(x.v, Rotl(Plus(w, Plus(f, Plus(data, t))), s).v);
  }

  /** One `MD5STEP` line is one operation of the standard. */
  lemma StepIsOp(st: State, x: Block, i: nat)
    requires i < 64
    ensures Op(st, x, i)
         == State(st.d, Md5Step(Short(Round(i), st.b, st.c, st.d), st.a, st.b, x[WordIndex(i)], T(i), Shift(i)), st.b, st.c)
  {
    hide WordIndex, Shift, T, Mix, Short, Md5Step, AddTurnAdd;
    ShortIsMix(Round(i), st.b, st.c, st.d);
    StepIsSum(Mix(Round(i), st.b, st.c, st.d), st.a, st.b, x[WordIndex(i)], T(i), Shift(i));
  }

  lemma NextStep(first: State, x: Block, i: nat, a: Word, b: Word, c: Word, d: Word)
    requires i < 64 && Ops(first, x, i) == State(a, b, c, d)
    ensures Ops(first, x, i + 1)
         == State(d, Md5Step(Short(Round(i), b, c, d), a, b, x[WordIndex(i)], T(i), Shift(i)), b, c)
  {
    hide Op, WordIndex, Shift, T, Short, Md5Step;
    StepIsOp(State(a, b, c, d), x, i);
  }

  lemma NoOps(first: State, x: Block)
    ensures Ops(first, x, 0) == first
  {
  }


  /** Round 1 of the unrolled transform, first half. */
  method RoundOne(ghost first: State, ghost i: nat, st: State, input: Block) returns (r: State)
    requires i == 0 && st == Ops(first, input, i)
    ensures r == Ops(first, input, i + 8)
  {
    hide Md5Step, F1, F2, F3, F4, Op, Ops;
    var a, b, c, d := st.a, st.b, st.c, st.d;
    NextStep(first, input, 0, a, b, c, d);
    a := Md5Step(F1(b, c, d), a, b, input[0], Word(0xd76aa478), 7);
    NextStep(first, input, 1, d, a, b, c);
    d := Md5Step(F1(a, b, c), d, a, input[1], Word(0xe8c7b756), 12);
    NextStep(first, input, 2, c, d, a, b);
    c := Md5Step(F1(d, a, b), c, d, input[2], Word(0x242070db), 17);
    NextStep(first, input, 3, b, c, d, a);
    b := Md5Step(F1(c, d, a), b, c, input[3], Word(0xc1bdceee), 22);
    NextStep(first, input, 4, a, b, c, d);
    a := Md5Step(F1(b, c, d), a, b, input[4], Word(0xf57c0faf), 7);
    NextStep(first, input, 5, d, a, b, c);
    d := Md5Step(F1(a, b, c), d, a, input[5], Word(0x4787c62a), 12);
    NextStep(first, input, 6, c, d, a, b);
    c := Md5Step(F1(d, a, b), c, d, input[6], Word(0xa8304613), 17);
    NextStep(first, input, 7, b, c, d, a);
    b := Md5Step(F1(c, d, a), b, c, input[7], Word(0xfd469501), 22);
    r := State(a, b, c, d);
  }

  /** Round 1 of the unrolled transform, second half. */
  method RoundOneRest(ghost first: State, ghost i: nat, st: State, input: Block) returns (r: State)
    requires i == 8 && st == Ops(first, input, i)
    ensures r == Ops(first, input, i + 8)
  {
    hide Md5Step, F1, F2, F3, F4, Op, Ops;
    var a, b, c, d := st.a, st.b, st.c, st.d;
    NextStep(first, input, 8, a, b, c, d);
    a := Md5Step(F1(b, c, d), a, b, input[8], Word(0x698098d8), 7);
    NextStep(first, input, 9, d, a, b, c);
    d := Md5Step(F1(a, b, c), d, a, input[9], Word(0x8b44f7af), 12);
    NextStep(first, input, 10, c, d, a, b);
    c := Md5Step(F1(d, a, b), c, d, input[10], Word(0xffff5bb1), 17);
    NextStep(first, input, 11, b, c, d, a);
    b := Md5Step(F1(c, d, a), b, c, input[11], Word(0x895cd7be), 22);
    NextStep(first, input, 12, a, b, c, d);
    a := Md5Step(F1(b, c, d), a, b, input[12], Word(0x6b901122), 7);
    NextStep(first, input, 13, d, a, b, c);
    d := Md5Step(F1(a, b, c), d, a, input[13], Word(0xfd987193), 12);
    NextStep(first, input, 14, c, d, a, b);
    c := Md5Step(F1(d, a, b), c, d, input[14], Word(0xa679438e), 17);
    NextStep(first, input, 15, b, c, d, a);
    b := Md5Step(F1(c, d, a), b, c, input[15], Word(0x49b40821), 22);
    r := State(a, b, c, d);
  }

  /** Round 2 of the unrolled transform, first half. */
  method RoundTwo(ghost first: State, ghost i: nat, st: State, input: Block) returns (r: State)
    requires i == 16 && st == Ops(first, input, i)
    ensures r == Ops(first, input, i + 8)
  {
    hide Md5Step, F1, F2, F3, F4, Op, Ops;
    var a, b, c, d := st.a, st.b, st.c, st.d;
    NextStep(first, input, 16, a, b, c, d);
    a := Md5Step(F2(b, c, d), a, b, input[1], Word(0xf61e2562), 5);
    NextStep(first, input, 17, d, a, b, c);
    d := Md5Step(F2(a, b, c), d, a, input[6], Word(0xc040b340), 9);
    NextStep(first, input, 18, c, d, a, b);
    c := Md5Step(F2(d, a, b), c, d, input[11], Word(0x265e5a51), 14);
    NextStep(first, input, 19, b, c, d, a);
    b := Md5Step(F2(c, d, a), b, c, input[0], Word(0xe9b6c7aa), 20);
    NextStep(first, input, 20, a, b, c, d);
    a := Md5Step(F2(b, c, d), a, b, input[5], Word(0xd62f105d), 5);
    NextStep(first, input, 21, d, a, b, c);
    d := Md5Step(F2(a, b, c), d, a, input[10], Word(0x02441453), 9);
    NextStep(first, input, 22, c, d, a, b);
    c := Md5Step(F2(d, a, b), c, d, input[15], Word(0xd8a1e681), 14);
    NextStep(first, input, 23, b, c, d, a);
    b := Md5Step(F2(c, d, a), b, c, input[4], Word(0xe7d3fbc8), 20);
    r := State(a, b, c, d);
  }

  /** Round 2 of the unrolled transform, second half. */
  method RoundTwoRest(ghost first: State, ghost i: nat, st: State, input: Block) returns (r: State)
    requires i == 24 && st == Ops(first, input, i)
    ensures r == Ops(first, input, i + 8)
  {
    hide Md5Step, F1, F2, F3, F4, Op, Ops;
    var a, b, c, d := st.a, st.b, st.c, st.d;
    NextStep(first, input, 24, a, b, c, d);
    a := Md5Step(F2(b, c, d), a, b, input[9], Word(0x21e1cde6), 5);
    NextStep(first, input, 25, d, a, b, c);
    d := Md5Step(F2(a, b, c), d, a, input[14], Word(0xc33707d6), 9);
    NextStep(first, input, 26, c, d, a, b);
    c := Md5Step(F2(d, a, b), c, d, input[3], Word(0xf4d50d87), 14);
    NextStep(first, input, 27, b, c, d, a);
    b := Md5Step(F2(c, d, a), b, c, input[8], Word(0x455a14ed), 20);
    NextStep(first, input, 28, a, b, c, d);
    a := Md5Step(F2(b, c, d), a, b, input[13], Word(0xa9e3e905), 5);
    NextStep(first, input, 29, d, a, b, c);
    d := Md5Step(F2(a, b, c), d, a, input[2], Word(0xfcefa3f8), 9);
    NextStep(first, input, 30, c, d, a, b);
    c := Md5Step(F2(d, a, b), c, d, input[7], Word(0x676f02d9), 14);
    NextStep(first, input, 31, b, c, d, a);
    b := Md5Step(F2(c, d, a), b, c, input[12], Word(0x8d2a4c8a), 20);
    r := State(a, b, c, d);
  }

  /** Round 3 of the unrolled transform, first half. */
  method RoundThree(ghost first: State, ghost i: nat, st: State, input: Block) returns (r: State)
    requires i == 32 && st == Ops(first, input, i)
    ensures r == Ops(first, input, i + 8)
  {
    hide Md5Step, F1, F2, F3, F4, Op, Ops;
    var a, b, c, d := st.a, st.b, st.c, st.d;
    NextStep(first, input, 32, a, b, c, d);
    a := Md5Step(F3(b, c, d), a, b, input[5], Word(0xfffa3942), 4);
    NextStep(first, input, 33, d, a, b, c);
    d := Md5Step(F3(a, b, c), d, a, input[8], Word(0x8771f681), 11);
    NextStep(first, input, 34, c, d, a, b);
    c := Md5Step(F3(d, a, b), c, d, input[11], Word(0x6d9d6122), 16);
    NextStep(first, input, 35, b, c, d, a);
    b := Md5Step(F3(c, d, a), b, c, input[14], Word(0xfde5380c), 23);
    NextStep(first, input, 36, a, b, c, d);
    a := Md5Step(F3(b, c, d), a, b, input[1], Word(0xa4beea44), 4);
    NextStep(first, input, 37, d, a, b, c);
    d := Md5Step(F3(a, b, c), d, a, input[4], Word(0x4bdecfa9), 11);
    NextStep(first, input, 38, c, d, a, b);
    c := Md5Step(F3(d, a, b), c, d, input[7], Word(0xf6bb4b60), 16);
    NextStep(first, input, 39, b, c, d, a);
    b := Md5Step(F3(c, d, a), b, c, input[10], Word(0xbebfbc70), 23);
    r := State(a, b, c, d);
  }

  /** Round 3 of the unrolled transform, second half. */
  method RoundThreeRest(ghost first: State, ghost i: nat, st: State, input: Block) returns (r: State)
    requires i == 40 && st == Ops(first, input, i)
    ensures r == Ops(first, input, i + 8)
  {
    hide Md5Step, F1, F2, F3, F4, Op, Ops;
    var a, b, c, d := st.a, st.b, st.c, st.d;
    NextStep(first, input, 40, a, b, c, d);
    a := Md5Step(F3(b, c, d), a, b, input[13], Word(0x289b7ec6), 4);
    NextStep(first, input, 41, d, a, b, c);
    d := Md5Step(F3(a, b, c), d, a, input[0], Word(0xeaa127fa), 11);
    NextStep(first, input, 42, c, d, a, b);
    c := Md5Step(F3(d, a, b), c, d, input[3], Word(0xd4ef3085), 16);
    NextStep(first, input, 43, b, c, d, a);
    b := Md5Step(F3(c, d, a), b, c, input[6], Word(0x04881d05), 23);
    NextStep(first, input, 44, a, b, c, d);
    a := Md5Step(F3(b, c, d), a, b, input[9], Word(0xd9d4d039), 4);
    NextStep(first, input, 45, d, a, b, c);
    d := Md5Step(F3(a, b, c), d, a, input[12], Word(0xe6db99e5), 11);
    NextStep(first, input, 46, c, d, a, b);
    c := Md5Step(F3(d, a, b), c, d, input[15], Word(0x1fa27cf8), 16);
    NextStep(first, input, 47, b, c, d, a);
    b := Md5Step(F3(c, d, a), b, c, input[2], Word(0xc4ac5665), 23);
    r := State(a, b, c, d);
  }

  /** Round 4 of the unrolled transform, first half. */
  method RoundFour(ghost first: State, ghost i: nat, st: State, input: Block) returns (r: State)
    requires i == 48 && st == Ops(first, input, i)
    ensures r == Ops(first, input, i + 8)
  {
    hide Md5Step, F1, F2, F3, F4, Op, Ops;
    var a, b, c, d := st.a, st.b, st.c, st.d;
    NextStep(first, input, 48, a, b, c, d);
    a := Md5Step(F4(b, c, d), a, b, input[0], Word(0xf4292244), 6);
    NextStep(first, input, 49, d, a, b, c);
    d := Md5Step(F4(a, b, c), d, a, input[7], Word(0x432aff97), 10);
    NextStep(first, input, 50, c, d, a, b);
    c := Md5Step(F4(d, a, b), c, d, input[14], Word(0xab9423a7), 15);
    NextStep(first, input, 51, b, c, d, a);
    b := Md5Step(F4(c, d, a), b, c, input[5], Word(0xfc93a039), 21);
    NextStep(first, input, 52, a, b, c, d);
    a := Md5Step(F4(b, c, d), a, b, input[12], Word(0x655b59c3), 6);
    NextStep(first, input, 53, d, a, b, c);
    d := Md5Step(F4(a, b, c), d, a, input[3], Word(0x8f0ccc92), 10);
    NextStep(first, input, 54, c, d, a, b);
    c := Md5Step(F4(d, a, b), c, d, input[10], Word(0xffeff47d), 15);
    NextStep(first, input, 55, b, c, d, a);
    b := Md5Step(F4(c, d, a), b, c, input[1], Word(0x85845dd1), 21);
    r := State(a, b, c, d);
  }

  /** Round 4 of the unrolled transform, second half. */
  method RoundFourRest(ghost first: State, ghost i: nat, st: State, input: Block) returns (r: State)
    requires i == 56 && st == Ops(first, input, i)
    ensures r == Ops(first, input, i + 8)
  {
    hide Md5Step, F1, F2, F3, F4, Op, Ops;
    var a, b, c, d := st.a, st.b, st.c, st.d;
    NextStep(first, input, 56, a, b, c, d);
    a := Md5Step(F4(b, c, d), a, b, input[8], Word(0x6fa87e4f), 6);
    NextStep(first, input, 57, d, a, b, c);
    d := Md5Step(F4(a, b, c), d, a, input[15], Word(0xfe2ce6e0), 10);
    NextStep(first, input, 58, c, d, a, b);
    c := Md5Step(F4(d, a, b), c, d, input[6], Word(0xa3014314), 15);
    NextStep(first, input, 59, b, c, d, a);
    b := Md5Step(F4(c, d, a), b, c, input[13], Word(0x4e0811a1), 21);
    NextStep(first, input, 60, a, b, c, d);
    a := Md5Step(F4(b, c, d), a, b, input[4], Word(0xf7537e82), 6);
    NextStep(first, input, 61, d, a, b, c);
    d := Md5Step(F4(a, b, c), d, a, input[11], Word(0xbd3af235), 10);
    NextStep(first, input, 62, c, d, a, b);
    c := Md5Step(F4(d, a, b), c, d, input[2], Word(0x2ad7d2bb), 15);
    NextStep(first, input, 63, b, c, d, a);
    b := Md5Step(F4(c, d, a), b, c, input[9], Word(0xeb86d391), 21);
    r := State(a, b, c, d);
  }

  method AllRounds(st: State, input: Block) returns (r: State)
    ensures r == Ops(st, input, 4 * |input|)
  {
    NoOps(st, input);
    hide Ops;
    r := RoundOne(st, 0, st, input);
    r := RoundOneRest(st, 8, r, input);
    r := RoundTwo(st, 16, r, input);
    r := RoundTwoRest(st, 24, r, input);
    r := RoundThree(st, 32, r, input);
    r := RoundThreeRest(st, 40, r, input);
    r := RoundFour(st, 48, r, input);
    r := RoundFourRest(st, 56, r, input);
  }

  /** `MD5Transform`: the four registers in place, from sixteen words. */
  method Transform(buf: array<Word>, input: Block)
    requires buf.Length == 4
    modifies buf
    ensures Registers(buf) == Compress(old(Registers(buf)), input)
  {
    var st := State(buf[0], buf[1], buf[2], buf[3]);
    var r := AllRounds(st, input);
    hide Ops, Plus;
    buf[0], buf[1], buf[2], buf[3] := Plus(buf[0], r.a), Plus(buf[1], r.b), Plus(buf[2], r.c), Plus(buf[3], r.d);
  }

  function Registers(buf: array<Word>): State
    requires buf.Length == 4
    reads buf
  {
    State(buf[0], buf[1], buf[2], buf[3])
  }
}
