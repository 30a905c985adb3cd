/** The digest of "abc", which section A.5 of RFC 1321 gives, worked out from the definitions a step at a time. */
module Md5Known {
  import opened Bytes
  import opened Md5Transform
  import Md5

  /** The block that "abc" is padded to: its bytes and a bit more, zeros, and the count of 24 bits. */
  const ABC: Block :=
    [Word(0x80636261), Word(0), Word(0), Word(0), Word(0), Word(0), Word(0), Word(0),
     Word(0), Word(0), Word(0), Word(0), Word(0), Word(0), Word(24), Word(0)]

  const S0 := State(Word(0x67452301), Word(0xefcdab89), Word(0x98badcfe), Word(0x10325476))

  /** After `n` steps the registers are `s`; and the next puts `b` into the second. */
  lemma Worked(n: nat, s: State, x: Word, t: Word, turn: nat, f: Word, turned: Word, b: Word)
    requires n < 64 && Ops(S0, ABC, n) == s
    requires ABC[WordIndex(n)] == x && T(n) == t && Shift(n) == turn && Mix(Round(n), s.b, s.c, s.d) == f
    requires Rotl(Plus(s.a, Plus(f, Plus(x, t))), turn) == turned && Plus(s.b, turned) == b
    ensures Ops(S0, ABC, n + 1) == State(s.d, b, s.b, s.c)
  {
    hide Mix, Plus, Rotl, T, Shift, WordIndex;
  }

  lemma Start()
    ensures Ops(S0, ABC, 0) == S0
  {
  }

  lemma Step4()
    ensures Ops(S0, ABC, 4) == State(Word(0xd6d117b4), Word(0x7ad956f2), Word(0x2f6fbd72), Word(0x344a8432))
  {
    hide Ops;
    Start();
    Worked(0, State(Word(0x67452301), Word(0xefcdab89), Word(0x98badcfe), Word(0x10325476)), Word(0x80636261), Word(0xd76aa478), 7, Word(0x98badcfe), Word(0xe7036c2b), Word(0xd6d117b4));
    Worked(1, State(Word(0x10325476), Word(0xd6d117b4), Word(0xefcdab89), Word(0x98badcfe)), Word(0), Word(0xe8c7b756), 12, Word(0xceebcbca), Word(0x5d796c7e), Word(0x344a8432));
    Worked(2, State(Word(0x98badcfe), Word(0x344a8432), Word(0xd6d117b4), Word(0xefcdab89)), Word(0), Word(0x242070db), 17, Word(0xdfc52fb9), Word(0xfb253940), Word(0x2f6fbd72));
    Worked(3, State(Word(0xefcdab89), Word(0x2f6fbd72), Word(0x344a8432), Word(0xd6d117b4)), Word(0), Word(0xc1bdceee), 22, Word(0xf4da86b6), Word(0x4b699980), Word(0x7ad956f2));
  }

  lemma Step8()
    ensures Ops(S0, ABC, 8) == State(Word(0xc73741ef), Word(0x928d99f6), Word(0x207dc67b), Word(0x8bac3051))
  {
    hide Ops;
    Step4();
    Worked(4, State(Word(0xd6d117b4), Word(0x7ad956f2), Word(0x2f6fbd72), Word(0x344a8432)), Word(0), Word(0xf57c0faf), 7, Word(0x2e4b9472), Word(0x4c5deafd), Word(0xc73741ef));
    Worked(5, State(Word(0x344a8432), Word(0xc73741ef), Word(0x7ad956f2), Word(0x2f6fbd72)), Word(0), Word(0x4787c62a), 12, Word(0x6a59fcf2), Word(0xc474ee62), Word(0x8bac3051));
    Worked(6, State(Word(0x2f6fbd72), Word(0x8bac3051), Word(0xc73741ef), Word(0x7ad956f2)), Word(0), Word(0xa8304613), 17, Word(0xf37546e3), Word(0x94d1962a), Word(0x207dc67b));
    Worked(7, State(Word(0x7ad956f2), Word(0x207dc67b), Word(0x8bac3051), Word(0xc73741ef)), Word(0), Word(0xfd469501), 22, Word(0xc72e01d5), Word(0x720fd37b), Word(0x928d99f6));
  }

  lemma Step12()
    ensures Ops(S0, ABC, 12) == State(Word(0x854b3712), Word(0x5ed49596), Word(0x3020401c), Word(0x74e2f284))
  {
    hide Ops;
    Step8();
    Worked(8, State(Word(0xc73741ef), Word(0x928d99f6), Word(0x207dc67b), Word(0x8bac3051)), Word(0), Word(0x698098d8), 7, Word(0x092da073), Word(0xf2bd9d1c), Word(0x854b3712));
    Worked(9, State(Word(0x8bac3051), Word(0x854b3712), Word(0x928d99f6), Word(0x207dc67b)), Word(0), Word(0x8b44f7af), 12, Word(0xa03dd17b), Word(0xef97bb72), Word(0x74e2f284));
    Worked(10, State(Word(0x207dc67b), Word(0x74e2f284), Word(0x854b3712), Word(0x928d99f6)), Word(0), Word(0xffff5bb1), 17, Word(0x864f3b72), Word(0xbb3d4d98), Word(0x3020401c));
    Worked(11, State(Word(0x928d99f6), Word(0x3020401c), Word(0x74e2f284), Word(0x854b3712)), Word(0), Word(0x895cd7be), 22, Word(0xb56b7706), Word(0x2eb4557a), Word(0x5ed49596));
  }

  lemma Step16()
    ensures Ops(S0, ABC, 16) == State(Word(0xdda9b9a6), Word(0x72aff2e0), Word(0xe396856b), Word(0xa1051895))
  {
    hide Ops;
    Step12();
    Worked(12, State(Word(0x854b3712), Word(0x5ed49596), Word(0x3020401c), Word(0x74e2f284)), Word(0), Word(0x6b901122), 7, Word(0x30226214), Word(0x7ed52410), Word(0xdda9b9a6));
    Worked(13, State(Word(0x74e2f284), Word(0xdda9b9a6), Word(0x5ed49596), Word(0x3020401c)), Word(0), Word(0xfd987193), 12, Word(0x7c80d19e), Word(0xc35b5eef), Word(0xa1051895));
    Worked(14, State(Word(0x3020401c), Word(0xa1051895), Word(0xdda9b9a6), Word(0x5ed49596)), Word(0x00000018), Word(0xa679438e), 17, Word(0xdfd19d86), Word(0x42916cd6), Word(0xe396856b));
    Worked(15, State(Word(0x5ed49596), Word(0xe396856b), Word(0xa1051895), Word(0xdda9b9a6)), Word(0), Word(0x49b40821), 22, Word(0xbd2d3885), Word(0x8f196d75), Word(0x72aff2e0));
  }

  lemma Step20()
    ensures Ops(S0, ABC, 20) == State(Word(0x3e9e9126), Word(0xb5b204e4), Word(0xe25e1652), Word(0x4a1d804e))
  {
    hide Ops;
    Step16();
    Worked(16, State(Word(0xdda9b9a6), Word(0x72aff2e0), Word(0xe396856b), Word(0xa1051895)), Word(0), Word(0xf61e2562), 5, Word(0x629795ea), Word(0xcbee9e46), Word(0x3e9e9126));
    Worked(17, State(Word(0xa1051895), Word(0x3e9e9126), Word(0x72aff2e0), Word(0xe396856b)), Word(0), Word(0xc040b340), 9, Word(0x32bff3a2), Word(0x0b7eef28), Word(0x4a1d804e));
    Worked(18, State(Word(0xe396856b), Word(0x4a1d804e), Word(0x3e9e9126), Word(0x72aff2e0)), Word(0), Word(0x265e5a51), 14, Word(0x4e1d8146), Word(0x98409604), Word(0xe25e1652));
    Worked(19, State(Word(0x72aff2e0), Word(0xe25e1652), Word(0x4a1d804e), Word(0x3e9e9126)), Word(0x80636261), Word(0xe9b6c7aa), 20, Word(0x621f104a), Word(0xd353ee92), Word(0xb5b204e4));
  }

  lemma Step24()
    ensures Ops(S0, ABC, 24) == State(Word(0x59a8ffda), Word(0x47092c07), Word(0xabfc7920), Word(0x6d002f1e))
  {
    hide Ops;
    Step20();
    Worked(20, State(Word(0x3e9e9126), Word(0xb5b204e4), Word(0xe25e1652), Word(0x4a1d804e)), Word(0), Word(0xd62f105d), 5, Word(0xa0521654), Word(0xa3f6faf6), Word(0x59a8ffda));
    Worked(21, State(Word(0x4a1d804e), Word(0x59a8ffda), Word(0xb5b204e4), Word(0xe25e1652)), Word(0), Word(0x02441453), 9, Word(0x55a816f6), Word(0x13572f44), Word(0x6d002f1e));
    Worked(22, State(Word(0xe25e1652), Word(0x6d002f1e), Word(0x59a8ffda), Word(0xb5b204e4)), Word(0), Word(0xd8a1e681), 14, Word(0x6d08ff1e), Word(0x3efc4a02), Word(0xabfc7920));
    Worked(23, State(Word(0xb5b204e4), Word(0xabfc7920), Word(0x6d002f1e), Word(0x59a8ffda)), Word(0), Word(0xe7d3fbc8), 20, Word(0x2da87904), Word(0x9b0cb2e7), Word(0x47092c07));
  }

  lemma Step28()
    ensures Ops(S0, ABC, 28) == State(Word(0xb7f268cf), Word(0x786acb8f), Word(0xfe1623b1), Word(0x09388eff))
  {
    hide Ops;
    Step24();
    Worked(24, State(Word(0x59a8ffda), Word(0x47092c07), Word(0xabfc7920), Word(0x6d002f1e)), Word(0), Word(0x21e1cde6), 5, Word(0xc7fc7c26), Word(0x70e93cc8), Word(0xb7f268cf));
    Worked(25, State(Word(0x6d002f1e), Word(0xb7f268cf), Word(0x47092c07), Word(0xabfc7920)), Word(0x00000018), Word(0xc33707d6), 9, Word(0xe7f16c07), Word(0x51462630), Word(0x09388eff));
    Worked(26, State(Word(0xabfc7920), Word(0x09388eff), Word(0xb7f268cf), Word(0x47092c07)), Word(0), Word(0xf4d50d87), 14, Word(0xb1fa4ccf), Word(0xf4dd94b2), Word(0xfe1623b1));
    Worked(27, State(Word(0x47092c07), Word(0xfe1623b1), Word(0x09388eff), Word(0xb7f268cf)), Word(0), Word(0x455a14ed), 20, Word(0xbe1aa6b1), Word(0x7a54a7de), Word(0x786acb8f));
  }

  lemma Step32()
    ensures Ops(S0, ABC, 32) == State(Word(0x790a77fb), Word(0x726342d3), Word(0xa62884aa), Word(0x9f47e4f8))
  {
    hide Ops;
    Step28();
    Worked(28, State(Word(0xb7f268cf), Word(0x786acb8f), Word(0xfe1623b1), Word(0x09388eff)), Word(0), Word(0xa9e3e905), 5, Word(0xfe2eab8f), Word(0x009fac6c), Word(0x790a77fb));
    Worked(29, State(Word(0x09388eff), Word(0x790a77fb), Word(0x786acb8f), Word(0xfe1623b1)), Word(0), Word(0xfcefa3f8), 9, Word(0x786aebbf), Word(0x263d6cfd), Word(0x9f47e4f8));
    Worked(30, State(Word(0xfe1623b1), Word(0x9f47e4f8), Word(0x790a77fb), Word(0x786acb8f)), Word(0), Word(0x676f02d9), 14, Word(0x1942f4f8), Word(0x06e09fb2), Word(0xa62884aa));
    Worked(31, State(Word(0x786acb8f), Word(0xa62884aa), Word(0x9f47e4f8), Word(0x790a77fb)), Word(0), Word(0x8d2a4c8a), 20, Word(0xa64d84aa), Word(0xcc3abe29), Word(0x726342d3));
  }

  lemma Step36()
    ensures Ops(S0, ABC, 36) == State(Word(0xb3707ebf), Word(0x3b0875c7), Word(0x8d212ff5), Word(0x60127b2e))
  {
    hide Ops;
    Step32();
    Worked(32, State(Word(0x790a77fb), Word(0x726342d3), Word(0xa62884aa), Word(0x9f47e4f8)), Word(0), Word(0xfffa3942), 4, Word(0x4b0c2281), Word(0x410d3bec), Word(0xb3707ebf));
    Worked(33, State(Word(0x9f47e4f8), Word(0xb3707ebf), Word(0x726342d3), Word(0xa62884aa)), Word(0), Word(0x8771f681), 11, Word(0x673bb8c6), Word(0xaca1fc6f), Word(0x60127b2e));
    Worked(34, State(Word(0xa62884aa), Word(0x60127b2e), Word(0xb3707ebf), Word(0x726342d3)), Word(0), Word(0x6d9d6122), 16, Word(0xa1014742), Word(0x2d0eb4c7), Word(0x8d212ff5));
    Worked(35, State(Word(0x726342d3), Word(0x8d212ff5), Word(0x60127b2e), Word(0xb3707ebf)), Word(0x00000018), Word(0xfde5380c), 23, Word(0x5e432a64), Word(0xade745d2), Word(0x3b0875c7));
  }

  lemma Step40()
    ensures Ops(S0, ABC, 40) == State(Word(0x21b117b9), Word(0x5a2f5ea5), Word(0x3575227e), Word(0x6e7429d5))
  {
    hide Ops;
    Step36();
    Worked(36, State(Word(0xb3707ebf), Word(0x3b0875c7), Word(0x8d212ff5), Word(0x60127b2e)), Word(0), Word(0xa4beea44), 4, Word(0xd63b211c), Word(0xe6a8a1f2), Word(0x21b117b9));
    Worked(37, State(Word(0x60127b2e), Word(0x21b117b9), Word(0x3b0875c7), Word(0x8d212ff5)), Word(0), Word(0x4bdecfa9), 11, Word(0x97984d8b), Word(0x4cc3121c), Word(0x6e7429d5));
    Worked(38, State(Word(0x8d212ff5), Word(0x6e7429d5), Word(0x21b117b9), Word(0x3b0875c7)), Word(0), Word(0xf6bb4b60), 16, Word(0x74cd4bab), Word(0xc700f8a9), Word(0x3575227e));
    Worked(39, State(Word(0x3b0875c7), Word(0x3575227e), Word(0x6e7429d5), Word(0x21b117b9)), Word(0), Word(0xbebfbc70), 23, Word(0x7ab01c12), Word(0x24ba3c27), Word(0x5a2f5ea5));
  }

  lemma Step44()
    ensures Ops(S0, ABC, 44) == State(Word(0x11de1779), Word(0x4c6124f4), Word(0x31c465ca), Word(0xfadcaa38))
  {
    hide Ops;
    Step40();
    Worked(40, State(Word(0x21b117b9), Word(0x5a2f5ea5), Word(0x3575227e), Word(0x6e7429d5)), Word(0), Word(0x289b7ec6), 4, Word(0x012e550e), Word(0xb7aeb8d4), Word(0x11de1779));
    Worked(41, State(Word(0x6e7429d5), Word(0x11de1779), Word(0x5a2f5ea5), Word(0x3575227e)), Word(0x80636261), Word(0xeaa127fa), 11, Word(0x7e846ba2), Word(0xe8fe92bf), Word(0xfadcaa38));
    Worked(42, State(Word(0x3575227e), Word(0xfadcaa38), Word(0x11de1779), Word(0x5a2f5ea5)), Word(0), Word(0xd4ef3085), 16, Word(0xb12de3e4), Word(0x36e7bb92), Word(0x31c465ca));
    Worked(43, State(Word(0x5a2f5ea5), Word(0x31c465ca), Word(0xfadcaa38), Word(0x11de1779)), Word(0), Word(0x04881d05), 23, Word(0xdac6d88b), Word(0x1a9cbf2a), Word(0x4c6124f4));
  }

  lemma Step48()
    ensures Ops(S0, ABC, 48) == State(Word(0x7f2e507b), Word(0x7beb9700), Word(0x8fae6399), Word(0x99d9679d))
  {
    hide Ops;
    Step44();
    Worked(44, State(Word(0x11de1779), Word(0x4c6124f4), Word(0x31c465ca), Word(0xfadcaa38)), Word(0), Word(0xd9d4d039), 4, Word(0x8779eb06), Word(0x32cd2b87), Word(0x7f2e507b));
    Worked(45, State(Word(0xfadcaa38), Word(0x7f2e507b), Word(0x4c6124f4), Word(0x31c465ca)), Word(0), Word(0xe6db99e5), 11, Word(0x028b1145), Word(0x1aab1722), Word(0x99d9679d));
    Worked(46, State(Word(0x31c465ca), Word(0x99d9679d), Word(0x7f2e507b), Word(0x4c6124f4)), Word(0), Word(0x1fa27cf8), 16, Word(0xaa961312), Word(0xf5d4fbfc), Word(0x8fae6399));
    Worked(47, State(Word(0x4c6124f4), Word(0x8fae6399), Word(0x99d9679d), Word(0x7f2e507b)), Word(0), Word(0xc4ac5665), 23, Word(0x6959547f), Word(0xec3d3367), Word(0x7beb9700));
  }

  lemma Step52()
    ensures Ops(S0, ABC, 52) == State(Word(0x7b201df8), Word(0x8bf025c4), Word(0xb298cefd), Word(0xf4e8e96e))
  {
    hide Ops;
    Step48();
    Worked(48, State(Word(0x7f2e507b), Word(0x7beb9700), Word(0x8fae6399), Word(0x99d9679d)), Word(0x80636261), Word(0xf4292244), 6, Word(0xf041fcfb), Word(0xff3486f8), Word(0x7b201df8));
    Worked(49, State(Word(0x99d9679d), Word(0x7b201df8), Word(0x7beb9700), Word(0x8fae6399)), Word(0), Word(0x432aff97), 10, Word(0x009a0afe), Word(0x79c8cb76), Word(0xf4e8e96e));
    Worked(50, State(Word(0x8fae6399), Word(0xf4e8e96e), Word(0x7b201df8), Word(0x7beb9700)), Word(0x00000018), Word(0xab9423a7), 15, Word(0x8fdcf407), Word(0xbdafe58f), Word(0xb298cefd));
    Worked(51, State(Word(0x7beb9700), Word(0xb298cefd), Word(0xf4e8e96e), Word(0x7b201df8)), Word(0), Word(0xfc93a039), 21, Word(0x42370791), Word(0xd95756c7), Word(0x8bf025c4));
  }

  lemma Step56()
    ensures Ops(S0, ABC, 56) == State(Word(0x06cc5e8a), Word(0x3bfa2c27), Word(0x7d632dd0), Word(0x5b0d97aa))
  {
    hide Ops;
    Step52();
    Worked(52, State(Word(0x7b201df8), Word(0x8bf025c4), Word(0xb298cefd), Word(0xf4e8e96e)), Word(0), Word(0x655b59c3), 6, Word(0x396ff928), Word(0x7adc38c6), Word(0x06cc5e8a));
    Worked(53, State(Word(0xf4e8e96e), Word(0x06cc5e8a), Word(0x8bf025c4), Word(0xb298cefd)), Word(0), Word(0x8f0ccc92), 10, Word(0xc41f5a4e), Word(0x54413920), Word(0x5b0d97aa));
    Worked(54, State(Word(0xb298cefd), Word(0x5b0d97aa), Word(0x06cc5e8a), Word(0x8bf025c4)), Word(0), Word(0xffeff47d), 15, Word(0x79c38131), Word(0x22559626), Word(0x7d632dd0));
    Worked(55, State(Word(0x8bf025c4), Word(0x7d632dd0), Word(0x5b0d97aa), Word(0x06cc5e8a)), Word(0), Word(0x85845dd1), 21, Word(0xa67e3a5f), Word(0xbe96fe57), Word(0x3bfa2c27));
  }

  lemma Step60()
    ensures Ops(S0, ABC, 60) == State(Word(0x7f81cc35), Word(0x7327d604), Word(0x4f9dbe3f), Word(0x094454ab))
  {
    hide Ops;
    Step56();
    Worked(56, State(Word(0x06cc5e8a), Word(0x3bfa2c27), Word(0x7d632dd0), Word(0x5b0d97aa)), Word(0), Word(0x6fa87e4f), 6, Word(0xc29941a7), Word(0x4387a00e), Word(0x7f81cc35));
    Worked(57, State(Word(0x5b0d97aa), Word(0x7f81cc35), Word(0x3bfa2c27), Word(0x7d632dd0)), Word(0), Word(0xfe2ce6e0), 10, Word(0xc467f218), Word(0x89c28876), Word(0x094454ab));
    Worked(58, State(Word(0x7d632dd0), Word(0x094454ab), Word(0x7f81cc35), Word(0x3bfa2c27)), Word(0), Word(0xa3014314), 15, Word(0xb2c41bce), Word(0x46596994), Word(0x4f9dbe3f));
    Worked(59, State(Word(0x3bfa2c27), Word(0x4f9dbe3f), Word(0x094454ab), Word(0x7f81cc35)), Word(0), Word(0x4e0811a1), 21, Word(0xc6bbeb54), Word(0x238a17c5), Word(0x7327d604));
  }

  lemma Step64()
    ensures Ops(S0, ABC, 64) == State(Word(0x310ade8f), Word(0xc08226b3), Word(0xe484b9d8), Word(0x624d8cb2))
  {
    hide Ops;
    Step60();
    Worked(60, State(Word(0x7f81cc35), Word(0x7327d604), Word(0x4f9dbe3f), Word(0x094454ab)), Word(0), Word(0xf7537e82), 6, Word(0xb822416b), Word(0xbde3088b), Word(0x310ade8f));
    Worked(61, State(Word(0x094454ab), Word(0x310ade8f), Word(0x7327d604), Word(0x4f9dbe3f)), Word(0), Word(0xbd3af235), 10, Word(0xc24d09cb), Word(0x3142ae23), Word(0x624d8cb2));
    Worked(62, State(Word(0x4f9dbe3f), Word(0x624d8cb2), Word(0x310ade8f), Word(0x7327d604)), Word(0), Word(0x2ad7d2bb), 15, Word(0xdfd77374), Word(0x82372d26), Word(0xe484b9d8));
    Worked(63, State(Word(0x7327d604), Word(0xe484b9d8), Word(0x624d8cb2), Word(0x310ade8f)), Word(0), Word(0xeb86d391), 21, Word(0x8cb8354a), Word(0xdbfd6cdb), Word(0xc08226b3));
  }

  lemma Compressed()
    ensures Compress(S0, ABC) == State(Word(0x98500190), Word(0xb04fd23c), Word(0x7d3f96d6), Word(0x727fe128))
  {
    hide Ops;
    Step64();
  }

  /** The padded message, low bytes first. */
  lemma PaddedIs()
    ensures Md5.Padded(['a' as int, 'b' as int, 'c' as int]) == ABC
  {
    hide Md5.ToWord;
    var m: seq<Byte> := ['a' as int, 'b' as int, 'c' as int];
    var s := m + Md5.Padding(3);
    assert |s| == 56 && s[3] == 0x80 && forall i | 4 <= i < 56 :: s[i] == 0;
    FirstWord();
    var ws := Md5.ToWords(s);
    assert ws[0] == Md5.ToWord(s[0], s[1], s[2], s[3]);
    assert forall i | 1 <= i < 14 :: ws[i] == Md5.ToWord(0, 0, 0, 0);
    Length();
  }

  lemma FirstWord()
    ensures Md5.ToWord('a' as int, 'b' as int, 'c' as int, 0x80) == Word(0x80636261)
    ensures Md5.ToWord(0, 0, 0, 0) == Word(0)
  {
  }

  lemma Length()
    ensures Md5.LengthWords(3) == [Word(24), Word(0)]
  {
    hide Md5.IntWord;
    Count();
    assert 8 * 3 % Md5.TWO64 == 24 && 24 % Md5.TWO32 == 24 && 24 / Md5.TWO32 == 0;
  }

  lemma Count()
    ensures Md5.IntWord(24) == Word(24) && Md5.IntWord(0) == Word(0)
  {
  }

  /** MD5 ("abc") = 900150983cd24fb0d6963f7d28e17f72 */
  lemma DigestOfAbc()
    ensures Md5.Digest(['a' as int, 'b' as int, 'c' as int]) ==
              [0x90, 0x01, 0x50, 0x98, 0x3c, 0xd2, 0x4f, 0xb0, 0xd6, 0x96, 0x3f, 0x7d, 0x28, 0xe1, 0x7f, 0x72]
  {
    hide Compress, Md5.WordBytes, Md5.Padded;
    PaddedIs();
    assert ABC[..16] == ABC && ABC[16..] == [];
    Compressed();
    InBytes();
  }

  lemma InBytes()
    ensures Md5.WordBytes(Word(0x98500190)) == [0x90, 0x01, 0x50, 0x98]
    ensures Md5.WordBytes(Word(0xb04fd23c)) == [0x3c, 0xd2, 0x4f, 0xb0]
    ensures Md5.WordBytes(Word(0x7d3f96d6)) == [0xd6, 0x96, 0x3f, 0x7d]
    ensures Md5.WordBytes(Word(0x727fe128)) == [0x28, 0xe1, 0x7f, 0x72]
  {
  }
}
