/** The published examples of SHA-1 (FIPS 180-4), computed round by round from the definition. */
module Sha1Examples {
  import opened Bytes
  import opened Sha1

  // ---------------------------------------------------------------- the schedule bit by bit

  /** Bit `j` of a word; indices wrap around. */
  predicate BitOf(x: Word, j: bv5) {
    (x >> j) & 1 == 1
  }

  /** From word 16 on, each bit of the schedule is the exclusive or of four bits one place to its right in earlier words. */
  lemma ScheduleBits(block: seq<byte>, t: nat, j: bv5)
    requires |block| == 64 && t >= 16
    ensures BitOf(Schedule(block, t), j + 1) <==>
            (((BitOf(Schedule(block, t - 3), j) != BitOf(Schedule(block, t - 8), j))
              != BitOf(Schedule(block, t - 14), j)) != BitOf(Schedule(block, t - 16), j))
  {
    hide Schedule, Mix, BitOf;
    ScheduleStep(block, t);
    MixBit(Schedule(block, t - 3), Schedule(block, t - 8), Schedule(block, t - 14), Schedule(block, t - 16), j);
  }

  lemma MixBit(a: Word, b: Word, c: Word, d: Word, j: bv5)
    ensures BitOf(Mix(a, b, c, d), j + 1) <==> (((BitOf(a, j) != BitOf(b, j)) != BitOf(c, j)) != BitOf(d, j))
  {
    hide Rol, BitOf;
    RolBit(a ^ b ^ c ^ d, j);
    XorBit(a, b, c, d, j);
  }

  lemma XorBit(a: Word, b: Word, c: Word, d: Word, j: bv5)
    ensures BitOf(a ^ b ^ c ^ d, j) <==> (((BitOf(a, j) != BitOf(b, j)) != BitOf(c, j)) != BitOf(d, j))
  {
    ShiftedXor(a, b, c, d, j);
  }

  lemma ShiftedXor(a: Word, b: Word, c: Word, d: Word, j: bv5)
    ensures ((a ^ b ^ c ^ d) >> j) & 1 == 1 <==>
            (((((a >> j) & 1 == 1) != ((b >> j) & 1 == 1)) != ((c >> j) & 1 == 1)) != ((d >> j) & 1 == 1))
  {
  }

  lemma RolBit(x: Word, j: bv5)
    ensures BitOf(Rol(x, 1), j + 1) <==> BitOf(x, j)
  {
    hide Rol;
    RolOne(x);
    NextBit(x, j);
  }

  lemma RolIs(x: Word, n: nat)
    requires n <= 32
    ensures Rol(x, n) == (x << n) | (x >> (32 - n))
  {
  }

  lemma RolOne(x: Word)
    ensures Rol(x, 1) == (x << 1) | (x >> 31)
  {
    RolIs(x, 1);
    hide Rol;
    assert 32 - 1 == 31;
  }

  lemma NextBit(x: Word, j: bv5)
    ensures (((x << 1) | (x >> 31)) >> (j + 1)) & 1 == (x >> j) & 1
  {
  }

  // ---------------------------------------------------------------- a compression by its first variable

  /** The last five values of the first variable give the state before round `t`. */
  predicate Runs(h: Vars, b: seq<byte>, t: nat, p: Word, q: Word, r: Word, s: Word, u: Word)
    requires |b| == 64
  {
    Rounds(h, b, t) == Vars(p, q, Rol(r, 30), Rol(s, 30), Rol(u, 30))
  }

  lemma OneRound(h: Vars, b: seq<byte>, t: nat, p: Word, q: Word, r: Word, s: Word, u: Word, w: Word)
    requires |b| == 64 && Runs(h, b, t, p, q, r, s, u) && Schedule(b, t) == w
    ensures Runs(h, b, t + 1, Sum(Rol(p, 5), F(t, q, Rol(r, 30), Rol(s, 30)), Rol(u, 30), K(t), w), p, q, r, s)
  {
    hide Rounds, Schedule, Sum, F, K, Rol;
    RoundsStep(h, b, t);
  }

  predicate Words(b: seq<byte>, t: nat, w0: Word, w1: Word, w2: Word, w3: Word, w4: Word, w5: Word, w6: Word, w7: Word)
    requires |b| == 64
  {
    && w0 == Schedule(b, t) && w1 == Schedule(b, t + 1) && w2 == Schedule(b, t + 2) && w3 == Schedule(b, t + 3)
    && w4 == Schedule(b, t + 4) && w5 == Schedule(b, t + 5) && w6 == Schedule(b, t + 6) && w7 == Schedule(b, t + 7)
  }

  /** Eight rounds, given the words and the values they lead to. */
  lemma EightRounds(h: Vars, b: seq<byte>, t: nat, a0: Word, a1: Word, a2: Word, a3: Word, a4: Word,
                    w0: Word, w1: Word, w2: Word, w3: Word, w4: Word, w5: Word, w6: Word, w7: Word,
                    x0: Word, x1: Word, x2: Word, x3: Word, x4: Word, x5: Word, x6: Word, x7: Word)
    requires |b| == 64 && Runs(h, b, t, a4, a3, a2, a1, a0) && Words(b, t, w0, w1, w2, w3, w4, w5, w6, w7)
    requires x0 == Sum(Rol(a4, 5), F(t, a3, Rol(a2, 30), Rol(a1, 30)), Rol(a0, 30), K(t), w0)
    requires x1 == Sum(Rol(x0, 5), F(t + 1, a4, Rol(a3, 30), Rol(a2, 30)), Rol(a1, 30), K(t + 1), w1)
    requires x2 == Sum(Rol(x1, 5), F(t + 2, x0, Rol(a4, 30), Rol(a3, 30)), Rol(a2, 30), K(t + 2), w2)
    requires x3 == Sum(Rol(x2, 5), F(t + 3, x1, Rol(x0, 30), Rol(a4, 30)), Rol(a3, 30), K(t + 3), w3)
    requires x4 == Sum(Rol(x3, 5), F(t + 4, x2, Rol(x1, 30), Rol(x0, 30)), Rol(a4, 30), K(t + 4), w4)
    requires x5 == Sum(Rol(x4, 5), F(t + 5, x3, Rol(x2, 30), Rol(x1, 30)), Rol(x0, 30), K(t + 5), w5)
    requires x6 == Sum(Rol(x5, 5), F(t + 6, x4, Rol(x3, 30), Rol(x2, 30)), Rol(x1, 30), K(t + 6), w6)
    requires x7 == Sum(Rol(x6, 5), F(t + 7, x5, Rol(x4, 30), Rol(x3, 30)), Rol(x2, 30), K(t + 7), w7)
    ensures Runs(h, b, t + 8, x7, x6, x5, x4, x3)
  {
    hide Runs, Schedule, Sum, F, K, Rol;
    OneRound(h, b, t, a4, a3, a2, a1, a0, w0);
    OneRound(h, b, t + 1, x0, a4, a3, a2, a1, w1);
    OneRound(h, b, t + 2, x1, x0, a4, a3, a2, w2);
    OneRound(h, b, t + 3, x2, x1, x0, a4, a3, w3);
    OneRound(h, b, t + 4, x3, x2, x1, x0, a4, w4);
    OneRound(h, b, t + 5, x4, x3, x2, x1, x0, w5);
    OneRound(h, b, t + 6, x5, x4, x3, x2, x1, w6);
    OneRound(h, b, t + 7, x6, x5, x4, x3, x2, w7);
  }

  /** The next eight words, given the last sixteen. */
  lemma EightWords(b: seq<byte>, t: nat, w0: Word, w1: Word, w2: Word, w3: Word, w4: Word, w5: Word, w6: Word, w7: Word,
                   v0: Word, v1: Word, v2: Word, v3: Word, v4: Word, v5: Word, v6: Word, v7: Word,
                   x0: Word, x1: Word, x2: Word, x3: Word, x4: Word, x5: Word, x6: Word, x7: Word)
    requires |b| == 64 && Words(b, t, w0, w1, w2, w3, w4, w5, w6, w7) && Words(b, t + 8, v0, v1, v2, v3, v4, v5, v6, v7)
    requires x0 == Mix(v5, v0, w2, w0) && x1 == Mix(v6, v1, w3, w1)
    requires x2 == Mix(v7, v2, w4, w2) && x3 == Mix(x0, v3, w5, w3)
    requires x4 == Mix(x1, v4, w6, w4) && x5 == Mix(x2, v5, w7, w5)
    requires x6 == Mix(x3, v6, v0, w6) && x7 == Mix(x4, v7, v1, w7)
    ensures Words(b, t + 16, x0, x1, x2, x3, x4, x5, x6, x7)
  {
    hide Schedule, Mix;
    ScheduleStep(b, t + 16);
    ScheduleStep(b, t + 17);
    ScheduleStep(b, t + 18);
    ScheduleStep(b, t + 19);
    ScheduleStep(b, t + 20);
    ScheduleStep(b, t + 21);
    ScheduleStep(b, t + 22);
    ScheduleStep(b, t + 23);
  }

  // The message of three letters

  lemma ShortWords(b: seq<byte>)
    requires |b| == 64
    requires Words(b, 0, 0x61626380, 0x00000000, 0x00000000, 0x00000000, 0x00000000, 0x00000000, 0x00000000, 0x00000000)
    requires Words(b, 8, 0x00000000, 0x00000000, 0x00000000, 0x00000000, 0x00000000, 0x00000000, 0x00000000, 0x00000018)
    ensures Words(b, 16, 0xc2c4c700, 0x00000000, 0x00000030, 0x85898e01, 0x00000000, 0x00000060, 0x0b131c03, 0x00000030)
    ensures Words(b, 24, 0x85898ec1, 0x16263806, 0x00000000, 0x00000180, 0x2c4c700c, 0x000000f0, 0x93afb507, 0x5898e048)
    ensures Words(b, 32, 0x8e9a9202, 0x00000600, 0xb131c0f0, 0x16263bc6, 0x4ebed41e, 0x626380a1, 0x16263806, 0x000018c0)
    ensures Words(b, 40, 0xd2e138c4, 0x00000f00, 0x3afb5079, 0x898e04e5, 0xe2ba3c2b, 0x000060c0, 0x053a37cd, 0x74458547)
    ensures Words(b, 48, 0xda9415ed, 0x26380a16, 0x626383a1, 0x4ebf54de, 0x3835b44b, 0x0000f600, 0x1e84c7a3, 0x98e04d98)
    ensures Words(b, 56, 0x651d16a0, 0x62658ca1, 0x458544d6, 0x44584cb7, 0x7ba06619, 0x6380aea2, 0x0ae55269, 0x627b49a1)
    ensures Words(b, 64, 0x7cd45c9d, 0x000f0000, 0xfb50753a, 0xec6765e8, 0xba3c2be2, 0x0060c000, 0x3a37cd05, 0x458546f4)
    ensures Words(b, 72, 0xb8599dd6, 0x380a1a26, 0x01e02203, 0xe7cc3456, 0xe6e60b69, 0x00f60a00, 0x5795ef4f, 0x822e0879)
  {
    hide Words;
    EightWords(b, 0, 0x61626380, 0x00000000, 0x00000000, 0x00000000, 0x00000000, 0x00000000, 0x00000000, 0x00000000,
               0x00000000, 0x00000000, 0x00000000, 0x00000000, 0x00000000, 0x00000000, 0x00000000, 0x00000018,
               0xc2c4c700, 0x00000000, 0x00000030, 0x85898e01, 0x00000000, 0x00000060, 0x0b131c03, 0x00000030);
    EightWords(b, 8, 0x00000000, 0x00000000, 0x00000000, 0x00000000, 0x00000000, 0x00000000, 0x00000000, 0x00000018,
               0xc2c4c700, 0x00000000, 0x00000030, 0x85898e01, 0x00000000, 0x00000060, 0x0b131c03, 0x00000030,
               0x85898ec1, 0x16263806, 0x00000000, 0x00000180, 0x2c4c700c, 0x000000f0, 0x93afb507, 0x5898e048);
    EightWords(b, 16, 0xc2c4c700, 0x00000000, 0x00000030, 0x85898e01, 0x00000000, 0x00000060, 0x0b131c03, 0x00000030,
               0x85898ec1, 0x16263806, 0x00000000, 0x00000180, 0x2c4c700c, 0x000000f0, 0x93afb507, 0x5898e048,
               0x8e9a9202, 0x00000600, 0xb131c0f0, 0x16263bc6, 0x4ebed41e, 0x626380a1, 0x16263806, 0x000018c0);
    EightWords(b, 24, 0x85898ec1, 0x16263806, 0x00000000, 0x00000180, 0x2c4c700c, 0x000000f0, 0x93afb507, 0x5898e048,
               0x8e9a9202, 0x00000600, 0xb131c0f0, 0x16263bc6, 0x4ebed41e, 0x626380a1, 0x16263806, 0x000018c0,
               0xd2e138c4, 0x00000f00, 0x3afb5079, 0x898e04e5, 0xe2ba3c2b, 0x000060c0, 0x053a37cd, 0x74458547);
    EightWords(b, 32, 0x8e9a9202, 0x00000600, 0xb131c0f0, 0x16263bc6, 0x4ebed41e, 0x626380a1, 0x16263806, 0x000018c0,
               0xd2e138c4, 0x00000f00, 0x3afb5079, 0x898e04e5, 0xe2ba3c2b, 0x000060c0, 0x053a37cd, 0x74458547,
               0xda9415ed, 0x26380a16, 0x626383a1, 0x4ebf54de, 0x3835b44b, 0x0000f600, 0x1e84c7a3, 0x98e04d98);
    EightWords(b, 40, 0xd2e138c4, 0x00000f00, 0x3afb5079, 0x898e04e5, 0xe2ba3c2b, 0x000060c0, 0x053a37cd, 0x74458547,
               0xda9415ed, 0x26380a16, 0x626383a1, 0x4ebf54de, 0x3835b44b, 0x0000f600, 0x1e84c7a3, 0x98e04d98,
               0x651d16a0, 0x62658ca1, 0x458544d6, 0x44584cb7, 0x7ba06619, 0x6380aea2, 0x0ae55269, 0x627b49a1);
    EightWords(b, 48, 0xda9415ed, 0x26380a16, 0x626383a1, 0x4ebf54de, 0x3835b44b, 0x0000f600, 0x1e84c7a3, 0x98e04d98,
               0x651d16a0, 0x62658ca1, 0x458544d6, 0x44584cb7, 0x7ba06619, 0x6380aea2, 0x0ae55269, 0x627b49a1,
               0x7cd45c9d, 0x000f0000, 0xfb50753a, 0xec6765e8, 0xba3c2be2, 0x0060c000, 0x3a37cd05, 0x458546f4);
    EightWords(b, 56, 0x651d16a0, 0x62658ca1, 0x458544d6, 0x44584cb7, 0x7ba06619, 0x6380aea2, 0x0ae55269, 0x627b49a1,
               0x7cd45c9d, 0x000f0000, 0xfb50753a, 0xec6765e8, 0xba3c2be2, 0x0060c000, 0x3a37cd05, 0x458546f4,
               0xb8599dd6, 0x380a1a26, 0x01e02203, 0xe7cc3456, 0xe6e60b69, 0x00f60a00, 0x5795ef4f, 0x822e0879);
  }

  lemma ShortRounds0(h: Vars, b: seq<byte>)
    requires |b| == 64 && Runs(h, b, 0, 0x67452301, 0xefcdab89, 0x62eb73fa, 0x40c951d8, 0x0f4b87c3)
    requires Words(b, 0, 0x61626380, 0x00000000, 0x00000000, 0x00000000, 0x00000000, 0x00000000, 0x00000000, 0x00000000)
    requires Words(b, 8, 0x00000000, 0x00000000, 0x00000000, 0x00000000, 0x00000000, 0x00000000, 0x00000000, 0x00000018)
    ensures Runs(h, b, 16, 0x20bdd62f, 0x196bee77, 0x9128f695, 0x4607b664, 0x63188fe4)
  {
    hide Runs, Words;
    EightRounds(h, b, 0, 0x0f4b87c3, 0x40c951d8, 0x62eb73fa, 0xefcdab89, 0x67452301,
                0x61626380, 0x00000000, 0x00000000, 0x00000000, 0x00000000, 0x00000000, 0x00000000, 0x00000000,
                0x0116fc33, 0x8990536d, 0xa1390f08, 0xcdd8e11b, 0xcfd499de, 0x3fc7ca40, 0x993e30c1, 0x9e8c07d4);
    EightRounds(h, b, 8, 0xcdd8e11b, 0xcfd499de, 0x3fc7ca40, 0x993e30c1, 0x9e8c07d4,
                0x00000000, 0x00000000, 0x00000000, 0x00000000, 0x00000000, 0x00000000, 0x00000000, 0x00000018,
                0x4b6ae328, 0x8351f929, 0xfbda9e89, 0x63188fe4, 0x4607b664, 0x9128f695, 0x196bee77, 0x20bdd62f);
  }

  lemma ShortRounds1(h: Vars, b: seq<byte>)
    requires |b| == 64 && Runs(h, b, 16, 0x20bdd62f, 0x196bee77, 0x9128f695, 0x4607b664, 0x63188fe4)
    requires Words(b, 16, 0xc2c4c700, 0x00000000, 0x00000030, 0x85898e01, 0x00000000, 0x00000060, 0x0b131c03, 0x00000030)
    requires Words(b, 24, 0x85898ec1, 0x16263806, 0x00000000, 0x00000180, 0x2c4c700c, 0x000000f0, 0x93afb507, 0x5898e048)
    ensures Runs(h, b, 32, 0x3b845d33, 0x1267b407, 0xc5fbaf5d, 0x8370b52e, 0x4aa84d97)
  {
    hide Runs, Words;
    EightRounds(h, b, 16, 0x63188fe4, 0x4607b664, 0x9128f695, 0x196bee77, 0x20bdd62f,
                0xc2c4c700, 0x00000000, 0x00000030, 0x85898e01, 0x00000000, 0x00000060, 0x0b131c03, 0x00000030,
                0x4e925823, 0x82aa6728, 0xdc64901d, 0xfd9e1d7d, 0x1a37b0ca, 0x33a23bfc, 0x21283486, 0xd541f12d);
    EightRounds(h, b, 24, 0xfd9e1d7d, 0x1a37b0ca, 0x33a23bfc, 0x21283486, 0xd541f12d,
                0x85898ec1, 0x16263806, 0x00000000, 0x00000180, 0x2c4c700c, 0x000000f0, 0x93afb507, 0x5898e048,
                0xc7567dc6, 0x48413ba4, 0xbe35fbd5, 0x4aa84d97, 0x8370b52e, 0xc5fbaf5d, 0x1267b407, 0x3b845d33);
  }

  lemma ShortRounds2(h: Vars, b: seq<byte>)
    requires |b| == 64 && Runs(h, b, 32, 0x3b845d33, 0x1267b407, 0xc5fbaf5d, 0x8370b52e, 0x4aa84d97)
    requires Words(b, 32, 0x8e9a9202, 0x00000600, 0xb131c0f0, 0x16263bc6, 0x4ebed41e, 0x626380a1, 0x16263806, 0x000018c0)
    requires Words(b, 40, 0xd2e138c4, 0x00000f00, 0x3afb5079, 0x898e04e5, 0xe2ba3c2b, 0x000060c0, 0x053a37cd, 0x74458547)
    ensures Runs(h, b, 48, 0xbead02ca, 0xa01b846c, 0x1c51e1f2, 0x40f28e09, 0xee1b1aaf)
  {
    hide Runs, Words;
    EightRounds(h, b, 32, 0x4aa84d97, 0x8370b52e, 0xc5fbaf5d, 0x1267b407, 0x3b845d33,
                0x8e9a9202, 0x00000600, 0xb131c0f0, 0x16263bc6, 0x4ebed41e, 0x626380a1, 0x16263806, 0x000018c0,
                0x046faa0a, 0x2c0ebc11, 0x21796ad4, 0xdcbbb0cb, 0x0f511fd8, 0xdc63973f, 0x4c986405, 0x32de1cba);
    EightRounds(h, b, 40, 0xdcbbb0cb, 0x0f511fd8, 0xdc63973f, 0x4c986405, 0x32de1cba,
                0xd2e138c4, 0x00000f00, 0x3afb5079, 0x898e04e5, 0xe2ba3c2b, 0x000060c0, 0x053a37cd, 0x74458547,
                0xfc87dedf, 0x970a0d5c, 0x7f193dc5, 0xee1b1aaf, 0x40f28e09, 0x1c51e1f2, 0xa01b846c, 0xbead02ca);
  }

  lemma ShortRounds3(h: Vars, b: seq<byte>)
    requires |b| == 64 && Runs(h, b, 48, 0xbead02ca, 0xa01b846c, 0x1c51e1f2, 0x40f28e09, 0xee1b1aaf)
    requires Words(b, 48, 0xda9415ed, 0x26380a16, 0x626383a1, 0x4ebf54de, 0x3835b44b, 0x0000f600, 0x1e84c7a3, 0x98e04d98)
    requires Words(b, 56, 0x651d16a0, 0x62658ca1, 0x458544d6, 0x44584cb7, 0x7ba06619, 0x6380aea2, 0x0ae55269, 0x627b49a1)
    ensures Runs(h, b, 64, 0x6b61c9e1, 0xb66c020b, 0x548c9cb2, 0xd756c147, 0x3f52de5a)
  {
    hide Runs, Words;
    EightRounds(h, b, 48, 0xee1b1aaf, 0x40f28e09, 0x1c51e1f2, 0xa01b846c, 0xbead02ca,
                0xda9415ed, 0x26380a16, 0x626383a1, 0x4ebf54de, 0x3835b44b, 0x0000f600, 0x1e84c7a3, 0x98e04d98,
                0xbaf39337, 0x120731c5, 0x641db2ce, 0x3847ad66, 0xe490436d, 0x27e9f1d8, 0x7b71f76d, 0x5e6456af);
    EightRounds(h, b, 56, 0x3847ad66, 0xe490436d, 0x27e9f1d8, 0x7b71f76d, 0x5e6456af,
                0x651d16a0, 0x62658ca1, 0x458544d6, 0x44584cb7, 0x7ba06619, 0x6380aea2, 0x0ae55269, 0x627b49a1,
                0xc846093f, 0xd262ff50, 0x09d785fd, 0x3f52de5a, 0xd756c147, 0x548c9cb2, 0xb66c020b, 0x6b61c9e1);
  }

  lemma ShortRounds4(h: Vars, b: seq<byte>)
    requires |b| == 64 && Runs(h, b, 64, 0x6b61c9e1, 0xb66c020b, 0x548c9cb2, 0xd756c147, 0x3f52de5a)
    requires Words(b, 64, 0x7cd45c9d, 0x000f0000, 0xfb50753a, 0xec6765e8, 0xba3c2be2, 0x0060c000, 0x3a37cd05, 0x458546f4)
    requires Words(b, 72, 0xb8599dd6, 0x380a1a26, 0x01e02203, 0xe7cc3456, 0xe6e60b69, 0x00f60a00, 0x5795ef4f, 0x822e0879)
    ensures Runs(h, b, 80, 0x42541b35, 0x5738d5e1, 0x860d21cc, 0xa079b7d9, 0x63f7dab7)
  {
    hide Runs, Words;
    EightRounds(h, b, 64, 0x3f52de5a, 0xd756c147, 0x548c9cb2, 0xb66c020b, 0x6b61c9e1,
                0x7cd45c9d, 0x000f0000, 0xfb50753a, 0xec6765e8, 0xba3c2be2, 0x0060c000, 0x3a37cd05, 0x458546f4,
                0x19dfa7ac, 0x101655f9, 0x0c3df2b4, 0x78dd4d2b, 0x497093c0, 0x3f2588c2, 0xc199f8c7, 0x39859de7);
    EightRounds(h, b, 72, 0x78dd4d2b, 0x497093c0, 0x3f2588c2, 0xc199f8c7, 0x39859de7,
                0xb8599dd6, 0x380a1a26, 0x01e02203, 0xe7cc3456, 0xe6e60b69, 0x00f60a00, 0x5795ef4f, 0x822e0879,
                0xedb42de4, 0x11793f6f, 0x5ee76897, 0x63f7dab7, 0xa079b7d9, 0x860d21cc, 0x5738d5e1, 0x42541b35);
  }

  lemma ShortCompressed(b: seq<byte>)
    requires |b| == 64
    requires Words(b, 0, 0x61626380, 0x00000000, 0x00000000, 0x00000000, 0x00000000, 0x00000000, 0x00000000, 0x00000000)
    requires Words(b, 8, 0x00000000, 0x00000000, 0x00000000, 0x00000000, 0x00000000, 0x00000000, 0x00000000, 0x00000018)
    ensures Compress(Vars(0x67452301, 0xefcdab89, 0x98badcfe, 0x10325476, 0xc3d2e1f0), b) ==
            Vars(0xa9993e36, 0x4706816a, 0xba3e2571, 0x7850c26c, 0x9cd0d89d)
  {
    hide Words, Runs;
    var h := Vars(0x67452301, 0xefcdab89, 0x98badcfe, 0x10325476, 0xc3d2e1f0);
    ShortWords(b);
    assert Runs(h, b, 0, 0x67452301, 0xefcdab89, 0x62eb73fa, 0x40c951d8, 0x0f4b87c3) by { ShortStart(b); }
    ShortRounds0(h, b);
    ShortRounds1(h, b);
    ShortRounds2(h, b);
    ShortRounds3(h, b);
    ShortRounds4(h, b);
    ShortEnd(h, b);
  }

  lemma ShortStart(b: seq<byte>)
    requires |b| == 64
    ensures Runs(Vars(0x67452301, 0xefcdab89, 0x98badcfe, 0x10325476, 0xc3d2e1f0), b, 0, 0x67452301, 0xefcdab89, 0x62eb73fa, 0x40c951d8, 0x0f4b87c3)
  {
    hide Schedule;
  }

  lemma ShortEnd(h: Vars, b: seq<byte>)
    requires |b| == 64 && h == Vars(0x67452301, 0xefcdab89, 0x98badcfe, 0x10325476, 0xc3d2e1f0)
    requires Runs(h, b, 80, 0x42541b35, 0x5738d5e1, 0x860d21cc, 0xa079b7d9, 0x63f7dab7)
    ensures Compress(h, b) == Vars(0xa9993e36, 0x4706816a, 0xba3e2571, 0x7850c26c, 0x9cd0d89d)
  {
    hide Rounds;
  }

  // The message of 56 letters, its first block

  lemma LongWords(b: seq<byte>)
    requires |b| == 64
    requires Words(b, 0, 0x61626364, 0x62636465, 0x63646566, 0x64656667, 0x65666768, 0x66676869, 0x6768696a, 0x68696a6b)
    requires Words(b, 8, 0x696a6b6c, 0x6a6b6c6d, 0x6b6c6d6e, 0x6c6d6e6f, 0x6d6e6f70, 0x6e6f7071, 0x80000000, 0x00000000)
    ensures Words(b, 16, 0x0a063a3e, 0xd8dadcdf, 0xdadcdec0, 0xc8d2b4be, 0x6f757b5b, 0x757b5967, 0x8da16d70, 0xdaeefaba)
    ensures Words(b, 24, 0xfaf6cab6, 0xa6fb675a, 0x0c604cc8, 0x604cc02c, 0x49c0e6e2, 0x2ee8cbbc, 0xcfd72ec4, 0x97e9810e)
    ensures Words(b, 32, 0x0989cbe8, 0xf24843fe, 0x5c40d0ba, 0xa8d9cc3b, 0xb2b9666e, 0xba7b71b7, 0x20b28a72, 0xb28af500)
    ensures Words(b, 40, 0x8ac87842, 0x289addf4, 0x56d51f21, 0xd96b7fd2, 0x3868e778, 0xab5e4848, 0x7f0e2118, 0xde87a111)
    ensures Words(b, 48, 0xe8be56b0, 0x1a0ae652, 0xcd5611c8, 0x46ef29dc, 0x60d3da6d, 0xddf3ba6e, 0x2737f5e9, 0x4888a710)
    ensures Words(b, 56, 0xd2a1177b, 0x9999633b, 0xd6c69d03, 0xccf6127b, 0x7c58fe6d, 0xfdd99c68, 0xf8e32074, 0xe0ba3c7d)
    ensures Words(b, 64, 0x152198d6, 0x7b3f1982, 0x37f2d5b7, 0x8596323e, 0x810790d6, 0xbea0a942, 0x11c7e1b1, 0x6158d101)
    ensures Words(b, 72, 0x5fcd77d9, 0x7f2f12e6, 0xf868cfb1, 0xd6e997e9, 0xf526b852, 0xb7578dcc, 0x55d99df4, 0x1ff69958)
  {
    hide Words;
    EightWords(b, 0, 0x61626364, 0x62636465, 0x63646566, 0x64656667, 0x65666768, 0x66676869, 0x6768696a, 0x68696a6b,
               0x696a6b6c, 0x6a6b6c6d, 0x6b6c6d6e, 0x6c6d6e6f, 0x6d6e6f70, 0x6e6f7071, 0x80000000, 0x00000000,
               0x0a063a3e, 0xd8dadcdf, 0xdadcdec0, 0xc8d2b4be, 0x6f757b5b, 0x757b5967, 0x8da16d70, 0xdaeefaba);
    EightWords(b, 8, 0x696a6b6c, 0x6a6b6c6d, 0x6b6c6d6e, 0x6c6d6e6f, 0x6d6e6f70, 0x6e6f7071, 0x80000000, 0x00000000,
               0x0a063a3e, 0xd8dadcdf, 0xdadcdec0, 0xc8d2b4be, 0x6f757b5b, 0x757b5967, 0x8da16d70, 0xdaeefaba,
               0xfaf6cab6, 0xa6fb675a, 0x0c604cc8, 0x604cc02c, 0x49c0e6e2, 0x2ee8cbbc, 0xcfd72ec4, 0x97e9810e);
    EightWords(b, 16, 0x0a063a3e, 0xd8dadcdf, 0xdadcdec0, 0xc8d2b4be, 0x6f757b5b, 0x757b5967, 0x8da16d70, 0xdaeefaba,
               0xfaf6cab6, 0xa6fb675a, 0x0c604cc8, 0x604cc02c, 0x49c0e6e2, 0x2ee8cbbc, 0xcfd72ec4, 0x97e9810e,
               0x0989cbe8, 0xf24843fe, 0x5c40d0ba, 0xa8d9cc3b, 0xb2b9666e, 0xba7b71b7, 0x20b28a72, 0xb28af500);
    EightWords(b, 24, 0xfaf6cab6, 0xa6fb675a, 0x0c604cc8, 0x604cc02c, 0x49c0e6e2, 0x2ee8cbbc, 0xcfd72ec4, 0x97e9810e,
               0x0989cbe8, 0xf24843fe, 0x5c40d0ba, 0xa8d9cc3b, 0xb2b9666e, 0xba7b71b7, 0x20b28a72, 0xb28af500,
               0x8ac87842, 0x289addf4, 0x56d51f21, 0xd96b7fd2, 0x3868e778, 0xab5e4848, 0x7f0e2118, 0xde87a111);
    EightWords(b, 32, 0x0989cbe8, 0xf24843fe, 0x5c40d0ba, 0xa8d9cc3b, 0xb2b9666e, 0xba7b71b7, 0x20b28a72, 0xb28af500,
               0x8ac87842, 0x289addf4, 0x56d51f21, 0xd96b7fd2, 0x3868e778, 0xab5e4848, 0x7f0e2118, 0xde87a111,
               0xe8be56b0, 0x1a0ae652, 0xcd5611c8, 0x46ef29dc, 0x60d3da6d, 0xddf3ba6e, 0x2737f5e9, 0x4888a710);
    EightWords(b, 40, 0x8ac87842, 0x289addf4, 0x56d51f21, 0xd96b7fd2, 0x3868e778, 0xab5e4848, 0x7f0e2118, 0xde87a111,
               0xe8be56b0, 0x1a0ae652, 0xcd5611c8, 0x46ef29dc, 0x60d3da6d, 0xddf3ba6e, 0x2737f5e9, 0x4888a710,
               0xd2a1177b, 0x9999633b, 0xd6c69d03, 0xccf6127b, 0x7c58fe6d, 0xfdd99c68, 0xf8e32074, 0xe0ba3c7d);
    EightWords(b, 48, 0xe8be56b0, 0x1a0ae652, 0xcd5611c8, 0x46ef29dc, 0x60d3da6d, 0xddf3ba6e, 0x2737f5e9, 0x4888a710,
               0xd2a1177b, 0x9999633b, 0xd6c69d03, 0xccf6127b, 0x7c58fe6d, 0xfdd99c68, 0xf8e32074, 0xe0ba3c7d,
               0x152198d6, 0x7b3f1982, 0x37f2d5b7, 0x8596323e, 0x810790d6, 0xbea0a942, 0x11c7e1b1, 0x6158d101);
    EightWords(b, 56, 0xd2a1177b, 0x9999633b, 0xd6c69d03, 0xccf6127b, 0x7c58fe6d, 0xfdd99c68, 0xf8e32074, 0xe0ba3c7d,
               0x152198d6, 0x7b3f1982, 0x37f2d5b7, 0x8596323e, 0x810790d6, 0xbea0a942, 0x11c7e1b1, 0x6158d101,
               0x5fcd77d9, 0x7f2f12e6, 0xf868cfb1, 0xd6e997e9, 0xf526b852, 0xb7578dcc, 0x55d99df4, 0x1ff69958);
  }

  lemma LongRounds0(h: Vars, b: seq<byte>)
    requires |b| == 64 && Runs(h, b, 0, 0x67452301, 0xefcdab89, 0x62eb73fa, 0x40c951d8, 0x0f4b87c3)
    requires Words(b, 0, 0x61626364, 0x62636465, 0x63646566, 0x64656667, 0x65666768, 0x66676869, 0x6768696a, 0x68696a6b)
    requires Words(b, 8, 0x696a6b6c, 0x6a6b6c6d, 0x6b6c6d6e, 0x6c6d6e6f, 0x6d6e6f70, 0x6e6f7071, 0x80000000, 0x00000000)
    ensures Runs(h, b, 16, 0x42637e39, 0xb2e7a8be, 0x32f94a85, 0x8603481e, 0xe19ecaa2)
  {
    hide Runs, Words;
    EightRounds(h, b, 0, 0x0f4b87c3, 0x40c951d8, 0x62eb73fa, 0xefcdab89, 0x67452301,
                0x61626364, 0x62636465, 0x63646566, 0x64656667, 0x65666768, 0x66676869, 0x6768696a, 0x68696a6b,
                0x0116fc17, 0xebf3b452, 0x5109913a, 0x2c4f6eac, 0x33f4ae5b, 0x96b85189, 0xdb04cb58, 0x45833f0f);
    EightRounds(h, b, 8, 0x2c4f6eac, 0x33f4ae5b, 0x96b85189, 0xdb04cb58, 0x45833f0f,
                0x696a6b6c, 0x6a6b6c6d, 0x6b6c6d6e, 0x6c6d6e6f, 0x6d6e6f70, 0x6e6f7071, 0x80000000, 0x00000000,
                0xc565c35e, 0x6350afda, 0x8993ea77, 0xe19ecaa2, 0x8603481e, 0x32f94a85, 0xb2e7a8be, 0x42637e39);
  }

  lemma LongRounds1(h: Vars, b: seq<byte>)
    requires |b| == 64 && Runs(h, b, 16, 0x42637e39, 0xb2e7a8be, 0x32f94a85, 0x8603481e, 0xe19ecaa2)
    requires Words(b, 16, 0x0a063a3e, 0xd8dadcdf, 0xdadcdec0, 0xc8d2b4be, 0x6f757b5b, 0x757b5967, 0x8da16d70, 0xdaeefaba)
    requires Words(b, 24, 0xfaf6cab6, 0xa6fb675a, 0x0c604cc8, 0x604cc02c, 0x49c0e6e2, 0x2ee8cbbc, 0xcfd72ec4, 0x97e9810e)
    ensures Runs(h, b, 32, 0x52e31f60, 0xa9c84bec, 0x05b457b2, 0xe1122421, 0xd526a644)
  {
    hide Runs, Words;
    EightRounds(h, b, 16, 0xe19ecaa2, 0x8603481e, 0x32f94a85, 0xb2e7a8be, 0x42637e39,
                0x0a063a3e, 0xd8dadcdf, 0xdadcdec0, 0xc8d2b4be, 0x6f757b5b, 0x757b5967, 0x8da16d70, 0xdaeefaba,
                0x6b068048, 0x426b9c35, 0x944b1bd1, 0x6c445652, 0x95836da5, 0x09511177, 0xe2b92dc4, 0xfd224575);
    EightRounds(h, b, 24, 0x6c445652, 0x95836da5, 0x09511177, 0xe2b92dc4, 0xfd224575,
                0xfaf6cab6, 0xa6fb675a, 0x0c604cc8, 0x604cc02c, 0x49c0e6e2, 0x2ee8cbbc, 0xcfd72ec4, 0x97e9810e,
                0xeeb82d9a, 0x5a142c1a, 0x2972f7c7, 0xd526a644, 0xe1122421, 0x05b457b2, 0xa9c84bec, 0x52e31f60);
  }

  lemma LongRounds2(h: Vars, b: seq<byte>)
    requires |b| == 64 && Runs(h, b, 32, 0x52e31f60, 0xa9c84bec, 0x05b457b2, 0xe1122421, 0xd526a644)
    requires Words(b, 32, 0x0989cbe8, 0xf24843fe, 0x5c40d0ba, 0xa8d9cc3b, 0xb2b9666e, 0xba7b71b7, 0x20b28a72, 0xb28af500)
    requires Words(b, 40, 0x8ac87842, 0x289addf4, 0x56d51f21, 0xd96b7fd2, 0x3868e778, 0xab5e4848, 0x7f0e2118, 0xde87a111)
    ensures Runs(h, b, 48, 0xc8a69090, 0xa2ad4f02, 0xc6ea241e, 0x98c1ea64, 0x633e9561)
  {
    hide Runs, Words;
    EightRounds(h, b, 32, 0xd526a644, 0xe1122421, 0x05b457b2, 0xa9c84bec, 0x52e31f60,
                0x0989cbe8, 0xf24843fe, 0x5c40d0ba, 0xa8d9cc3b, 0xb2b9666e, 0xba7b71b7, 0x20b28a72, 0xb28af500,
                0x5af3242c, 0x31c756a9, 0xe9ac987c, 0xab7c32ee, 0x5933fc99, 0x43f87ae9, 0x24957f22, 0xadeb7478);
    EightRounds(h, b, 40, 0xab7c32ee, 0x5933fc99, 0x43f87ae9, 0x24957f22, 0xadeb7478,
                0x8ac87842, 0x289addf4, 0x56d51f21, 0xd96b7fd2, 0x3868e778, 0xab5e4848, 0x7f0e2118, 0xde87a111,
                0xd70e5010, 0x79bcfb08, 0xf9bcb8de, 0x633e9561, 0x98c1ea64, 0xc6ea241e, 0xa2ad4f02, 0xc8a69090);
  }

  lemma LongRounds3(h: Vars, b: seq<byte>)
    requires |b| == 64 && Runs(h, b, 48, 0xc8a69090, 0xa2ad4f02, 0xc6ea241e, 0x98c1ea64, 0x633e9561)
    requires Words(b, 48, 0xe8be56b0, 0x1a0ae652, 0xcd5611c8, 0x46ef29dc, 0x60d3da6d, 0xddf3ba6e, 0x2737f5e9, 0x4888a710)
    requires Words(b, 56, 0xd2a1177b, 0x9999633b, 0xd6c69d03, 0xccf6127b, 0x7c58fe6d, 0xfdd99c68, 0xf8e32074, 0xe0ba3c7d)
    ensures Runs(h, b, 64, 0x513f9ca0, 0x2bfaf7a8, 0x4080d4dc, 0x36254b13, 0x9ef775c3)
  {
    hide Runs, Words;
    EightRounds(h, b, 48, 0x633e9561, 0x98c1ea64, 0xc6ea241e, 0xa2ad4f02, 0xc8a69090,
                0xe8be56b0, 0x1a0ae652, 0xcd5611c8, 0x46ef29dc, 0x60d3da6d, 0xddf3ba6e, 0x2737f5e9, 0x4888a710,
                0x88341600, 0x7e846f58, 0x86e358ba, 0x8d2e76c8, 0xce892e10, 0xedea95b1, 0x36d1230a, 0x776c3910);
    EightRounds(h, b, 56, 0x8d2e76c8, 0xce892e10, 0xedea95b1, 0x36d1230a, 0x776c3910,
                0xd2a1177b, 0x9999633b, 0xd6c69d03, 0xccf6127b, 0x7c58fe6d, 0xfdd99c68, 0xf8e32074, 0xe0ba3c7d,
                0xa681b723, 0xac0a794f, 0xf03d3782, 0x9ef775c3, 0x36254b13, 0x4080d4dc, 0x2bfaf7a8, 0x513f9ca0);
  }

  lemma LongRounds4(h: Vars, b: seq<byte>)
    requires |b| == 64 && Runs(h, b, 64, 0x513f9ca0, 0x2bfaf7a8, 0x4080d4dc, 0x36254b13, 0x9ef775c3)
    requires Words(b, 64, 0x152198d6, 0x7b3f1982, 0x37f2d5b7, 0x8596323e, 0x810790d6, 0xbea0a942, 0x11c7e1b1, 0x6158d101)
    requires Words(b, 72, 0x5fcd77d9, 0x7f2f12e6, 0xf868cfb1, 0xd6e997e9, 0xf526b852, 0xb7578dcc, 0x55d99df4, 0x1ff69958)
    ensures Runs(h, b, 80, 0x8ce34517, 0xd3ad7c25, 0xad38620d, 0xd0d47349, 0x1a0e0e0a)
  {
    hide Runs, Words;
    EightRounds(h, b, 64, 0x9ef775c3, 0x36254b13, 0x4080d4dc, 0x2bfaf7a8, 0x513f9ca0,
                0x152198d6, 0x7b3f1982, 0x37f2d5b7, 0x8596323e, 0x810790d6, 0xbea0a942, 0x11c7e1b1, 0x6158d101,
                0xe5895c81, 0x1037d2d5, 0x14a82da9, 0x6d17c9fd, 0x2c7b07bd, 0xfdf6efff, 0x112b96e3, 0x84065712);
    EightRounds(h, b, 72, 0x6d17c9fd, 0x2c7b07bd, 0xfdf6efff, 0x112b96e3, 0x84065712,
                0x5fcd77d9, 0x7f2f12e6, 0xf868cfb1, 0xd6e997e9, 0xf526b852, 0xb7578dcc, 0x55d99df4, 0x1ff69958,
                0xab89fb71, 0xc5210e35, 0x352d9f4b, 0x1a0e0e0a, 0xd0d47349, 0xad38620d, 0xd3ad7c25, 0x8ce34517);
  }

  lemma LongCompressed(b: seq<byte>)
    requires |b| == 64
    requires Words(b, 0, 0x61626364, 0x62636465, 0x63646566, 0x64656667, 0x65666768, 0x66676869, 0x6768696a, 0x68696a6b)
    requires Words(b, 8, 0x696a6b6c, 0x6a6b6c6d, 0x6b6c6d6e, 0x6c6d6e6f, 0x6d6e6f70, 0x6e6f7071, 0x80000000, 0x00000000)
    ensures Compress(Vars(0x67452301, 0xefcdab89, 0x98badcfe, 0x10325476, 0xc3d2e1f0), b) ==
            Vars(0xf4286818, 0xc37b27ae, 0x0408f581, 0x84677148, 0x4a566572)
  {
    hide Words, Runs;
    var h := Vars(0x67452301, 0xefcdab89, 0x98badcfe, 0x10325476, 0xc3d2e1f0);
    LongWords(b);
    assert Runs(h, b, 0, 0x67452301, 0xefcdab89, 0x62eb73fa, 0x40c951d8, 0x0f4b87c3) by { LongStart(b); }
    LongRounds0(h, b);
    LongRounds1(h, b);
    LongRounds2(h, b);
    LongRounds3(h, b);
    LongRounds4(h, b);
    LongEnd(h, b);
  }

  lemma LongStart(b: seq<byte>)
    requires |b| == 64
    ensures Runs(Vars(0x67452301, 0xefcdab89, 0x98badcfe, 0x10325476, 0xc3d2e1f0), b, 0, 0x67452301, 0xefcdab89, 0x62eb73fa, 0x40c951d8, 0x0f4b87c3)
  {
    hide Schedule;
  }

  lemma LongEnd(h: Vars, b: seq<byte>)
    requires |b| == 64 && h == Vars(0x67452301, 0xefcdab89, 0x98badcfe, 0x10325476, 0xc3d2e1f0)
    requires Runs(h, b, 80, 0x8ce34517, 0xd3ad7c25, 0xad38620d, 0xd0d47349, 0x1a0e0e0a)
    ensures Compress(h, b) == Vars(0xf4286818, 0xc37b27ae, 0x0408f581, 0x84677148, 0x4a566572)
  {
    hide Rounds;
  }

  // Its second block

  lemma LastWords(b: seq<byte>)
    requires |b| == 64
    requires Words(b, 0, 0x00000000, 0x00000000, 0x00000000, 0x00000000, 0x00000000, 0x00000000, 0x00000000, 0x00000000)
    requires Words(b, 8, 0x00000000, 0x00000000, 0x00000000, 0x00000000, 0x00000000, 0x00000000, 0x00000000, 0x000001c0)
    ensures Words(b, 16, 0x00000000, 0x00000000, 0x00000380, 0x00000000, 0x00000000, 0x00000700, 0x00000000, 0x00000380)
    ensures Words(b, 24, 0x00000e00, 0x00000000, 0x00000000, 0x00001c00, 0x00000000, 0x00000d80, 0x00003800, 0x00000480)
    ensures Words(b, 32, 0x00000000, 0x00007000, 0x00000e00, 0x00003600, 0x0000e000, 0x00000e00, 0x00000000, 0x0001ce00)
    ensures Words(b, 40, 0x00000000, 0x0000d800, 0x00038000, 0x00004f00, 0x00000000, 0x00070e00, 0x0000ee00, 0x00037500)
    ensures Words(b, 48, 0x000e0000, 0x0000e000, 0x00003600, 0x001cee00, 0x00000000, 0x000df000, 0x00380000, 0x0004c600)
    ensures Words(b, 56, 0x0000e000, 0x0070ee00, 0x000ee000, 0x00369e00, 0x00e00000, 0x000ed600, 0x0000e000, 0x01cea600)
    ensures Words(b, 64, 0x00000000, 0x00d80000, 0x0380e000, 0x004f0000, 0x00000000, 0x070e0000, 0x00ee0000, 0x03751c00)
    ensures Words(b, 72, 0x0e000000, 0x00e0e000, 0x00363800, 0x1cee9000, 0x00000000, 0x0df09000, 0x3800e000, 0x04c77400)
  {
    hide Words;
    EightWords(b, 0, 0x00000000, 0x00000000, 0x00000000, 0x00000000, 0x00000000, 0x00000000, 0x00000000, 0x00000000,
               0x00000000, 0x00000000, 0x00000000, 0x00000000, 0x00000000, 0x00000000, 0x00000000, 0x000001c0,
               0x00000000, 0x00000000, 0x00000380, 0x00000000, 0x00000000, 0x00000700, 0x00000000, 0x00000380);
    EightWords(b, 8, 0x00000000, 0x00000000, 0x00000000, 0x00000000, 0x00000000, 0x00000000, 0x00000000, 0x000001c0,
               0x00000000, 0x00000000, 0x00000380, 0x00000000, 0x00000000, 0x00000700, 0x00000000, 0x00000380,
               0x00000e00, 0x00000000, 0x00000000, 0x00001c00, 0x00000000, 0x00000d80, 0x00003800, 0x00000480);
    EightWords(b, 16, 0x00000000, 0x00000000, 0x00000380, 0x00000000, 0x00000000, 0x00000700, 0x00000000, 0x00000380,
               0x00000e00, 0x00000000, 0x00000000, 0x00001c00, 0x00000000, 0x00000d80, 0x00003800, 0x00000480,
               0x00000000, 0x00007000, 0x00000e00, 0x00003600, 0x0000e000, 0x00000e00, 0x00000000, 0x0001ce00);
    EightWords(b, 24, 0x00000e00, 0x00000000, 0x00000000, 0x00001c00, 0x00000000, 0x00000d80, 0x00003800, 0x00000480,
               0x00000000, 0x00007000, 0x00000e00, 0x00003600, 0x0000e000, 0x00000e00, 0x00000000, 0x0001ce00,
               0x00000000, 0x0000d800, 0x00038000, 0x00004f00, 0x00000000, 0x00070e00, 0x0000ee00, 0x00037500);
    EightWords(b, 32, 0x00000000, 0x00007000, 0x00000e00, 0x00003600, 0x0000e000, 0x00000e00, 0x00000000, 0x0001ce00,
               0x00000000, 0x0000d800, 0x00038000, 0x00004f00, 0x00000000, 0x00070e00, 0x0000ee00, 0x00037500,
               0x000e0000, 0x0000e000, 0x00003600, 0x001cee00, 0x00000000, 0x000df000, 0x00380000, 0x0004c600);
    EightWords(b, 40, 0x00000000, 0x0000d800, 0x00038000, 0x00004f00, 0x00000000, 0x00070e00, 0x0000ee00, 0x00037500,
               0x000e0000, 0x0000e000, 0x00003600, 0x001cee00, 0x00000000, 0x000df000, 0x00380000, 0x0004c600,
               0x0000e000, 0x0070ee00, 0x000ee000, 0x00369e00, 0x00e00000, 0x000ed600, 0x0000e000, 0x01cea600);
    EightWords(b, 48, 0x000e0000, 0x0000e000, 0x00003600, 0x001cee00, 0x00000000, 0x000df000, 0x00380000, 0x0004c600,
               0x0000e000, 0x0070ee00, 0x000ee000, 0x00369e00, 0x00e00000, 0x000ed600, 0x0000e000, 0x01cea600,
               0x00000000, 0x00d80000, 0x0380e000, 0x004f0000, 0x00000000, 0x070e0000, 0x00ee0000, 0x03751c00);
    EightWords(b, 56, 0x0000e000, 0x0070ee00, 0x000ee000, 0x00369e00, 0x00e00000, 0x000ed600, 0x0000e000, 0x01cea600,
               0x00000000, 0x00d80000, 0x0380e000, 0x004f0000, 0x00000000, 0x070e0000, 0x00ee0000, 0x03751c00,
               0x0e000000, 0x00e0e000, 0x00363800, 0x1cee9000, 0x00000000, 0x0df09000, 0x3800e000, 0x04c77400);
  }

  lemma LastRounds0(h: Vars, b: seq<byte>)
    requires |b| == 64 && Runs(h, b, 0, 0xf4286818, 0xc37b27ae, 0x1023d604, 0x119dc522, 0x295995c9)
    requires Words(b, 0, 0x00000000, 0x00000000, 0x00000000, 0x00000000, 0x00000000, 0x00000000, 0x00000000, 0x00000000)
    requires Words(b, 8, 0x00000000, 0x00000000, 0x00000000, 0x00000000, 0x00000000, 0x00000000, 0x00000000, 0x000001c0)
    ensures Runs(h, b, 16, 0xd9772360, 0x258b0baa, 0xa2604ca8, 0xfecd7bbf, 0x43a2792f)
  {
    hide Runs, Words;
    EightRounds(h, b, 0, 0x295995c9, 0x119dc522, 0x1023d604, 0xc37b27ae, 0xf4286818,
                0x00000000, 0x00000000, 0x00000000, 0x00000000, 0x00000000, 0x00000000, 0x00000000, 0x00000000,
                0x2df257e9, 0x4d3dc58f, 0xc352bb05, 0xeef743c6, 0x41e34277, 0x5443915c, 0xe7fa0377, 0xc6946813);
    EightRounds(h, b, 8, 0xeef743c6, 0x41e34277, 0x5443915c, 0xe7fa0377, 0xc6946813,
                0x00000000, 0x00000000, 0x00000000, 0x00000000, 0x00000000, 0x00000000, 0x00000000, 0x000001c0,
                0xfdde1de1, 0xb8538aca, 0x6ba94f63, 0x43a2792f, 0xfecd7bbf, 0xa2604ca8, 0x258b0baa, 0xd9772360);
  }

  lemma LastRounds1(h: Vars, b: seq<byte>)
    requires |b| == 64 && Runs(h, b, 16, 0xd9772360, 0x258b0baa, 0xa2604ca8, 0xfecd7bbf, 0x43a2792f)
    requires Words(b, 16, 0x00000000, 0x00000000, 0x00000380, 0x00000000, 0x00000000, 0x00000700, 0x00000000, 0x00000380)
    requires Words(b, 24, 0x00000e00, 0x00000000, 0x00000000, 0x00001c00, 0x00000000, 0x00000d80, 0x00003800, 0x00000480)
    ensures Runs(h, b, 32, 0x8a4af384, 0x17986223, 0x0a2fb108, 0x2429be5f, 0x5c416daf)
  {
    hide Runs, Words;
    EightRounds(h, b, 16, 0x43a2792f, 0xfecd7bbf, 0xa2604ca8, 0x258b0baa, 0xd9772360,
                0x00000000, 0x00000000, 0x00000380, 0x00000000, 0x00000000, 0x00000700, 0x00000000, 0x00000380,
                0x5507db6e, 0xa51b58bc, 0xc2eb709f, 0xd8992153, 0x37482f5f, 0xee8700bd, 0x9ad594b9, 0x8fbaa5b9);
    EightRounds(h, b, 24, 0xd8992153, 0x37482f5f, 0xee8700bd, 0x9ad594b9, 0x8fbaa5b9,
                0x00000e00, 0x00000000, 0x00000000, 0x00001c00, 0x00000000, 0x00000d80, 0x00003800, 0x00000480,
                0x88fb5867, 0xeec50521, 0x50bce434, 0x5c416daf, 0x2429be5f, 0x0a2fb108, 0x17986223, 0x8a4af384);
  }

  lemma LastRounds2(h: Vars, b: seq<byte>)
    requires |b| == 64 && Runs(h, b, 32, 0x8a4af384, 0x17986223, 0x0a2fb108, 0x2429be5f, 0x5c416daf)
    requires Words(b, 32, 0x00000000, 0x00007000, 0x00000e00, 0x00003600, 0x0000e000, 0x00000e00, 0x00000000, 0x0001ce00)
    requires Words(b, 40, 0x00000000, 0x0000d800, 0x00038000, 0x00004f00, 0x00000000, 0x00070e00, 0x0000ee00, 0x00037500)
    ensures Runs(h, b, 48, 0x46f93b68, 0x7316056a, 0xc3d033ea, 0x3caed7af, 0xec1d3d61)
  {
    hide Runs, Words;
    EightRounds(h, b, 32, 0x5c416daf, 0x2429be5f, 0x0a2fb108, 0x17986223, 0x8a4af384,
                0x00000000, 0x00007000, 0x00000e00, 0x00003600, 0x0000e000, 0x00000e00, 0x00000000, 0x0001ce00,
                0x6b629993, 0xf15f04f3, 0x295cc25b, 0x696da404, 0xcef5ae12, 0x87d5b80c, 0x84e2a5f2, 0x03bb6310);
    EightRounds(h, b, 40, 0x696da404, 0xcef5ae12, 0x87d5b80c, 0x84e2a5f2, 0x03bb6310,
                0x00000000, 0x0000d800, 0x00038000, 0x00004f00, 0x00000000, 0x00070e00, 0x0000ee00, 0x00037500,
                0xc2d8f75f, 0xbfb25768, 0x28589152, 0xec1d3d61, 0x3caed7af, 0xc3d033ea, 0x7316056a, 0x46f93b68);
  }

  lemma LastRounds3(h: Vars, b: seq<byte>)
    requires |b| == 64 && Runs(h, b, 48, 0x46f93b68, 0x7316056a, 0xc3d033ea, 0x3caed7af, 0xec1d3d61)
    requires Words(b, 48, 0x000e0000, 0x0000e000, 0x00003600, 0x001cee00, 0x00000000, 0x000df000, 0x00380000, 0x0004c600)
    requires Words(b, 56, 0x0000e000, 0x0070ee00, 0x000ee000, 0x00369e00, 0x00e00000, 0x000ed600, 0x0000e000, 0x01cea600)
    ensures Runs(h, b, 64, 0xd504902b, 0xf66d9bf4, 0x93614c9c, 0x7aab101b, 0xa65818f7)
  {
    hide Runs, Words;
    EightRounds(h, b, 48, 0xec1d3d61, 0x3caed7af, 0xc3d033ea, 0x7316056a, 0x46f93b68,
                0x000e0000, 0x0000e000, 0x00003600, 0x001cee00, 0x00000000, 0x000df000, 0x00380000, 0x0004c600,
                0xdc8e7f26, 0x850d411c, 0x7e4672c0, 0x89fbd41d, 0x1797e228, 0x431d65bc, 0x2bdbb8cb, 0x6da72e7f);
    EightRounds(h, b, 56, 0x89fbd41d, 0x1797e228, 0x431d65bc, 0x2bdbb8cb, 0x6da72e7f,
                0x0000e000, 0x0070ee00, 0x000ee000, 0x00369e00, 0x00e00000, 0x000ed600, 0x0000e000, 0x01cea600,
                0xa8495a9b, 0xe785655a, 0x5b086c42, 0xa65818f7, 0x7aab101b, 0x93614c9c, 0xf66d9bf4, 0xd504902b);
  }

  lemma LastRounds4(h: Vars, b: seq<byte>)
    requires |b| == 64 && Runs(h, b, 64, 0xd504902b, 0xf66d9bf4, 0x93614c9c, 0x7aab101b, 0xa65818f7)
    requires Words(b, 64, 0x00000000, 0x00d80000, 0x0380e000, 0x004f0000, 0x00000000, 0x070e0000, 0x00ee0000, 0x03751c00)
    requires Words(b, 72, 0x0e000000, 0x00e0e000, 0x00363800, 0x1cee9000, 0x00000000, 0x0df09000, 0x3800e000, 0x04c77400)
    ensures Runs(h, b, 80, 0x906fd62c, 0x58c0aac0, 0xda955482, 0xd3a6e275, 0x6bc02dfe)
  {
    hide Runs, Words;
    EightRounds(h, b, 64, 0xa65818f7, 0x7aab101b, 0x93614c9c, 0xf66d9bf4, 0xd504902b,
                0x00000000, 0x00d80000, 0x0380e000, 0x004f0000, 0x00000000, 0x070e0000, 0x00ee0000, 0x03751c00,
                0x60a9da62, 0x8b687819, 0x083e90c3, 0xf6226bbf, 0x76c0563b, 0x989dd165, 0x8b2c7573, 0xae1b8e7b);
    EightRounds(h, b, 72, 0xf6226bbf, 0x76c0563b, 0x989dd165, 0x8b2c7573, 0xae1b8e7b,
                0x0e000000, 0x00e0e000, 0x00363800, 0x1cee9000, 0x00000000, 0x0df09000, 0x3800e000, 0x04c77400,
                0xca1840de, 0x16f3babb, 0xd28d83ad, 0x6bc02dfe, 0xd3a6e275, 0xda955482, 0x58c0aac0, 0x906fd62c);
  }

  lemma LastCompressed(b: seq<byte>)
    requires |b| == 64
    requires Words(b, 0, 0x00000000, 0x00000000, 0x00000000, 0x00000000, 0x00000000, 0x00000000, 0x00000000, 0x00000000)
    requires Words(b, 8, 0x00000000, 0x00000000, 0x00000000, 0x00000000, 0x00000000, 0x00000000, 0x00000000, 0x000001c0)
    ensures Compress(Vars(0xf4286818, 0xc37b27ae, 0x0408f581, 0x84677148, 0x4a566572), b) ==
            Vars(0x84983e44, 0x1c3bd26e, 0xbaae4aa1, 0xf95129e5, 0xe54670f1)
  {
    hide Words, Runs;
    var h := Vars(0xf4286818, 0xc37b27ae, 0x0408f581, 0x84677148, 0x4a566572);
    LastWords(b);
    assert Runs(h, b, 0, 0xf4286818, 0xc37b27ae, 0x1023d604, 0x119dc522, 0x295995c9) by { LastStart(b); }
    LastRounds0(h, b);
    LastRounds1(h, b);
    LastRounds2(h, b);
    LastRounds3(h, b);
    LastRounds4(h, b);
    LastEnd(h, b);
  }

  lemma LastStart(b: seq<byte>)
    requires |b| == 64
    ensures Runs(Vars(0xf4286818, 0xc37b27ae, 0x0408f581, 0x84677148, 0x4a566572), b, 0, 0xf4286818, 0xc37b27ae, 0x1023d604, 0x119dc522, 0x295995c9)
  {
    hide Schedule;
  }

  lemma LastEnd(h: Vars, b: seq<byte>)
    requires |b| == 64 && h == Vars(0xf4286818, 0xc37b27ae, 0x0408f581, 0x84677148, 0x4a566572)
    requires Runs(h, b, 80, 0x906fd62c, 0x58c0aac0, 0xda955482, 0xd3a6e275, 0x6bc02dfe)
    ensures Compress(h, b) == Vars(0x84983e44, 0x1c3bd26e, 0xbaae4aa1, 0xf95129e5, 0xe54670f1)
  {
    hide Rounds;
  }

  // ---------------------------------------------------------------- the digests

  /** "abc" */
  const SHORT: seq<byte> := [0x61, 0x62, 0x63]

  /** "abcdbcdecdef...mnopnopq" */
  const LONG: seq<byte> := seq<byte>(56, (i: int) requires 0 <= i < 56 => 0x61 + i / 4 + i % 4)

  lemma WordOf(b: seq<byte>, t: nat, p: byte, q: byte, r: byte, s: byte)
    requires |b| == 64 && t < 16 && b[4 * t..4 * t + 4] == [p, q, r, s]
    ensures Schedule(b, t) == Word4(p, q, r, s)
  {
    hide Word4, Schedule;
    assert b[4 * t..4 * t + 4][0] == p && b[4 * t..4 * t + 4][1] == q && b[4 * t..4 * t + 4][2] == r && b[4 * t..4 * t + 4][3] == s;
    ScheduleStart(b, t);
  }

  lemma ZeroWord(b: seq<byte>, t: nat)
    requires |b| == 64 && t < 16 && forall i :: 4 * t <= i < 4 * t + 4 ==> b[i] == 0
    ensures Schedule(b, t) == 0
  {
    hide Schedule;
    assert b[4 * t..4 * t + 4] == [0, 0, 0, 0];
    WordOf(b, t, 0, 0, 0, 0);
    assert Word4(0, 0, 0, 0) == 0;
  }

  lemma PaddedShort()
    ensures var b := Pad(SHORT);
            && |b| == 64 && b[0..4] == [0x61, 0x62, 0x63, 0x80] && (forall i :: 4 <= i < 60 ==> b[i] == 0)
            && b[60..64] == [0, 0, 0, 0x18]
  {
    LengthBytes(24, 0, 0x18);
    var b := Pad(SHORT);
    assert b[60..64] == BE(24, 8)[4..8];
    assert b[56..60] == BE(24, 8)[0..4];
    assert forall i :: 56 <= i < 60 ==> b[i] == b[56..60][i - 56];
  }

  /** The eight bytes of a small message length. */
  lemma LengthBytes(n: nat, high: byte, low: byte)
    requires n == 256 * high + low
    ensures BE(n, 8) == [0, 0, 0, 0, 0, 0, high, low]
  {
    assert BE(0, 6) == [0, 0, 0, 0, 0, 0];
    assert BE(high, 7) == [0, 0, 0, 0, 0, 0, high];
    assert n / 256 == high && n % 256 == low;
  }

  lemma ShortSchedule(b: seq<byte>)
    requires b == Pad(SHORT)
    ensures |b| == 64 && Words(b, 0, 0x61626380, 0x00000000, 0x00000000, 0x00000000, 0x00000000, 0x00000000, 0x00000000, 0x00000000)
    ensures Words(b, 8, 0x00000000, 0x00000000, 0x00000000, 0x00000000, 0x00000000, 0x00000000, 0x00000000, 0x00000018)
  {
    hide Pad, Word4, Schedule;
    PaddedShort();
    WordOf(b, 0, 0x61, 0x62, 0x63, 0x80);
    forall t: nat | 1 <= t < 15 ensures Schedule(b, t) == 0 { ZeroWord(b, t); }
    WordOf(b, 15, 0, 0, 0, 0x18);
    assert Word4(0x61, 0x62, 0x63, 0x80) == 0x61626380 && Word4(0, 0, 0, 0x18) == 0x18 by { ShortLetters(); }
  }

  lemma ShortLetters()
    ensures Word4(0x61, 0x62, 0x63, 0x80) == 0x61626380 && Word4(0, 0, 0, 0x18) == 0x18
  {
  }

  /** The first example of the standard. */
  lemma HashOfShort()
    ensures Hash(SHORT) == [0xa9, 0x99, 0x3e, 0x36, 0x47, 0x06, 0x81, 0x6a, 0xba, 0x3e, 0x25, 0x71, 0x78, 0x50, 0xc2, 0x6c, 0x9c, 0xd0, 0xd8, 0x9d]
  {
    hide Pad, HashBlocks, Compress, Serialize, Schedule, Words;
    var b := Pad(SHORT);
    ShortSchedule(b);
    ShortCompressed(b);
    assert b[0..64] == b;
    HashBlocksStep(b, 1);
    NoBlocks(b);
    ShortDigest();
  }

  lemma NoBlocks(m: seq<byte>)
    ensures HashBlocks(m, 0) == INITIAL
  {
  }

  lemma ShortDigest()
    ensures Serialize(Vars(0xa9993e36, 0x4706816a, 0xba3e2571, 0x7850c26c, 0x9cd0d89d)) ==
            [0xa9, 0x99, 0x3e, 0x36, 0x47, 0x06, 0x81, 0x6a, 0xba, 0x3e, 0x25, 0x71, 0x78, 0x50, 0xc2, 0x6c, 0x9c, 0xd0, 0xd8, 0x9d]
  {
    hide WordBytes;
    BytesOf(0xa9993e36, 0xa9, 0x99, 0x3e, 0x36);
    BytesOf(0x4706816a, 0x47, 0x06, 0x81, 0x6a);
    BytesOf(0xba3e2571, 0xba, 0x3e, 0x25, 0x71);
    BytesOf(0x7850c26c, 0x78, 0x50, 0xc2, 0x6c);
    BytesOf(0x9cd0d89d, 0x9c, 0xd0, 0xd8, 0x9d);
  }

  lemma BytesOf(w: Word, p: byte, q: byte, r: byte, s: byte)
    requires w as int == 0x100_0000 * p + 0x1_0000 * q + 0x100 * r + s
    ensures WordBytes(w) == [p, q, r, s]
  {
    hide BE;
    FourBytes(w as int, p, q, r, s);
  }

  lemma FourBytes(n: nat, p: byte, q: byte, r: byte, s: byte)
    requires n == 0x100_0000 * p + 0x1_0000 * q + 0x100 * r + s
    ensures BE(n, 4) == [p, q, r, s]
  {
    hide BE;
    LastByte(p, 0, p, 0);
    LastByte(0x100 * p + q, p, q, 1);
    LastByte(0x1_0000 * p + 0x100 * q + r, 0x100 * p + q, r, 2);
    LastByte(n, 0x1_0000 * p + 0x100 * q + r, s, 3);
    assert BE(0, 0) == [];
  }

  lemma LastByte(n: nat, high: nat, low: byte, k: nat)
    requires n == 256 * high + low
    ensures BE(n, k + 1) == BE(high, k) + [low]
  {
    assert n / 256 == high && n % 256 == low;
  }

  lemma PaddedLong()
    ensures var b := Pad(LONG);
            && |b| == 128 && b[..56] == LONG && b[56..60] == [0x80, 0, 0, 0] && (forall i :: 60 <= i < 124 ==> b[i] == 0)
            && b[124..128] == [0, 0, 0x01, 0xc0]
  {
    LengthBytes(448, 0x01, 0xc0);
    var b := Pad(LONG);
    assert b[124..128] == BE(448, 8)[4..8];
    assert b[120..124] == BE(448, 8)[0..4];
    assert forall i :: 120 <= i < 124 ==> b[i] == b[120..124][i - 120];
  }

  lemma LongWord(b: seq<byte>, t: nat, p: byte)
    requires |b| == 64 && b[..56] == LONG && t < 14 && p == 0x61 + t
    ensures Schedule(b, t) == Word4(p, p + 1, p + 2, p + 3)
  {
    hide Schedule, Word4;
    LongLetter(t, 0);
    LongLetter(t, 1);
    LongLetter(t, 2);
    LongLetter(t, 3);
    assert forall i :: 0 <= i < 56 ==> b[i] == b[..56][i];
    ScheduleStart(b, t);
  }

  lemma LongLetter(t: nat, k: nat)
    requires t < 14 && k < 4
    ensures 4 * t + k < 56 && LONG[4 * t + k] == 0x61 + t + k
  {
    assert (4 * t + k) / 4 == t && (4 * t + k) % 4 == k;
  }

  lemma LongSchedule(b: seq<byte>)
    requires |b| == 64 && b[..56] == LONG && b[56..60] == [0x80, 0, 0, 0] && b[60..64] == [0, 0, 0, 0]
    ensures Words(b, 0, 0x61626364, 0x62636465, 0x63646566, 0x64656667, 0x65666768, 0x66676869, 0x6768696a, 0x68696a6b)
    ensures Words(b, 8, 0x696a6b6c, 0x6a6b6c6d, 0x6b6c6d6e, 0x6c6d6e6f, 0x6d6e6f70, 0x6e6f7071, 0x80000000, 0x00000000)
  {
    hide Word4, Schedule;
    LongWord(b, 0, 0x61);
    LongWord(b, 1, 0x62);
    LongWord(b, 2, 0x63);
    LongWord(b, 3, 0x64);
    LongWord(b, 4, 0x65);
    LongWord(b, 5, 0x66);
    LongWord(b, 6, 0x67);
    LongWord(b, 7, 0x68);
    LongWord(b, 8, 0x69);
    LongWord(b, 9, 0x6a);
    LongWord(b, 10, 0x6b);
    LongWord(b, 11, 0x6c);
    LongWord(b, 12, 0x6d);
    LongWord(b, 13, 0x6e);
    WordOf(b, 14, 0x80, 0, 0, 0);
    WordOf(b, 15, 0, 0, 0, 0);
    LongLetters();
  }

  lemma LongLetters()
    ensures Word4(0x61, 0x62, 0x63, 0x64) == 0x61626364
    ensures Word4(0x62, 0x63, 0x64, 0x65) == 0x62636465
    ensures Word4(0x63, 0x64, 0x65, 0x66) == 0x63646566
    ensures Word4(0x64, 0x65, 0x66, 0x67) == 0x64656667
    ensures Word4(0x65, 0x66, 0x67, 0x68) == 0x65666768
    ensures Word4(0x66, 0x67, 0x68, 0x69) == 0x66676869
    ensures Word4(0x67, 0x68, 0x69, 0x6a) == 0x6768696a
    ensures Word4(0x68, 0x69, 0x6a, 0x6b) == 0x68696a6b
    ensures Word4(0x69, 0x6a, 0x6b, 0x6c) == 0x696a6b6c
    ensures Word4(0x6a, 0x6b, 0x6c, 0x6d) == 0x6a6b6c6d
    ensures Word4(0x6b, 0x6c, 0x6d, 0x6e) == 0x6b6c6d6e
    ensures Word4(0x6c, 0x6d, 0x6e, 0x6f) == 0x6c6d6e6f
    ensures Word4(0x6d, 0x6e, 0x6f, 0x70) == 0x6d6e6f70
    ensures Word4(0x6e, 0x6f, 0x70, 0x71) == 0x6e6f7071
    ensures Word4(0x80, 0x00, 0x00, 0x00) == 0x80000000
    ensures Word4(0x00, 0x00, 0x00, 0x00) == 0x00000000
  {
  }

  lemma LastSchedule(b: seq<byte>)
    requires |b| == 64 && (forall i :: 0 <= i < 60 ==> b[i] == 0) && b[60..64] == [0, 0, 0x01, 0xc0]
    ensures Words(b, 0, 0x00000000, 0x00000000, 0x00000000, 0x00000000, 0x00000000, 0x00000000, 0x00000000, 0x00000000)
    ensures Words(b, 8, 0x00000000, 0x00000000, 0x00000000, 0x00000000, 0x00000000, 0x00000000, 0x00000000, 0x000001c0)
  {
    hide Word4, Schedule;
    forall t: nat | t < 15 ensures Schedule(b, t) == 0 { ZeroWord(b, t); }
    WordOf(b, 15, 0, 0, 0x01, 0xc0);
    assert Word4(0, 0, 0x01, 0xc0) == 0x1c0 by { LastLetters(); }
  }

  lemma LastLetters()
    ensures Word4(0, 0, 0x01, 0xc0) == 0x1c0
  {
  }

  /** The second example, a message of two blocks. */
  lemma HashOfLong()
    ensures Hash(LONG) == [0x84, 0x98, 0x3e, 0x44, 0x1c, 0x3b, 0xd2, 0x6e, 0xba, 0xae, 0x4a, 0xa1, 0xf9, 0x51, 0x29, 0xe5, 0xe5, 0x46, 0x70, 0xf1]
  {
    hide Pad, HashBlocks, Compress, Serialize, Schedule, Words, BE;
    var b := Pad(LONG);
    PaddedLong();
    var x, y := b[0..64], b[64..128];
    assert x[..56] == b[..56] && x[56..60] == b[56..60] && x[60..64] == [0, 0, 0, 0] && y[60..64] == b[124..128];
    LongSchedule(x);
    LongCompressed(x);
    LastSchedule(y);
    LastCompressed(y);
    NoBlocks(b);
    HashBlocksStep(b, 1);
    HashBlocksStep(b, 2);
    LongDigest();
  }

  lemma LongDigest()
    ensures Serialize(Vars(0x84983e44, 0x1c3bd26e, 0xbaae4aa1, 0xf95129e5, 0xe54670f1)) ==
            [0x84, 0x98, 0x3e, 0x44, 0x1c, 0x3b, 0xd2, 0x6e, 0xba, 0xae, 0x4a, 0xa1, 0xf9, 0x51, 0x29, 0xe5, 0xe5, 0x46, 0x70, 0xf1]
  {
    hide WordBytes;
    BytesOf(0x84983e44, 0x84, 0x98, 0x3e, 0x44);
    BytesOf(0x1c3bd26e, 0x1c, 0x3b, 0xd2, 0x6e);
    BytesOf(0xbaae4aa1, 0xba, 0xae, 0x4a, 0xa1);
    BytesOf(0xf95129e5, 0xf9, 0x51, 0x29, 0xe5);
    BytesOf(0xe54670f1, 0xe5, 0x46, 0x70, 0xf1);
  }
}
