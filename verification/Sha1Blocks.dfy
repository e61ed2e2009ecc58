/**
 SHA-1 of single blocks, worked out: the eighty words of the message schedule, sixteen
 at a time, and the variables after every sixteen rounds.  The blocks are those of the
 published test values.
 */
module Sha1Blocks {
  import opened Sha1

  // ----- sixteen rounds at a time

  function Next(a: Word, b: Word, c: Word, d: Word): Word { (a ^ b ^ c ^ d).RotateLeft(1) }

  /** x is the next sixteen words of the message schedule after w. */
  ghost predicate Follows(w: seq<Word>, x: seq<Word>)
  {
    && |w| == |x| == 16
    && x[0] == Next(w[13], w[8], w[2], w[0]) && x[1] == Next(w[14], w[9], w[3], w[1])
    && x[2] == Next(w[15], w[10], w[4], w[2]) && x[3] == Next(x[0], w[11], w[5], w[3])
    && x[4] == Next(x[1], w[12], w[6], w[4]) && x[5] == Next(x[2], w[13], w[7], w[5])
    && x[6] == Next(x[3], w[14], w[8], w[6]) && x[7] == Next(x[4], w[15], w[9], w[7])
    && x[8] == Next(x[5], x[0], w[10], w[8]) && x[9] == Next(x[6], x[1], w[11], w[9])
    && x[10] == Next(x[7], x[2], w[12], w[10]) && x[11] == Next(x[8], x[3], w[13], w[11])
    && x[12] == Next(x[9], x[4], w[14], w[12]) && x[13] == Next(x[10], x[5], w[15], w[13])
    && x[14] == Next(x[11], x[6], x[0], w[14]) && x[15] == Next(x[12], x[7], x[1], w[15])
  }

  function Four(s: Vars, t: nat, a: Word, b: Word, c: Word, d: Word): Vars
  {
    Round(Round(Round(Round(s, t, a), t + 1, b), t + 2, c), t + 3, d)
  }

  function Sixteen(s: Vars, t: nat, w: seq<Word>): Vars
    requires |w| == 16
  {
    Four(Four(Four(Four(s, t, w[0], w[1], w[2], w[3]), t + 4, w[4], w[5], w[6], w[7]),
              t + 8, w[8], w[9], w[10], w[11]), t + 12, w[12], w[13], w[14], w[15])
  }

  /** The words of block from t on. */
  ghost predicate Words(block: seq<Octet>, t: nat, w: seq<Word>)
    requires |block| == 64
  {
    |w| == 16 && forall i | 0 <= i < 16 :: W(block, t + i) == w[i]
  }

  lemma {:induction false} WordAt(block: seq<Octet>, t: nat)
    requires |block| == 64 && t >= 16
    ensures W(block, t) == Next(W(block, t - 3), W(block, t - 8), W(block, t - 14), W(block, t - 16))
  {
  }

  lemma FollowsAt(w: seq<Word>, x: seq<Word>, i: nat)
    requires Follows(w, x) && i < 16
    ensures x[i] == Next(if i < 3 then w[i + 13] else x[i - 3], if i < 8 then w[i + 8] else x[i - 8],
                         if i < 14 then w[i + 2] else x[i - 14], w[i])
  {
    hide Next, Follows;
    if i < 3 { FollowsStart(w, x, i); } else if i < 8 { FollowsThen(w, x, i); }
    else if i < 14 { FollowsOn(w, x, i); } else { FollowsLast(w, x, i); }
  }

  lemma FollowsStart(w: seq<Word>, x: seq<Word>, i: nat)
    requires Follows(w, x) && i < 3
    ensures x[i] == Next(w[i + 13], w[i + 8], w[i + 2], w[i])
  {
    hide Next;
  }

  lemma FollowsThen(w: seq<Word>, x: seq<Word>, i: nat)
    requires Follows(w, x) && 3 <= i < 8
    ensures x[i] == Next(x[i - 3], w[i + 8], w[i + 2], w[i])
  {
    hide Next;
  }

  lemma FollowsOn(w: seq<Word>, x: seq<Word>, i: nat)
    requires Follows(w, x) && 8 <= i < 14
    ensures x[i] == Next(x[i - 3], x[i - 8], w[i + 2], w[i])
  {
    hide Next;
  }

  lemma FollowsLast(w: seq<Word>, x: seq<Word>, i: nat)
    requires Follows(w, x) && 14 <= i < 16
    ensures x[i] == Next(x[i - 3], x[i - 8], x[i - 14], w[i])
  {
    hide Next;
  }

  lemma {:induction false} WordsOn(block: seq<Octet>, t: nat, w: seq<Word>, x: seq<Word>)
    requires |block| == 64 && Words(block, t, w) && Follows(w, x)
    ensures Words(block, t + 16, x)
  {
    hide W, Next;
    for i := 0 to 16
      invariant forall k | t + 16 <= k < t + 16 + i :: W(block, k) == x[k - t - 16]
    {
      forall k | t <= k < t + 16 ensures W(block, k) == w[k - t] { assert W(block, t + (k - t)) == w[k - t]; }
      FollowsAt(w, x, i);
      WordAt(block, t + 16 + i);
    }
    forall i | 0 <= i < 16 ensures W(block, t + 16 + i) == x[i] {
      var k := t + 16 + i;
      assert W(block, k) == x[k - t - 16];
    }
  }

  lemma {:induction false} RoundsOn(s: Vars, block: seq<Octet>, t: nat, w: seq<Word>)
    requires |block| == 64 && Words(block, t, w)
    ensures Rounds(s, block, t + 16) == Sixteen(Rounds(s, block, t), t, w)
  {
    hide W, Round;
    FourOn(s, block, t, w[0], w[1], w[2], w[3]);
    FourOn(s, block, t + 4, w[4], w[5], w[6], w[7]);
    FourOn(s, block, t + 8, w[8], w[9], w[10], w[11]);
    FourOn(s, block, t + 12, w[12], w[13], w[14], w[15]);
  }

  lemma {:induction false} FourOn(s: Vars, block: seq<Octet>, t: nat, a: Word, b: Word, c: Word, d: Word)
    requires |block| == 64 && W(block, t) == a && W(block, t + 1) == b && W(block, t + 2) == c && W(block, t + 3) == d
    ensures Rounds(s, block, t + 4) == Four(Rounds(s, block, t), t, a, b, c, d)
  {
    hide W, Round;
    assert Rounds(s, block, t + 1) == Round(Rounds(s, block, t), t, a);
    assert Rounds(s, block, t + 2) == Round(Rounds(s, block, t + 1), t + 1, b);
    assert Rounds(s, block, t + 3) == Round(Rounds(s, block, t + 2), t + 2, c);
  }

  /** The block begins with the words w. */
  ghost predicate Begins(block: seq<Octet>, w: seq<Word>)
  {
    |block| == 64 && |w| == 16 && forall i | 0 <= i < 16 :: BlockWord(block, i) == w[i]
  }

  lemma {:induction false} FirstWords(block: seq<Octet>, w: seq<Word>)
    requires Begins(block, w)
    ensures Words(block, 0, w)
  {
    hide BlockWord;
  }

  /** The whole block, by its words and the variables after every sixteen rounds. */
  lemma {:induction false} BlockIs(s: Vars, block: seq<Octet>, w: seq<seq<Word>>, v: seq<Vars>)
    requires |w| == 5 && |v| == 6 && v[0] == s && forall k | 0 <= k < 5 :: |w[k]| == 16
    requires Begins(block, w[0]) && forall k | 0 <= k < 4 :: Follows(w[k], w[k + 1])
    requires forall k | 0 <= k < 5 :: Sixteen(v[k], 16 * k, w[k]) == v[k + 1]
    ensures Compress(s, block) == Plus(s, v[5])
  {
    hide Follows, Sixteen, Words, W, Round, Plus;
    FirstWords(block, w[0]);
    for k := 0 to 5
      invariant k < 5 ==> Words(block, 16 * k, w[k])
      invariant Rounds(s, block, 16 * k) == v[k]
    {
      RoundsOn(s, block, 16 * k, w[k]);
      if k < 4 { WordsOn(block, 16 * k, w[k], w[k + 1]); }
    }
  }

  // ----- "abc", padded

  const ABC_0: seq<Word> := [
    0x61626380, 0x00000000, 0x00000000, 0x00000000, 0x00000000, 0x00000000, 0x00000000, 0x00000000,
    0x00000000, 0x00000000, 0x00000000, 0x00000000, 0x00000000, 0x00000000, 0x00000000, 0x00000018]

  const ABC_1: seq<Word> := [
    0xC2C4C700, 0x00000000, 0x00000030, 0x85898E01, 0x00000000, 0x00000060, 0x0B131C03, 0x00000030,
    0x85898EC1, 0x16263806, 0x00000000, 0x00000180, 0x2C4C700C, 0x000000F0, 0x93AFB507, 0x5898E048]

  const ABC_2: seq<Word> := [
    0x8E9A9202, 0x00000600, 0xB131C0F0, 0x16263BC6, 0x4EBED41E, 0x626380A1, 0x16263806, 0x000018C0,
    0xD2E138C4, 0x00000F00, 0x3AFB5079, 0x898E04E5, 0xE2BA3C2B, 0x000060C0, 0x053A37CD, 0x74458547]

  const ABC_3: seq<Word> := [
    0xDA9415ED, 0x26380A16, 0x626383A1, 0x4EBF54DE, 0x3835B44B, 0x0000F600, 0x1E84C7A3, 0x98E04D98,
    0x651D16A0, 0x62658CA1, 0x458544D6, 0x44584CB7, 0x7BA06619, 0x6380AEA2, 0x0AE55269, 0x627B49A1]

  const ABC_4: seq<Word> := [
    0x7CD45C9D, 0x000F0000, 0xFB50753A, 0xEC6765E8, 0xBA3C2BE2, 0x0060C000, 0x3A37CD05, 0x458546F4,
    0xB8599DD6, 0x380A1A26, 0x01E02203, 0xE7CC3456, 0xE6E60B69, 0x00F60A00, 0x5795EF4F, 0x822E0879]

  lemma {:induction false} AbcWords0()
    ensures Follows(ABC_0, ABC_1)
  {
  }

  lemma {:induction false} AbcWords1()
    ensures Follows(ABC_1, ABC_2)
  {
  }

  lemma {:induction false} AbcWords2()
    ensures Follows(ABC_2, ABC_3)
  {
  }

  lemma {:induction false} AbcWords3()
    ensures Follows(ABC_3, ABC_4)
  {
  }

  lemma {:induction false} AbcFours0()
    ensures Four(Vars(0x67452301, 0xEFCDAB89, 0x98BADCFE, 0x10325476, 0xC3D2E1F0), 0, 0x61626380, 0x00000000, 0x00000000, 0x00000000)
      == Vars(0xCDD8E11B, 0xA1390F08, 0x626414DB, 0xC045BF0C, 0x59D148C0)
    ensures Four(Vars(0xCDD8E11B, 0xA1390F08, 0x626414DB, 0xC045BF0C, 0x59D148C0), 4, 0x00000000, 0x00000000, 0x00000000, 0x00000000)
      == Vars(0x9E8C07D4, 0x993E30C1, 0x0FF1F290, 0xB3F52677, 0xF3763846)
    ensures Four(Vars(0x9E8C07D4, 0x993E30C1, 0x0FF1F290, 0xB3F52677, 0xF3763846), 8, 0x00000000, 0x00000000, 0x00000000, 0x00000000)
      == Vars(0x63188FE4, 0xFBDA9E89, 0x60D47E4A, 0x12DAB8CA, 0x27A301F5)
    ensures Four(Vars(0x63188FE4, 0xFBDA9E89, 0x60D47E4A, 0x12DAB8CA, 0x27A301F5), 12, 0x00000000, 0x00000000, 0x00000000, 0x00000018)
      == Vars(0x20BDD62F, 0x196BEE77, 0x644A3DA5, 0x1181ED99, 0x18C623F9)
    ensures Four(Vars(0x20BDD62F, 0x196BEE77, 0x644A3DA5, 0x1181ED99, 0x18C623F9), 16, 0xC2C4C700, 0x00000000, 0x00000030, 0x85898E01)
      == Vars(0xFD9E1D7D, 0xDC64901D, 0x20AA99CA, 0xD3A49608, 0xC82F758B)
    ensures Four(Vars(0xFD9E1D7D, 0xDC64901D, 0x20AA99CA, 0xD3A49608, 0xC82F758B), 20, 0x00000000, 0x00000060, 0x0B131C03, 0x00000030)
      == Vars(0xD541F12D, 0x21283486, 0x0CE88EFF, 0x868DEC32, 0x7F67875F)
    ensures Four(Vars(0xD541F12D, 0x21283486, 0x0CE88EFF, 0x868DEC32, 0x7F67875F), 24, 0x85898EC1, 0x16263806, 0x00000000, 0x00000180)
      == Vars(0x4AA84D97, 0xBE35FBD5, 0x12104EE9, 0xB1D59F71, 0x75507C4B)
    ensures Four(Vars(0x4AA84D97, 0xBE35FBD5, 0x12104EE9, 0xB1D59F71, 0x75507C4B), 28, 0x2C4C700C, 0x000000F0, 0x93AFB507, 0x5898E048)
      == Vars(0x3B845D33, 0x1267B407, 0x717EEBD7, 0xA0DC2D4B, 0xD2AA1365)
  {
  }

  lemma {:induction false} AbcFours1()
    ensures Four(Vars(0x3B845D33, 0x1267B407, 0x717EEBD7, 0xA0DC2D4B, 0xD2AA1365), 32, 0x8E9A9202, 0x00000600, 0xB131C0F0, 0x16263BC6)
      == Vars(0xDCBBB0CB, 0x21796AD4, 0x4B03AF04, 0x811BEA82, 0xCEE1174C)
    ensures Four(Vars(0xDCBBB0CB, 0x21796AD4, 0x4B03AF04, 0x811BEA82, 0xCEE1174C), 36, 0x4EBED41E, 0x626380A1, 0x16263806, 0x000018C0)
      == Vars(0x32DE1CBA, 0x4C986405, 0xF718E5CF, 0x03D447F6, 0xF72EEC32)
    ensures Four(Vars(0x32DE1CBA, 0x4C986405, 0xF718E5CF, 0x03D447F6, 0xF72EEC32), 40, 0xD2E138C4, 0x00000F00, 0x3AFB5079, 0x898E04E5)
      == Vars(0xEE1B1AAF, 0x7F193DC5, 0x25C28357, 0xFF21F7B7, 0x8CB7872E)
    ensures Four(Vars(0xEE1B1AAF, 0x7F193DC5, 0x25C28357, 0xFF21F7B7, 0x8CB7872E), 44, 0xE2BA3C2B, 0x000060C0, 0x053A37CD, 0x74458547)
      == Vars(0xBEAD02CA, 0xA01B846C, 0x8714787C, 0x503CA382, 0xFB86C6AB)
    ensures Four(Vars(0xBEAD02CA, 0xA01B846C, 0x8714787C, 0x503CA382, 0xFB86C6AB), 48, 0xDA9415ED, 0x26380A16, 0x626383A1, 0x4EBF54DE)
      == Vars(0x3847AD66, 0x641DB2CE, 0x4481CC71, 0xEEBCE4CD, 0xAFAB40B2)
    ensures Four(Vars(0x3847AD66, 0x641DB2CE, 0x4481CC71, 0xEEBCE4CD, 0xAFAB40B2), 52, 0x3835B44B, 0x0000F600, 0x1E84C7A3, 0x98E04D98)
      == Vars(0x5E6456AF, 0x7B71F76D, 0x09FA7C76, 0x792410DB, 0x8E11EB59)
    ensures Four(Vars(0x5E6456AF, 0x7B71F76D, 0x09FA7C76, 0x792410DB, 0x8E11EB59), 56, 0x651D16A0, 0x62658CA1, 0x458544D6, 0x44584CB7)
      == Vars(0x3F52DE5A, 0x09D785FD, 0x3498BFD4, 0xF211824F, 0xD79915AB)
    ensures Four(Vars(0x3F52DE5A, 0x09D785FD, 0x3498BFD4, 0xF211824F, 0xD79915AB), 60, 0x7BA06619, 0x6380AEA2, 0x0AE55269, 0x627B49A1)
      == Vars(0x6B61C9E1, 0xB66C020B, 0x9523272C, 0xF5D5B051, 0x8FD4B796)
  {
  }

  lemma {:induction false} AbcFours2()
    ensures Four(Vars(0x6B61C9E1, 0xB66C020B, 0x9523272C, 0xF5D5B051, 0x8FD4B796), 64, 0x7CD45C9D, 0x000F0000, 0xFB50753A, 0xEC6765E8)
      == Vars(0x78DD4D2B, 0x0C3DF2B4, 0x4405957E, 0x0677E9EB, 0x5AD87278)
    ensures Four(Vars(0x78DD4D2B, 0x0C3DF2B4, 0x4405957E, 0x0677E9EB, 0x5AD87278), 68, 0xBA3C2BE2, 0x0060C000, 0x3A37CD05, 0x458546F4)
      == Vars(0x39859DE7, 0xC199F8C7, 0x8FC96230, 0x125C24F0, 0xDE37534A)
    ensures Four(Vars(0x39859DE7, 0xC199F8C7, 0x8FC96230, 0x125C24F0, 0xDE37534A), 72, 0xB8599DD6, 0x380A1A26, 0x01E02203, 0xE7CC3456)
      == Vars(0x63F7DAB7, 0x5EE76897, 0xC45E4FDB, 0x3B6D0B79, 0xCE616779)
    ensures Four(Vars(0x63F7DAB7, 0x5EE76897, 0xC45E4FDB, 0x3B6D0B79, 0xCE616779), 76, 0xE6E60B69, 0x00F60A00, 0x5795EF4F, 0x822E0879)
      == Vars(0x42541B35, 0x5738D5E1, 0x21834873, 0x681E6DF6, 0xD8FDF6AD)
  {
  }

  lemma {:induction false} AbcRounds()
    ensures Sixteen(INITIAL, 0, ABC_0)
      == Vars(0x20BDD62F, 0x196BEE77, 0x644A3DA5, 0x1181ED99, 0x18C623F9)
    ensures Sixteen(Vars(0x20BDD62F, 0x196BEE77, 0x644A3DA5, 0x1181ED99, 0x18C623F9), 16, ABC_1)
      == Vars(0x3B845D33, 0x1267B407, 0x717EEBD7, 0xA0DC2D4B, 0xD2AA1365)
    ensures Sixteen(Vars(0x3B845D33, 0x1267B407, 0x717EEBD7, 0xA0DC2D4B, 0xD2AA1365), 32, ABC_2)
      == Vars(0xBEAD02CA, 0xA01B846C, 0x8714787C, 0x503CA382, 0xFB86C6AB)
    ensures Sixteen(Vars(0xBEAD02CA, 0xA01B846C, 0x8714787C, 0x503CA382, 0xFB86C6AB), 48, ABC_3)
      == Vars(0x6B61C9E1, 0xB66C020B, 0x9523272C, 0xF5D5B051, 0x8FD4B796)
    ensures Sixteen(Vars(0x6B61C9E1, 0xB66C020B, 0x9523272C, 0xF5D5B051, 0x8FD4B796), 64, ABC_4)
      == Vars(0x42541B35, 0x5738D5E1, 0x21834873, 0x681E6DF6, 0xD8FDF6AD)
  {
    hide Four;
    AbcFours0();
    AbcFours1();
    AbcFours2();
  }

  lemma {:induction false} Abc(block: seq<Octet>)
    requires Begins(block, ABC_0)
    ensures Compress(INITIAL, block) == Vars(0xA9993E36, 0x4706816A, 0xBA3E2571, 0x7850C26C, 0x9CD0D89D)
  {
    hide Begins, Follows, Sixteen, Compress;
    AbcWords0(); AbcWords1(); AbcWords2(); AbcWords3();
    AbcRounds();
    BlockIs(INITIAL, block, [ABC_0, ABC_1, ABC_2, ABC_3, ABC_4],
      [INITIAL,
       Vars(0x20BDD62F, 0x196BEE77, 0x644A3DA5, 0x1181ED99, 0x18C623F9),
       Vars(0x3B845D33, 0x1267B407, 0x717EEBD7, 0xA0DC2D4B, 0xD2AA1365),
       Vars(0xBEAD02CA, 0xA01B846C, 0x8714787C, 0x503CA382, 0xFB86C6AB),
       Vars(0x6B61C9E1, 0xB66C020B, 0x9523272C, 0xF5D5B051, 0x8FD4B796),
       Vars(0x42541B35, 0x5738D5E1, 0x21834873, 0x681E6DF6, 0xD8FDF6AD)]);
  }

  // ----- the first block of the message of 56 bytes, padded

  const FIRST_0: seq<Word> := [
    0x61626364, 0x62636465, 0x63646566, 0x64656667, 0x65666768, 0x66676869, 0x6768696A, 0x68696A6B,
    0x696A6B6C, 0x6A6B6C6D, 0x6B6C6D6E, 0x6C6D6E6F, 0x6D6E6F70, 0x6E6F7071, 0x80000000, 0x00000000]

  const FIRST_1: seq<Word> := [
    0x0A063A3E, 0xD8DADCDF, 0xDADCDEC0, 0xC8D2B4BE, 0x6F757B5B, 0x757B5967, 0x8DA16D70, 0xDAEEFABA,
    0xFAF6CAB6, 0xA6FB675A, 0x0C604CC8, 0x604CC02C, 0x49C0E6E2, 0x2EE8CBBC, 0xCFD72EC4, 0x97E9810E]

  const FIRST_2: seq<Word> := [
    0x0989CBE8, 0xF24843FE, 0x5C40D0BA, 0xA8D9CC3B, 0xB2B9666E, 0xBA7B71B7, 0x20B28A72, 0xB28AF500,
    0x8AC87842, 0x289ADDF4, 0x56D51F21, 0xD96B7FD2, 0x3868E778, 0xAB5E4848, 0x7F0E2118, 0xDE87A111]

  const FIRST_3: seq<Word> := [
    0xE8BE56B0, 0x1A0AE652, 0xCD5611C8, 0x46EF29DC, 0x60D3DA6D, 0xDDF3BA6E, 0x2737F5E9, 0x4888A710,
    0xD2A1177B, 0x9999633B, 0xD6C69D03, 0xCCF6127B, 0x7C58FE6D, 0xFDD99C68, 0xF8E32074, 0xE0BA3C7D]

  const FIRST_4: seq<Word> := [
    0x152198D6, 0x7B3F1982, 0x37F2D5B7, 0x8596323E, 0x810790D6, 0xBEA0A942, 0x11C7E1B1, 0x6158D101,
    0x5FCD77D9, 0x7F2F12E6, 0xF868CFB1, 0xD6E997E9, 0xF526B852, 0xB7578DCC, 0x55D99DF4, 0x1FF69958]

  lemma {:induction false} FirstWords0()
    ensures Follows(FIRST_0, FIRST_1)
  {
  }

  lemma {:induction false} FirstWords1()
    ensures Follows(FIRST_1, FIRST_2)
  {
  }

  lemma {:induction false} FirstWords2()
    ensures Follows(FIRST_2, FIRST_3)
  {
  }

  lemma {:induction false} FirstWords3()
    ensures Follows(FIRST_3, FIRST_4)
  {
  }

  lemma {:induction false} FirstFours0()
    ensures Four(Vars(0x67452301, 0xEFCDAB89, 0x98BADCFE, 0x10325476, 0xC3D2E1F0), 0, 0x61626364, 0x62636465, 0x63646566, 0x64656667)
      == Vars(0x2C4F6EAC, 0x5109913A, 0xBAFCED14, 0xC045BF05, 0x59D148C0)
    ensures Four(Vars(0x2C4F6EAC, 0x5109913A, 0xBAFCED14, 0xC045BF05, 0x59D148C0), 4, 0x65666768, 0x66676869, 0x6768696A, 0x68696A6B)
      == Vars(0x45833F0F, 0xDB04CB58, 0x65AE1462, 0xCCFD2B96, 0x0B13DBAB)
    ensures Four(Vars(0x45833F0F, 0xDB04CB58, 0x65AE1462, 0xCCFD2B96, 0x0B13DBAB), 8, 0x696A6B6C, 0x6A6B6C6D, 0x6B6C6D6E, 0x6C6D6E6F)
      == Vars(0xE19ECAA2, 0x8993EA77, 0x98D42BF6, 0xB15970D7, 0xD160CFC3)
    ensures Four(Vars(0xE19ECAA2, 0x8993EA77, 0x98D42BF6, 0xB15970D7, 0xD160CFC3), 12, 0x6D6E6F70, 0x6E6F7071, 0x80000000, 0x00000000)
      == Vars(0x42637E39, 0xB2E7A8BE, 0x4CBE52A1, 0xA180D207, 0xB867B2A8)
    ensures Four(Vars(0x42637E39, 0xB2E7A8BE, 0x4CBE52A1, 0xA180D207, 0xB867B2A8), 16, 0x0A063A3E, 0xD8DADCDF, 0xDADCDEC0, 0xC8D2B4BE)
      == Vars(0x6C445652, 0x944B1BD1, 0x509AE70D, 0x1AC1A012, 0x5098DF8E)
    ensures Four(Vars(0x6C445652, 0x944B1BD1, 0x509AE70D, 0x1AC1A012, 0x5098DF8E), 20, 0x6F757B5B, 0x757B5967, 0x8DA16D70, 0xDAEEFABA)
      == Vars(0xFD224575, 0xE2B92DC4, 0xC254445D, 0x6560DB69, 0x9B111594)
    ensures Four(Vars(0xFD224575, 0xE2B92DC4, 0xC254445D, 0x6560DB69, 0x9B111594), 24, 0xFAF6CAB6, 0xA6FB675A, 0x0C604CC8, 0x604CC02C)
      == Vars(0xD526A644, 0x2972F7C7, 0x96850B06, 0xBBAE0B66, 0x7F48915D)
    ensures Four(Vars(0xD526A644, 0x2972F7C7, 0x96850B06, 0xBBAE0B66, 0x7F48915D), 28, 0x49C0E6E2, 0x2EE8CBBC, 0xCFD72EC4, 0x97E9810E)
      == Vars(0x52E31F60, 0xA9C84BEC, 0x816D15EC, 0x78448908, 0x3549A991)
  {
  }

  lemma {:induction false} FirstFours1()
    ensures Four(Vars(0x52E31F60, 0xA9C84BEC, 0x816D15EC, 0x78448908, 0x3549A991), 32, 0x0989CBE8, 0xF24843FE, 0x5C40D0BA, 0xA8D9CC3B)
      == Vars(0xAB7C32EE, 0xE9AC987C, 0x4C71D5AA, 0x16BCC90B, 0x14B8C7D8)
    ensures Four(Vars(0xAB7C32EE, 0xE9AC987C, 0x4C71D5AA, 0x16BCC90B, 0x14B8C7D8), 36, 0xB2B9666E, 0xBA7B71B7, 0x20B28A72, 0xB28AF500)
      == Vars(0xADEB7478, 0x24957F22, 0x50FE1EBA, 0x564CFF26, 0xAADF0CBB)
    ensures Four(Vars(0xADEB7478, 0x24957F22, 0x50FE1EBA, 0x564CFF26, 0xAADF0CBB), 40, 0x8AC87842, 0x289ADDF4, 0x56D51F21, 0xD96B7FD2)
      == Vars(0x633E9561, 0xF9BCB8DE, 0x1E6F3EC2, 0x35C39404, 0x2B7ADD1E)
    ensures Four(Vars(0x633E9561, 0xF9BCB8DE, 0x1E6F3EC2, 0x35C39404, 0x2B7ADD1E), 44, 0x3868E778, 0xAB5E4848, 0x7F0E2118, 0xDE87A111)
      == Vars(0xC8A69090, 0xA2AD4F02, 0xB1BA8907, 0x26307A99, 0x58CFA558)
    ensures Four(Vars(0xC8A69090, 0xA2AD4F02, 0xB1BA8907, 0x26307A99, 0x58CFA558), 48, 0xE8BE56B0, 0x1A0AE652, 0xCD5611C8, 0x46EF29DC)
      == Vars(0x8D2E76C8, 0x86E358BA, 0x1FA11BD6, 0x220D0580, 0x3229A424)
    ensures Four(Vars(0x8D2E76C8, 0x86E358BA, 0x1FA11BD6, 0x220D0580, 0x3229A424), 52, 0x60D3DA6D, 0xDDF3BA6E, 0x2737F5E9, 0x4888A710)
      == Vars(0x776C3910, 0x36D1230A, 0x7B7AA56C, 0x33A24B84, 0x234B9DB2)
    ensures Four(Vars(0x776C3910, 0x36D1230A, 0x7B7AA56C, 0x33A24B84, 0x234B9DB2), 56, 0xD2A1177B, 0x9999633B, 0xD6C69D03, 0xCCF6127B)
      == Vars(0x9EF775C3, 0xF03D3782, 0xEB029E53, 0xE9A06DC8, 0x1DDB0E44)
    ensures Four(Vars(0x9EF775C3, 0xF03D3782, 0xEB029E53, 0xE9A06DC8, 0x1DDB0E44), 60, 0x7C58FE6D, 0xFDD99C68, 0xF8E32074, 0xE0BA3C7D)
      == Vars(0x513F9CA0, 0x2BFAF7A8, 0x10203537, 0xCD8952C4, 0xE7BDDD70)
  {
  }

  lemma {:induction false} FirstFours2()
    ensures Four(Vars(0x513F9CA0, 0x2BFAF7A8, 0x10203537, 0xCD8952C4, 0xE7BDDD70), 64, 0x152198D6, 0x7B3F1982, 0x37F2D5B7, 0x8596323E)
      == Vars(0x6D17C9FD, 0x14A82DA9, 0x440DF4B5, 0x79625720, 0x144FE728)
    ensures Four(Vars(0x6D17C9FD, 0x14A82DA9, 0x440DF4B5, 0x79625720, 0x144FE728), 68, 0x810790D6, 0xBEA0A942, 0x11C7E1B1, 0x6158D101)
      == Vars(0x84065712, 0x112B96E3, 0xFF7DBBFF, 0x4B1EC1EF, 0x5B45F27F)
    ensures Four(Vars(0x84065712, 0x112B96E3, 0xFF7DBBFF, 0x4B1EC1EF, 0x5B45F27F), 72, 0x5FCD77D9, 0x7F2F12E6, 0xF868CFB1, 0xD6E997E9)
      == Vars(0x1A0E0E0A, 0x352D9F4B, 0x7148438D, 0x6AE27EDC, 0xA10195C4)
    ensures Four(Vars(0x1A0E0E0A, 0x352D9F4B, 0x7148438D, 0x6AE27EDC, 0xA10195C4), 76, 0xF526B852, 0xB7578DCC, 0x55D99DF4, 0x1FF69958)
      == Vars(0x8CE34517, 0xD3AD7C25, 0x6B4E1883, 0x74351CD2, 0x86838382)
  {
  }

  lemma {:induction false} FirstRounds()
    ensures Sixteen(INITIAL, 0, FIRST_0)
      == Vars(0x42637E39, 0xB2E7A8BE, 0x4CBE52A1, 0xA180D207, 0xB867B2A8)
    ensures Sixteen(Vars(0x42637E39, 0xB2E7A8BE, 0x4CBE52A1, 0xA180D207, 0xB867B2A8), 16, FIRST_1)
      == Vars(0x52E31F60, 0xA9C84BEC, 0x816D15EC, 0x78448908, 0x3549A991)
    ensures Sixteen(Vars(0x52E31F60, 0xA9C84BEC, 0x816D15EC, 0x78448908, 0x3549A991), 32, FIRST_2)
      == Vars(0xC8A69090, 0xA2AD4F02, 0xB1BA8907, 0x26307A99, 0x58CFA558)
    ensures Sixteen(Vars(0xC8A69090, 0xA2AD4F02, 0xB1BA8907, 0x26307A99, 0x58CFA558), 48, FIRST_3)
      == Vars(0x513F9CA0, 0x2BFAF7A8, 0x10203537, 0xCD8952C4, 0xE7BDDD70)
    ensures Sixteen(Vars(0x513F9CA0, 0x2BFAF7A8, 0x10203537, 0xCD8952C4, 0xE7BDDD70), 64, FIRST_4)
      == Vars(0x8CE34517, 0xD3AD7C25, 0x6B4E1883, 0x74351CD2, 0x86838382)
  {
    hide Four;
    FirstFours0();
    FirstFours1();
    FirstFours2();
  }

  lemma {:induction false} First(block: seq<Octet>)
    requires Begins(block, FIRST_0)
    ensures Compress(INITIAL, block) == Vars(0xF4286818, 0xC37B27AE, 0x0408F581, 0x84677148, 0x4A566572)
  {
    hide Begins, Follows, Sixteen, Compress;
    FirstWords0(); FirstWords1(); FirstWords2(); FirstWords3();
    FirstRounds();
    BlockIs(INITIAL, block, [FIRST_0, FIRST_1, FIRST_2, FIRST_3, FIRST_4],
      [INITIAL,
       Vars(0x42637E39, 0xB2E7A8BE, 0x4CBE52A1, 0xA180D207, 0xB867B2A8),
       Vars(0x52E31F60, 0xA9C84BEC, 0x816D15EC, 0x78448908, 0x3549A991),
       Vars(0xC8A69090, 0xA2AD4F02, 0xB1BA8907, 0x26307A99, 0x58CFA558),
       Vars(0x513F9CA0, 0x2BFAF7A8, 0x10203537, 0xCD8952C4, 0xE7BDDD70),
       Vars(0x8CE34517, 0xD3AD7C25, 0x6B4E1883, 0x74351CD2, 0x86838382)]);
  }

  // ----- its second block

  const SECOND_0: seq<Word> := [
    0x00000000, 0x00000000, 0x00000000, 0x00000000, 0x00000000, 0x00000000, 0x00000000, 0x00000000,
    0x00000000, 0x00000000, 0x00000000, 0x00000000, 0x00000000, 0x00000000, 0x00000000, 0x000001C0]

  const SECOND_1: seq<Word> := [
    0x00000000, 0x00000000, 0x00000380, 0x00000000, 0x00000000, 0x00000700, 0x00000000, 0x00000380,
    0x00000E00, 0x00000000, 0x00000000, 0x00001C00, 0x00000000, 0x00000D80, 0x00003800, 0x00000480]

  const SECOND_2: seq<Word> := [
    0x00000000, 0x00007000, 0x00000E00, 0x00003600, 0x0000E000, 0x00000E00, 0x00000000, 0x0001CE00,
    0x00000000, 0x0000D800, 0x00038000, 0x00004F00, 0x00000000, 0x00070E00, 0x0000EE00, 0x00037500]

  const SECOND_3: seq<Word> := [
    0x000E0000, 0x0000E000, 0x00003600, 0x001CEE00, 0x00000000, 0x000DF000, 0x00380000, 0x0004C600,
    0x0000E000, 0x0070EE00, 0x000EE000, 0x00369E00, 0x00E00000, 0x000ED600, 0x0000E000, 0x01CEA600]

  const SECOND_4: seq<Word> := [
    0x00000000, 0x00D80000, 0x0380E000, 0x004F0000, 0x00000000, 0x070E0000, 0x00EE0000, 0x03751C00,
    0x0E000000, 0x00E0E000, 0x00363800, 0x1CEE9000, 0x00000000, 0x0DF09000, 0x3800E000, 0x04C77400]

  lemma {:induction false} SecondWords0()
    ensures Follows(SECOND_0, SECOND_1)
  {
  }

  lemma {:induction false} SecondWords1()
    ensures Follows(SECOND_1, SECOND_2)
  {
  }

  lemma {:induction false} SecondWords2()
    ensures Follows(SECOND_2, SECOND_3)
  {
  }

  lemma {:induction false} SecondWords3()
    ensures Follows(SECOND_3, SECOND_4)
  {
  }

  lemma {:induction false} SecondFours0()
    ensures Four(Vars(0xF4286818, 0xC37B27AE, 0x0408F581, 0x84677148, 0x4A566572), 0, 0x00000000, 0x00000000, 0x00000000, 0x00000000)
      == Vars(0xEEF743C6, 0xC352BB05, 0xD34F7163, 0x4B7C95FA, 0x3D0A1A06)
    ensures Four(Vars(0xEEF743C6, 0xC352BB05, 0xD34F7163, 0x4B7C95FA, 0x3D0A1A06), 4, 0x00000000, 0x00000000, 0x00000000, 0x00000000)
      == Vars(0xC6946813, 0xE7FA0377, 0x1510E457, 0xD078D09D, 0xBBBDD0F1)
    ensures Four(Vars(0xC6946813, 0xE7FA0377, 0x1510E457, 0xD078D09D, 0xBBBDD0F1), 8, 0x00000000, 0x00000000, 0x00000000, 0x00000000)
      == Vars(0x43A2792F, 0x6BA94F63, 0xAE14E2B2, 0x7F778778, 0xF1A51A04)
    ensures Four(Vars(0x43A2792F, 0x6BA94F63, 0xAE14E2B2, 0x7F778778, 0xF1A51A04), 12, 0x00000000, 0x00000000, 0x00000000, 0x000001C0)
      == Vars(0xD9772360, 0x258B0BAA, 0x2898132A, 0xFFB35EEF, 0xD0E89E4B)
    ensures Four(Vars(0xD9772360, 0x258B0BAA, 0x2898132A, 0xFFB35EEF, 0xD0E89E4B), 16, 0x00000000, 0x00000000, 0x00000380, 0x00000000)
      == Vars(0xD8992153, 0xC2EB709F, 0x2946D62F, 0x9541F6DB, 0x365DC8D8)
    ensures Four(Vars(0xD8992153, 0xC2EB709F, 0x2946D62F, 0x9541F6DB, 0x365DC8D8), 20, 0x00000000, 0x00000700, 0x00000000, 0x00000380)
      == Vars(0x8FBAA5B9, 0x9AD594B9, 0x7BA1C02F, 0xCDD20BD7, 0xF6264854)
    ensures Four(Vars(0x8FBAA5B9, 0x9AD594B9, 0x7BA1C02F, 0xCDD20BD7, 0xF6264854), 24, 0x00000E00, 0x00000000, 0x00000000, 0x00001C00)
      == Vars(0x5C416DAF, 0x50BCE434, 0x7BB14148, 0xE23ED619, 0x63EEA96E)
    ensures Four(Vars(0x5C416DAF, 0x50BCE434, 0x7BB14148, 0xE23ED619, 0x63EEA96E), 28, 0x00000000, 0x00000D80, 0x00003800, 0x00000480)
      == Vars(0x8A4AF384, 0x17986223, 0x028BEC42, 0xC90A6F97, 0xD7105B6B)
  {
  }

  lemma {:induction false} SecondFours1()
    ensures Four(Vars(0x8A4AF384, 0x17986223, 0x028BEC42, 0xC90A6F97, 0xD7105B6B), 32, 0x00000000, 0x00007000, 0x00000E00, 0x00003600)
      == Vars(0x696DA404, 0x295CC25B, 0xFC57C13C, 0xDAD8A664, 0x2292BCE1)
    ensures Four(Vars(0x696DA404, 0x295CC25B, 0xFC57C13C, 0xDAD8A664, 0x2292BCE1), 36, 0x0000E000, 0x00000E00, 0x00000000, 0x0001CE00)
      == Vars(0x03BB6310, 0x84E2A5F2, 0x21F56E03, 0xB3BD6B84, 0x1A5B6901)
    ensures Four(Vars(0x03BB6310, 0x84E2A5F2, 0x21F56E03, 0xB3BD6B84, 0x1A5B6901), 40, 0x00000000, 0x0000D800, 0x00038000, 0x00004F00)
      == Vars(0xEC1D3D61, 0x28589152, 0x2FEC95DA, 0xF0B63DD7, 0x00EED8C4)
    ensures Four(Vars(0xEC1D3D61, 0x28589152, 0x2FEC95DA, 0xF0B63DD7, 0x00EED8C4), 44, 0x00000000, 0x00070E00, 0x0000EE00, 0x00037500)
      == Vars(0x46F93B68, 0x7316056A, 0xB0F40CFA, 0xCF2BB5EB, 0x7B074F58)
    ensures Four(Vars(0x46F93B68, 0x7316056A, 0xB0F40CFA, 0xCF2BB5EB, 0x7B074F58), 48, 0x000E0000, 0x0000E000, 0x00003600, 0x001CEE00)
      == Vars(0x89FBD41D, 0x7E4672C0, 0x21435047, 0xB7239FC9, 0x11BE4EDA)
    ensures Four(Vars(0x89FBD41D, 0x7E4672C0, 0x21435047, 0xB7239FC9, 0x11BE4EDA), 52, 0x00000000, 0x000DF000, 0x00380000, 0x0004C600)
      == Vars(0x6DA72E7F, 0x2BDBB8CB, 0x10C7596F, 0x05E5F88A, 0x627EF507)
    ensures Four(Vars(0x6DA72E7F, 0x2BDBB8CB, 0x10C7596F, 0x05E5F88A, 0x627EF507), 56, 0x0000E000, 0x0070EE00, 0x000EE000, 0x00369E00)
      == Vars(0xA65818F7, 0x5B086C42, 0xB9E15956, 0xEA1256A6, 0xDB69CB9F)
    ensures Four(Vars(0xA65818F7, 0x5B086C42, 0xB9E15956, 0xEA1256A6, 0xDB69CB9F), 60, 0x00E00000, 0x000ED600, 0x0000E000, 0x01CEA600)
      == Vars(0xD504902B, 0xF66D9BF4, 0x24D85327, 0xDEAAC406, 0xE996063D)
  {
  }

  lemma {:induction false} SecondFours2()
    ensures Four(Vars(0xD504902B, 0xF66D9BF4, 0x24D85327, 0xDEAAC406, 0xE996063D), 64, 0x00000000, 0x00D80000, 0x0380E000, 0x004F0000)
      == Vars(0xF6226BBF, 0x083E90C3, 0x62DA1E06, 0x982A7698, 0xF541240A)
    ensures Four(Vars(0xF6226BBF, 0x083E90C3, 0x62DA1E06, 0x982A7698, 0xF541240A), 68, 0x00000000, 0x070E0000, 0x00EE0000, 0x03751C00)
      == Vars(0xAE1B8E7B, 0x8B2C7573, 0x66277459, 0xDDB0158E, 0xFD889AEF)
    ensures Four(Vars(0xAE1B8E7B, 0x8B2C7573, 0x66277459, 0xDDB0158E, 0xFD889AEF), 72, 0x0E000000, 0x00E0E000, 0x00363800, 0x1CEE9000)
      == Vars(0x6BC02DFE, 0xD28D83AD, 0xC5BCEEAE, 0xB2861037, 0xEB86E39E)
    ensures Four(Vars(0x6BC02DFE, 0xD28D83AD, 0xC5BCEEAE, 0xB2861037, 0xEB86E39E), 76, 0x00000000, 0x0DF09000, 0x3800E000, 0x04C77400)
      == Vars(0x906FD62C, 0x58C0AAC0, 0xB6A55520, 0x74E9B89D, 0x9AF00B7F)
  {
  }

  lemma {:induction false} SecondRounds()
    ensures Sixteen(Vars(0xF4286818, 0xC37B27AE, 0x0408F581, 0x84677148, 0x4A566572), 0, SECOND_0)
      == Vars(0xD9772360, 0x258B0BAA, 0x2898132A, 0xFFB35EEF, 0xD0E89E4B)
    ensures Sixteen(Vars(0xD9772360, 0x258B0BAA, 0x2898132A, 0xFFB35EEF, 0xD0E89E4B), 16, SECOND_1)
      == Vars(0x8A4AF384, 0x17986223, 0x028BEC42, 0xC90A6F97, 0xD7105B6B)
    ensures Sixteen(Vars(0x8A4AF384, 0x17986223, 0x028BEC42, 0xC90A6F97, 0xD7105B6B), 32, SECOND_2)
      == Vars(0x46F93B68, 0x7316056A, 0xB0F40CFA, 0xCF2BB5EB, 0x7B074F58)
    ensures Sixteen(Vars(0x46F93B68, 0x7316056A, 0xB0F40CFA, 0xCF2BB5EB, 0x7B074F58), 48, SECOND_3)
      == Vars(0xD504902B, 0xF66D9BF4, 0x24D85327, 0xDEAAC406, 0xE996063D)
    ensures Sixteen(Vars(0xD504902B, 0xF66D9BF4, 0x24D85327, 0xDEAAC406, 0xE996063D), 64, SECOND_4)
      == Vars(0x906FD62C, 0x58C0AAC0, 0xB6A55520, 0x74E9B89D, 0x9AF00B7F)
  {
    hide Four;
    SecondFours0();
    SecondFours1();
    SecondFours2();
  }

  lemma {:induction false} Second(block: seq<Octet>)
    requires Begins(block, SECOND_0)
    ensures Compress(Vars(0xF4286818, 0xC37B27AE, 0x0408F581, 0x84677148, 0x4A566572), block) == Vars(0x84983E44, 0x1C3BD26E, 0xBAAE4AA1, 0xF95129E5, 0xE54670F1)
  {
    hide Begins, Follows, Sixteen, Compress;
    SecondWords0(); SecondWords1(); SecondWords2(); SecondWords3();
    SecondRounds();
    BlockIs(Vars(0xF4286818, 0xC37B27AE, 0x0408F581, 0x84677148, 0x4A566572), block, [SECOND_0, SECOND_1, SECOND_2, SECOND_3, SECOND_4],
      [Vars(0xF4286818, 0xC37B27AE, 0x0408F581, 0x84677148, 0x4A566572),
       Vars(0xD9772360, 0x258B0BAA, 0x2898132A, 0xFFB35EEF, 0xD0E89E4B),
       Vars(0x8A4AF384, 0x17986223, 0x028BEC42, 0xC90A6F97, 0xD7105B6B),
       Vars(0x46F93B68, 0x7316056A, 0xB0F40CFA, 0xCF2BB5EB, 0x7B074F58),
       Vars(0xD504902B, 0xF66D9BF4, 0x24D85327, 0xDEAAC406, 0xE996063D),
       Vars(0x906FD62C, 0x58C0AAC0, 0xB6A55520, 0x74E9B89D, 0x9AF00B7F)]);
  }

  // ----- the key "Jefe", for the inner hash

  const INNER_KEY_0: seq<Word> := [
    0x7C535053, 0x36363636, 0x36363636, 0x36363636, 0x36363636, 0x36363636, 0x36363636, 0x36363636,
    0x36363636, 0x36363636, 0x36363636, 0x36363636, 0x36363636, 0x36363636, 0x36363636, 0x36363636]

  const INNER_KEY_1: seq<Word> := [
    0x94CACCCA, 0x00000000, 0x00000000, 0x45F9F5F9, 0x6C6C6C6C, 0x6C6C6C6C, 0xE79F879E, 0xB4B4B4B4,
    0xF14D414D, 0xCF3F0F3D, 0x69696969, 0x69696969, 0x46A6C6A3, 0x0A0A0A0A, 0x58142816, 0x88488843]

  const INNER_KEY_2: seq<Word> := [
    0xDF1B0F1A, 0xA5A5A5A5, 0x1A9B1A8D, 0x3FCFFFCD, 0xD1E111E8, 0x909390BF, 0xE2122210, 0x44444444,
    0xAF596F03, 0xC3C3C3C3, 0xE221E206, 0xE7EBE75B, 0x1920793C, 0xE1E1E1E1, 0x05EDC48F, 0xE112213C]

  const INNER_KEY_3: seq<Word> := [
    0x167136EB, 0xB888BA48, 0x909390BF, 0xBD8D7D84, 0x24B7E119, 0x4B4B4B4B, 0xEA57E831, 0x84448F44,
    0x2085E14A, 0xEDEEEDC2, 0xDFAD0983, 0x360534E9, 0xAB2962D1, 0x282B042B, 0x9F9C5D79, 0xEDEEEDC2]

  const INNER_KEY_4: seq<Word> := [
    0x1C98866B, 0xEEEEEEEE, 0x0CCF2BCF, 0xB8B7089B, 0x164F0A2F, 0xD7D7D7D7, 0xDBF2B933, 0x24170AD7,
    0x68CF72EA, 0xDDEF1DED, 0xB8B89494, 0x9CAC9567, 0xFE2A50D5, 0x55555555, 0x88B5EE8D, 0xB27AB25D]

  lemma {:induction false} InnerKeyWords0()
    ensures Follows(INNER_KEY_0, INNER_KEY_1)
  {
  }

  lemma {:induction false} InnerKeyWords1()
    ensures Follows(INNER_KEY_1, INNER_KEY_2)
  {
  }

  lemma {:induction false} InnerKeyWords2()
    ensures Follows(INNER_KEY_2, INNER_KEY_3)
  {
  }

  lemma {:induction false} InnerKeyWords3()
    ensures Follows(INNER_KEY_3, INNER_KEY_4)
  {
  }

  lemma {:induction false} InnerKeyFours0()
    ensures Four(Vars(0x67452301, 0xEFCDAB89, 0x98BADCFE, 0x10325476, 0xC3D2E1F0), 0, 0x7C535053, 0x36363636, 0x36363636, 0x36363636)
      == Vars(0x8EE8917D, 0x61E95870, 0x87790901, 0x8701FA41, 0x59D148C0)
    ensures Four(Vars(0x8EE8917D, 0x61E95870, 0x87790901, 0x8701FA41, 0x59D148C0), 4, 0x36363636, 0x36363636, 0x36363636, 0x36363636)
      == Vars(0x3AA423BA, 0xA96D07CD, 0x407B8295, 0x53C17490, 0x63BA245F)
    ensures Four(Vars(0x3AA423BA, 0xA96D07CD, 0x407B8295, 0x53C17490, 0x63BA245F), 8, 0x36363636, 0x36363636, 0x36363636, 0x36363636)
      == Vars(0xB589544B, 0x199C6998, 0x72BB59DA, 0xA6F82F82, 0x8EA908EE)
    ensures Four(Vars(0xB589544B, 0x199C6998, 0x72BB59DA, 0xA6F82F82, 0x8EA908EE), 12, 0x36363636, 0x36363636, 0x36363636, 0x36363636)
      == Vars(0x6C301692, 0x579D7F38, 0xDB9D8CB4, 0x61E12473, 0xED625512)
    ensures Four(Vars(0x6C301692, 0x579D7F38, 0xDB9D8CB4, 0x61E12473, 0xED625512), 16, 0x94CACCCA, 0x00000000, 0x00000000, 0x45F9F5F9)
      == Vars(0x96FF8DED, 0x097C79C0, 0x0A8020DB, 0x75ABDE8D, 0x9B0C05A4)
    ensures Four(Vars(0x96FF8DED, 0x097C79C0, 0x0A8020DB, 0x75ABDE8D, 0x9B0C05A4), 20, 0x6C6C6C6C, 0x6C6C6C6C, 0xE79F879E, 0xB4B4B4B4)
      == Vars(0x65CEE92C, 0x5D5E173C, 0x60A1D246, 0x7326E8BE, 0x65BFE37B)
    ensures Four(Vars(0x65CEE92C, 0x5D5E173C, 0x60A1D246, 0x7326E8BE, 0x65BFE37B), 24, 0xF14D414D, 0xCF3F0F3D, 0x69696969, 0x69696969)
      == Vars(0xB5C332B3, 0xDE41B2DF, 0xA5C9465E, 0x73A758EE, 0x1973BA4B)
    ensures Four(Vars(0xB5C332B3, 0xDE41B2DF, 0xA5C9465E, 0x73A758EE, 0x1973BA4B), 28, 0x46A6C6A3, 0x0A0A0A0A, 0x58142816, 0x88488843)
      == Vars(0x0C2F2726, 0xB08CDA1C, 0x315CD561, 0x23E29BDD, 0xED70CCAC)
  {
  }

  lemma {:induction false} InnerKeyFours1()
    ensures Four(Vars(0x0C2F2726, 0xB08CDA1C, 0x315CD561, 0x23E29BDD, 0xED70CCAC), 32, 0xDF1B0F1A, 0xA5A5A5A5, 0x1A9B1A8D, 0x3FCFFFCD)
      == Vars(0x4E7BD69F, 0xB288F90C, 0xEE56C2BB, 0x18DF5032, 0x830BC9C9)
    ensures Four(Vars(0x4E7BD69F, 0xB288F90C, 0xEE56C2BB, 0x18DF5032, 0x830BC9C9), 36, 0xD1E111E8, 0x909390BF, 0xE2122210, 0x44444444)
      == Vars(0x36C3694D, 0x0F5C8001, 0xE34F33C4, 0x35D0C1B0, 0xD39EF5A7)
    ensures Four(Vars(0x36C3694D, 0x0F5C8001, 0xE34F33C4, 0x35D0C1B0, 0xD39EF5A7), 40, 0xAF596F03, 0xC3C3C3C3, 0xE221E206, 0xE7EBE75B)
      == Vars(0x574768BD, 0x9C81BD4B, 0x4A0C3E45, 0x0477732B, 0x4DB0DA53)
    ensures Four(Vars(0x574768BD, 0x9C81BD4B, 0x4A0C3E45, 0x0477732B, 0x4DB0DA53), 44, 0x1920793C, 0xE1E1E1E1, 0x05EDC48F, 0xE112213C)
      == Vars(0xE6DD707E, 0xD3B4BA55, 0x86199B16, 0x3AB7D9D8, 0x55D1DA2F)
    ensures Four(Vars(0xE6DD707E, 0xD3B4BA55, 0x86199B16, 0x3AB7D9D8, 0x55D1DA2F), 48, 0x167136EB, 0xB888BA48, 0x909390BF, 0xBD8D7D84)
      == Vars(0x94131EDE, 0x50C660BC, 0xE8622BF7, 0x9A709E49, 0xB9B75C1F)
    ensures Four(Vars(0x94131EDE, 0x50C660BC, 0xE8622BF7, 0x9A709E49, 0xB9B75C1F), 52, 0x24B7E119, 0x4B4B4B4B, 0xEA57E831, 0x84448F44)
      == Vars(0x42F87FB0, 0x4B430EAD, 0x04CAB77A, 0xF2144038, 0xA504C7B7)
    ensures Four(Vars(0x42F87FB0, 0x4B430EAD, 0x04CAB77A, 0xF2144038, 0xA504C7B7), 56, 0x2085E14A, 0xEDEEEDC2, 0xDFAD0983, 0x360534E9)
      == Vars(0x2B413EDA, 0xE5108B54, 0x9C410993, 0x7D7E1887, 0x10BE1FEC)
    ensures Four(Vars(0x2B413EDA, 0xE5108B54, 0x9C410993, 0x7D7E1887, 0x10BE1FEC), 60, 0xAB2962D1, 0x282B042B, 0x9F9C5D79, 0xEDEEEDC2)
      == Vars(0xE231FDD2, 0x985CE8A7, 0x94A1CDD0, 0x3CA86E86, 0x8AD04FB6)
  {
  }

  lemma {:induction false} InnerKeyFours2()
    ensures Four(Vars(0xE231FDD2, 0x985CE8A7, 0x94A1CDD0, 0x3CA86E86, 0x8AD04FB6), 64, 0x1C98866B, 0xEEEEEEEE, 0x0CCF2BCF, 0xB8B7089B)
      == Vars(0x26ECCB9F, 0x756DD8E0, 0xA4A53C84, 0x3A182791, 0xB88C7F74)
    ensures Four(Vars(0x26ECCB9F, 0x756DD8E0, 0xA4A53C84, 0x3A182791, 0xB88C7F74), 68, 0x164F0A2F, 0xD7D7D7D7, 0xDBF2B933, 0x24170AD7)
      == Vars(0x8C5C9C04, 0x0FF914D4, 0x741D6B2B, 0x98AA20D4, 0xC9BB32E7)
    ensures Four(Vars(0x8C5C9C04, 0x0FF914D4, 0x741D6B2B, 0x98AA20D4, 0xC9BB32E7), 72, 0x68CF72EA, 0xDDEF1DED, 0xB8B89494, 0x9CAC9567)
      == Vars(0x98A75E7B, 0x16F2CAC2, 0xADA927C7, 0xDAF3D1D8, 0x23172701)
    ensures Four(Vars(0x98A75E7B, 0x16F2CAC2, 0xADA927C7, 0xDAF3D1D8, 0x23172701), 76, 0xFE2A50D5, 0x55555555, 0x88B5EE8D, 0xB27AB25D)
      == Vars(0xFB086BA6, 0x4F5D6C7A, 0xFC99DCE6, 0x188E117F, 0xE629D79E)
  {
  }

  lemma {:induction false} InnerKeyRounds()
    ensures Sixteen(INITIAL, 0, INNER_KEY_0)
      == Vars(0x6C301692, 0x579D7F38, 0xDB9D8CB4, 0x61E12473, 0xED625512)
    ensures Sixteen(Vars(0x6C301692, 0x579D7F38, 0xDB9D8CB4, 0x61E12473, 0xED625512), 16, INNER_KEY_1)
      == Vars(0x0C2F2726, 0xB08CDA1C, 0x315CD561, 0x23E29BDD, 0xED70CCAC)
    ensures Sixteen(Vars(0x0C2F2726, 0xB08CDA1C, 0x315CD561, 0x23E29BDD, 0xED70CCAC), 32, INNER_KEY_2)
      == Vars(0xE6DD707E, 0xD3B4BA55, 0x86199B16, 0x3AB7D9D8, 0x55D1DA2F)
    ensures Sixteen(Vars(0xE6DD707E, 0xD3B4BA55, 0x86199B16, 0x3AB7D9D8, 0x55D1DA2F), 48, INNER_KEY_3)
      == Vars(0xE231FDD2, 0x985CE8A7, 0x94A1CDD0, 0x3CA86E86, 0x8AD04FB6)
    ensures Sixteen(Vars(0xE231FDD2, 0x985CE8A7, 0x94A1CDD0, 0x3CA86E86, 0x8AD04FB6), 64, INNER_KEY_4)
      == Vars(0xFB086BA6, 0x4F5D6C7A, 0xFC99DCE6, 0x188E117F, 0xE629D79E)
  {
    hide Four;
    InnerKeyFours0();
    InnerKeyFours1();
    InnerKeyFours2();
  }

  lemma {:induction false} InnerKey(block: seq<Octet>)
    requires Begins(block, INNER_KEY_0)
    ensures Compress(INITIAL, block) == Vars(0x624D8EA7, 0x3F2B1803, 0x9554B9E4, 0x28C065F5, 0xA9FCB98E)
  {
    hide Begins, Follows, Sixteen, Compress;
    InnerKeyWords0(); InnerKeyWords1(); InnerKeyWords2(); InnerKeyWords3();
    InnerKeyRounds();
    BlockIs(INITIAL, block, [INNER_KEY_0, INNER_KEY_1, INNER_KEY_2, INNER_KEY_3, INNER_KEY_4],
      [INITIAL,
       Vars(0x6C301692, 0x579D7F38, 0xDB9D8CB4, 0x61E12473, 0xED625512),
       Vars(0x0C2F2726, 0xB08CDA1C, 0x315CD561, 0x23E29BDD, 0xED70CCAC),
       Vars(0xE6DD707E, 0xD3B4BA55, 0x86199B16, 0x3AB7D9D8, 0x55D1DA2F),
       Vars(0xE231FDD2, 0x985CE8A7, 0x94A1CDD0, 0x3CA86E86, 0x8AD04FB6),
       Vars(0xFB086BA6, 0x4F5D6C7A, 0xFC99DCE6, 0x188E117F, 0xE629D79E)]);
  }

  // ----- the text "what do ya want for nothing?" behind it, padded

  const INNER_TEXT_0: seq<Word> := [
    0x77686174, 0x20646F20, 0x79612077, 0x616E7420, 0x666F7220, 0x6E6F7468, 0x696E673F, 0x80000000,
    0x00000000, 0x00000000, 0x00000000, 0x00000000, 0x00000000, 0x00000000, 0x00000000, 0x000002E0]

  const INNER_TEXT_1: seq<Word> := [
    0x1C128206, 0x82143600, 0x3E1CA16E, 0x2627049C, 0x1A2A463F, 0xA0E7AA0D, 0x9E92C746, 0x345489BF,
    0x79EA5017, 0x390DE28C, 0x149051A2, 0xBF9AA916, 0x464F4966, 0x68EFF29F, 0x7A35D8AC, 0xE01FE873]

  const INNER_TEXT_2: seq<Word> := [
    0x661703C0, 0xCE161179, 0xA172BD01, 0xBE9A088E, 0x19C3B2CC, 0xBA5CD858, 0x47AE8EE6, 0xE90A6319,
    0x6263B45B, 0x1E5FA80A, 0x354F8DB8, 0x1719CEB8, 0x77CD1618, 0x0FC69E18, 0x992B3664, 0x619D1817]

  const INNER_TEXT_3: seq<Word> := [
    0x55812905, 0xEFF10F33, 0xD8C734C5, 0x8CBC6ED6, 0x8CA24A03, 0x08AE2339, 0x60B4C41E, 0x34D5320E,
    0x140667BE, 0x0C075B3F, 0x5D213AD7, 0x00CAB391, 0xDC866280, 0x77A93FC2, 0x59A8D1DD, 0xCC7E8F54]

  const INNER_TEXT_4: seq<Word> := [
    0xDDD28B79, 0x6DC5D60E, 0x8A75968B, 0xB214EA0E, 0xBAAA7526, 0x834F70FD, 0x3E1D30E7, 0x9C0D2686,
    0x2F754DDA, 0xBE2A1C8E, 0x2FBFD0B5, 0xD404570F, 0x035DB5EB, 0x2E4E21BC, 0xDCC67A98, 0x7DD7946E]

  lemma {:induction false} InnerTextWords0()
    ensures Follows(INNER_TEXT_0, INNER_TEXT_1)
  {
  }

  lemma {:induction false} InnerTextWords1()
    ensures Follows(INNER_TEXT_1, INNER_TEXT_2)
  {
  }

  lemma {:induction false} InnerTextWords2()
    ensures Follows(INNER_TEXT_2, INNER_TEXT_3)
  {
  }

  lemma {:induction false} InnerTextWords3()
    ensures Follows(INNER_TEXT_3, INNER_TEXT_4)
  {
  }

  lemma {:induction false} InnerTextFours0()
    ensures Four(Vars(0x624D8EA7, 0x3F2B1803, 0x9554B9E4, 0x28C065F5, 0xA9FCB98E), 0, 0x77686174, 0x20646F20, 0x79612077, 0x616E7420)
      == Vars(0x379FB2A2, 0x0D6A6459, 0x798F3D5A, 0xF6D679DE, 0xD89363A9)
    ensures Four(Vars(0x379FB2A2, 0x0D6A6459, 0x798F3D5A, 0xF6D679DE, 0xD89363A9), 4, 0x666F7220, 0x6E6F7468, 0x696E673F, 0x80000000)
      == Vars(0x571F0C48, 0xCCAAD807, 0x8B87CD82, 0xA2467861, 0x8DE7ECA8)
    ensures Four(Vars(0x571F0C48, 0xCCAAD807, 0x8B87CD82, 0xA2467861, 0x8DE7ECA8), 8, 0x00000000, 0x00000000, 0x00000000, 0x00000000)
      == Vars(0x8CCD052E, 0xD10ACF72, 0xAEABAB4A, 0x5DC4B5EB, 0x15C7C312)
    ensures Four(Vars(0x8CCD052E, 0xD10ACF72, 0xAEABAB4A, 0x5DC4B5EB, 0x15C7C312), 12, 0x00000000, 0x00000000, 0x00000000, 0x000002E0)
      == Vars(0xA12B746A, 0x6755BF04, 0x8D7768F0, 0xE5AE6791, 0xA333414B)
    ensures Four(Vars(0xA12B746A, 0x6755BF04, 0x8D7768F0, 0xE5AE6791, 0xA333414B), 16, 0x1C128206, 0x82143600, 0x3E1CA16E, 0x2627049C)
      == Vars(0xF17D64A1, 0x8AF59F4F, 0x9D98377C, 0xF14D8CB3, 0xA84ADD1A)
    ensures Four(Vars(0xF17D64A1, 0x8AF59F4F, 0x9D98377C, 0xF14D8CB3, 0xA84ADD1A), 20, 0x1A2A463F, 0xA0E7AA0D, 0x9E92C746, 0x345489BF)
      == Vars(0xC6781580, 0xE1089294, 0xDCB8135D, 0x11C6F1EE, 0x7C5F5928)
    ensures Four(Vars(0xC6781580, 0xE1089294, 0xDCB8135D, 0x11C6F1EE, 0x7C5F5928), 24, 0x79EA5017, 0x390DE28C, 0x149051A2, 0xBF9AA916)
      == Vars(0xB7AC16AC, 0xC253B577, 0xFBF1E19F, 0xD8272D47, 0x319E0560)
    ensures Four(Vars(0xB7AC16AC, 0xC253B577, 0xFBF1E19F, 0xD8272D47, 0x319E0560), 28, 0x464F4966, 0x68EFF29F, 0x7A35D8AC, 0xE01FE873)
      == Vars(0xC7719700, 0x1B1D78CA, 0x09AAD6E3, 0x2F73E26B, 0x2DEB05AB)
  {
  }

  lemma {:induction false} InnerTextFours1()
    ensures Four(Vars(0xC7719700, 0x1B1D78CA, 0x09AAD6E3, 0x2F73E26B, 0x2DEB05AB), 32, 0x661703C0, 0xCE161179, 0xA172BD01, 0xBE9A088E)
      == Vars(0xF16B8535, 0x90451D8A, 0xE3B90B06, 0x8BB4C859, 0x31DC65C0)
    ensures Four(Vars(0xF16B8535, 0x90451D8A, 0xE3B90B06, 0x8BB4C859, 0x31DC65C0), 36, 0x19C3B2CC, 0xBA5CD858, 0x47AE8EE6, 0xE90A6319)
      == Vars(0x0BD9D1E0, 0x16CB6D6A, 0xDC88236F, 0x380CE270, 0x7C5AE14D)
    ensures Four(Vars(0x0BD9D1E0, 0x16CB6D6A, 0xDC88236F, 0x380CE270, 0x7C5AE14D), 40, 0x6263B45B, 0x1E5FA80A, 0x354F8DB8, 0x1719CEB8)
      == Vars(0x018E5395, 0x7E957381, 0x09AFD628, 0xC1673C7B, 0x02F67478)
    ensures Four(Vars(0x018E5395, 0x7E957381, 0x09AFD628, 0xC1673C7B, 0x02F67478), 44, 0x77CD1618, 0x0FC69E18, 0x992B3664, 0x619D1817)
      == Vars(0xF783CC7F, 0xFB36762F, 0xC507BD2F, 0x61544C0D, 0x406394E5)
    ensures Four(Vars(0xF783CC7F, 0xFB36762F, 0xC507BD2F, 0x61544C0D, 0x406394E5), 48, 0x55812905, 0xEFF10F33, 0xD8C734C5, 0x8CBC6ED6)
      == Vars(0x743E70E7, 0x6ADDBFA0, 0x6A7E64F2, 0xFDA421BC, 0xFDE0F31F)
    ensures Four(Vars(0x743E70E7, 0x6ADDBFA0, 0x6A7E64F2, 0xFDA421BC, 0xFDE0F31F), 52, 0x8CA24A03, 0x08AE2339, 0x60B4C41E, 0x34D5320E)
      == Vars(0x9B7163E9, 0x10FD6937, 0x2734FE8D, 0x031A4F27, 0xDD0F9C39)
    ensures Four(Vars(0x9B7163E9, 0x10FD6937, 0x2734FE8D, 0x031A4F27, 0xDD0F9C39), 56, 0x140667BE, 0x0C075B3F, 0x5D213AD7, 0x00CAB391)
      == Vars(0xF51B6187, 0x11214858, 0x563221F3, 0x7C66AB4B, 0x66DC58FA)
    ensures Four(Vars(0xF51B6187, 0x11214858, 0x563221F3, 0x7C66AB4B, 0x66DC58FA), 60, 0xDC866280, 0x77A93FC2, 0x59A8D1DD, 0xCC7E8F54)
      == Vars(0x5C633025, 0xE824555E, 0xBEB07948, 0xBB29DC4B, 0xFD46D861)
  {
  }

  lemma {:induction false} InnerTextFours2()
    ensures Four(Vars(0x5C633025, 0xE824555E, 0xBEB07948, 0xBB29DC4B, 0xFD46D861), 64, 0xDDD28B79, 0x6DC5D60E, 0x8A75968B, 0xB214EA0E)
      == Vars(0xCF3211E7, 0x0C3F8317, 0x100C09DB, 0x07E806AE, 0x5718CC09)
    ensures Four(Vars(0xCF3211E7, 0x0C3F8317, 0x100C09DB, 0x07E806AE, 0x5718CC09), 68, 0xBAAA7526, 0x834F70FD, 0x3E1D30E7, 0x9C0D2686)
      == Vars(0x2028967E, 0x4FC4781B, 0x4E916FA5, 0x3790F318, 0xF3CC8479)
    ensures Four(Vars(0x2028967E, 0x4FC4781B, 0x4E916FA5, 0x3790F318, 0xF3CC8479), 72, 0x2F754DDA, 0xBE2A1C8E, 0x2FBFD0B5, 0xD404570F)
      == Vars(0x083094DB, 0x5D33ED0F, 0xAB43F2EF, 0xCA5F5224, 0x880A259F)
    ensures Four(Vars(0x083094DB, 0x5D33ED0F, 0xAB43F2EF, 0xCA5F5224, 0x880A259F), 76, 0x035DB5EB, 0x2E4E21BC, 0xDCC67A98, 0x7DD7946E)
      == Vars(0x3637839D, 0xFBCE0454, 0x0E3828F8, 0x660321A1, 0xC20C2536)
  {
  }

  lemma {:induction false} InnerTextRounds()
    ensures Sixteen(Vars(0x624D8EA7, 0x3F2B1803, 0x9554B9E4, 0x28C065F5, 0xA9FCB98E), 0, INNER_TEXT_0)
      == Vars(0xA12B746A, 0x6755BF04, 0x8D7768F0, 0xE5AE6791, 0xA333414B)
    ensures Sixteen(Vars(0xA12B746A, 0x6755BF04, 0x8D7768F0, 0xE5AE6791, 0xA333414B), 16, INNER_TEXT_1)
      == Vars(0xC7719700, 0x1B1D78CA, 0x09AAD6E3, 0x2F73E26B, 0x2DEB05AB)
    ensures Sixteen(Vars(0xC7719700, 0x1B1D78CA, 0x09AAD6E3, 0x2F73E26B, 0x2DEB05AB), 32, INNER_TEXT_2)
      == Vars(0xF783CC7F, 0xFB36762F, 0xC507BD2F, 0x61544C0D, 0x406394E5)
    ensures Sixteen(Vars(0xF783CC7F, 0xFB36762F, 0xC507BD2F, 0x61544C0D, 0x406394E5), 48, INNER_TEXT_3)
      == Vars(0x5C633025, 0xE824555E, 0xBEB07948, 0xBB29DC4B, 0xFD46D861)
    ensures Sixteen(Vars(0x5C633025, 0xE824555E, 0xBEB07948, 0xBB29DC4B, 0xFD46D861), 64, INNER_TEXT_4)
      == Vars(0x3637839D, 0xFBCE0454, 0x0E3828F8, 0x660321A1, 0xC20C2536)
  {
    hide Four;
    InnerTextFours0();
    InnerTextFours1();
    InnerTextFours2();
  }

  lemma {:induction false} InnerText(block: seq<Octet>)
    requires Begins(block, INNER_TEXT_0)
    ensures Compress(Vars(0x624D8EA7, 0x3F2B1803, 0x9554B9E4, 0x28C065F5, 0xA9FCB98E), block) == Vars(0x98851244, 0x3AF91C57, 0xA38CE2DC, 0x8EC38796, 0x6C08DEC4)
  {
    hide Begins, Follows, Sixteen, Compress;
    InnerTextWords0(); InnerTextWords1(); InnerTextWords2(); InnerTextWords3();
    InnerTextRounds();
    BlockIs(Vars(0x624D8EA7, 0x3F2B1803, 0x9554B9E4, 0x28C065F5, 0xA9FCB98E), block, [INNER_TEXT_0, INNER_TEXT_1, INNER_TEXT_2, INNER_TEXT_3, INNER_TEXT_4],
      [Vars(0x624D8EA7, 0x3F2B1803, 0x9554B9E4, 0x28C065F5, 0xA9FCB98E),
       Vars(0xA12B746A, 0x6755BF04, 0x8D7768F0, 0xE5AE6791, 0xA333414B),
       Vars(0xC7719700, 0x1B1D78CA, 0x09AAD6E3, 0x2F73E26B, 0x2DEB05AB),
       Vars(0xF783CC7F, 0xFB36762F, 0xC507BD2F, 0x61544C0D, 0x406394E5),
       Vars(0x5C633025, 0xE824555E, 0xBEB07948, 0xBB29DC4B, 0xFD46D861),
       Vars(0x3637839D, 0xFBCE0454, 0x0E3828F8, 0x660321A1, 0xC20C2536)]);
  }

  // ----- the key, for the outer hash

  const OUTER_KEY_0: seq<Word> := [
    0x16393A39, 0x5C5C5C5C, 0x5C5C5C5C, 0x5C5C5C5C, 0x5C5C5C5C, 0x5C5C5C5C, 0x5C5C5C5C, 0x5C5C5C5C,
    0x5C5C5C5C, 0x5C5C5C5C, 0x5C5C5C5C, 0x5C5C5C5C, 0x5C5C5C5C, 0x5C5C5C5C, 0x5C5C5C5C, 0x5C5C5C5C]

  const OUTER_KEY_1: seq<Word> := [
    0x94CACCCA, 0x00000000, 0x00000000, 0x912D212D, 0xB8B8B8B8, 0xB8B8B8B8, 0x9AE2FAE3, 0xC9C9C9C9,
    0x58E4E8E4, 0x35C5F5C7, 0x93939393, 0x93939393, 0x1AFA9AFF, 0x56565656, 0x83CFF3CD, 0x1EDE1ED5]

  const OUTER_KEY_2: seq<Word> := [
    0x34F0E4F1, 0x4E4E4E4E, 0x6BEA6BFC, 0x1DEDDDEF, 0xEDDD2DD4, 0x999A99B6, 0xB848784A, 0x1E1E1E1E,
    0xCC3A0C60, 0xA0A0A0A0, 0xF93AF91D, 0x28242894, 0xA891C88D, 0x50505050, 0x4EA68FC4, 0xCC3F0C11]

  const OUTER_KEY_3: seq<Word> := [
    0x86E1A67B, 0x7B4B798B, 0x66656649, 0x5565956C, 0x0C9FC931, 0x63636363, 0xDF62DD04, 0xFC3CF73C,
    0xA10460CB, 0x595A5976, 0x97E541CB, 0x182B1AC7, 0x67E5AE1D, 0xD1D2FDD2, 0x1E1DDCF8, 0x595A5976]

  const OUTER_KEY_4: seq<Word> := [
    0x20A4BA57, 0xD2D2D2D2, 0x488B6F8B, 0x1D12AD3E, 0xCD94D1F4, 0x0C0C0C0C, 0xFAD39812, 0x63504D90,
    0x34932EB6, 0xD2E012E2, 0xB7B79B9B, 0xC0F0C93B, 0xCD1963E6, 0x66666666, 0x09346F0C, 0x4B834BA4]

  lemma {:induction false} OuterKeyWords0()
    ensures Follows(OUTER_KEY_0, OUTER_KEY_1)
  {
  }

  lemma {:induction false} OuterKeyWords1()
    ensures Follows(OUTER_KEY_1, OUTER_KEY_2)
  {
  }

  lemma {:induction false} OuterKeyWords2()
    ensures Follows(OUTER_KEY_2, OUTER_KEY_3)
  {
  }

  lemma {:induction false} OuterKeyWords3()
    ensures Follows(OUTER_KEY_3, OUTER_KEY_4)
  {
  }

  lemma {:induction false} OuterKeyFours0()
    ensures Four(Vars(0x67452301, 0xEFCDAB89, 0x98BADCFE, 0x10325476, 0xC3D2E1F0), 0, 0x16393A39, 0x5C5C5C5C, 0x5C5C5C5C, 0x5C5C5C5C)
      == Vars(0x17E5024A, 0xC45DFBA5, 0xE031E1BF, 0x2D7B74BB, 0x59D148C0)
    ensures Four(Vars(0x17E5024A, 0xC45DFBA5, 0xE031E1BF, 0x2D7B74BB, 0x59D148C0), 4, 0x5C5C5C5C, 0x5C5C5C5C, 0x5C5C5C5C, 0x5C5C5C5C)
      == Vars(0x49B2D672, 0xDBE0DC03, 0xE97E7962, 0xBDA1136D, 0x85F94092)
    ensures Four(Vars(0x49B2D672, 0xDBE0DC03, 0xE97E7962, 0xBDA1136D, 0x85F94092), 8, 0x5C5C5C5C, 0x5C5C5C5C, 0x5C5C5C5C, 0x5C5C5C5C)
      == Vars(0x32352A99, 0x374F8C40, 0x9A010C0B, 0x9825100F, 0x926CB59C)
    ensures Four(Vars(0x32352A99, 0x374F8C40, 0x9A010C0B, 0x9825100F, 0x926CB59C), 12, 0x5C5C5C5C, 0x5C5C5C5C, 0x5C5C5C5C, 0x5C5C5C5C)
      == Vars(0x373946EB, 0x892FC8F9, 0xC6551936, 0x8A847EB1, 0x4C8D4AA6)
    ensures Four(Vars(0x373946EB, 0x892FC8F9, 0xC6551936, 0x8A847EB1, 0x4C8D4AA6), 16, 0x94CACCCA, 0x00000000, 0x00000000, 0x912D212D)
      == Vars(0xF7DC63C8, 0xF5DFD518, 0x1E1A79DF, 0xE9622B27, 0xCDCE51BA)
    ensures Four(Vars(0xF7DC63C8, 0xF5DFD518, 0x1E1A79DF, 0xE9622B27, 0xCDCE51BA), 20, 0xB8B8B8B8, 0xB8B8B8B8, 0x9AE2FAE3, 0xC9C9C9C9)
      == Vars(0x0366CD4D, 0x239F9CF3, 0xD6116843, 0x7CE53DC4, 0x3DF718F2)
    ensures Four(Vars(0x0366CD4D, 0x239F9CF3, 0xD6116843, 0x7CE53DC4, 0x3DF718F2), 24, 0x58E4E8E4, 0x35C5F5C7, 0x93939393, 0x93939393)
      == Vars(0x5A4A825F, 0x1C727812, 0x6FA05CB7, 0xFEFED822, 0x40D9B353)
    ensures Four(Vars(0x5A4A825F, 0x1C727812, 0x6FA05CB7, 0xFEFED822, 0x40D9B353), 28, 0x1AFA9AFF, 0x56565656, 0x83CFF3CD, 0x1EDE1ED5)
      == Vars(0xEBC09A0D, 0xE5A4F04E, 0x672569EE, 0x684AE099, 0xD692A097)
  {
  }

  lemma {:induction false} OuterKeyFours1()
    ensures Four(Vars(0xEBC09A0D, 0xE5A4F04E, 0x672569EE, 0x684AE099, 0xD692A097), 32, 0x34F0E4F1, 0x4E4E4E4E, 0x6BEA6BFC, 0x1DEDDDEF)
      == Vars(0xFD0418F0, 0xB13CC67A, 0xC0A15B9C, 0xF74F0B07, 0x7AF02683)
    ensures Four(Vars(0xFD0418F0, 0xB13CC67A, 0xC0A15B9C, 0xF74F0B07, 0x7AF02683), 36, 0xEDDD2DD4, 0x999A99B6, 0xB848784A, 0x1E1E1E1E)
      == Vars(0x9453EEB9, 0x7F4AD0CF, 0xDC53289B, 0x3FBF3D3E, 0x3F41063C)
    ensures Four(Vars(0x9453EEB9, 0x7F4AD0CF, 0xDC53289B, 0x3FBF3D3E, 0x3F41063C), 40, 0xCC3A0C60, 0xA0A0A0A0, 0xF93AF91D, 0x28242894)
      == Vars(0x6D0CEC9D, 0x8366F2FA, 0x7672CC2A, 0x691BF7D2, 0x6514FBAE)
    ensures Four(Vars(0x6D0CEC9D, 0x8366F2FA, 0x7672CC2A, 0x691BF7D2, 0x6514FBAE), 44, 0xA891C88D, 0x50505050, 0x4EA68FC4, 0xCC3F0C11)
      == Vars(0xB227C5ED, 0xDE5586A4, 0x39D09A64, 0xA874C2EF, 0x5B433B27)
    ensures Four(Vars(0xB227C5ED, 0xDE5586A4, 0x39D09A64, 0xA874C2EF, 0x5B433B27), 48, 0x86E1A67B, 0x7B4B798B, 0x66656649, 0x5565956C)
      == Vars(0xC72FC677, 0xA39378D9, 0x2E0B6794, 0x1BA377C6, 0x6C89F17B)
    ensures Four(Vars(0xC72FC677, 0xA39378D9, 0x2E0B6794, 0x1BA377C6, 0x6C89F17B), 52, 0x0C9FC931, 0x63636363, 0xDF62DD04, 0xFC3CF73C)
      == Vars(0x9B2AE7BF, 0xA791175E, 0xAD228A2F, 0x06706F95, 0xF1CBF19D)
    ensures Four(Vars(0x9B2AE7BF, 0xA791175E, 0xAD228A2F, 0x06706F95, 0xF1CBF19D), 56, 0xA10460CB, 0x595A5976, 0x97E541CB, 0x182B1AC7)
      == Vars(0x4A8EBA96, 0x688EAC19, 0xD9CB061A, 0x8B9E4595, 0xE6CAB9EF)
    ensures Four(Vars(0x4A8EBA96, 0x688EAC19, 0xD9CB061A, 0x8B9E4595, 0xE6CAB9EF), 60, 0x67E5AE1D, 0xD1D2FDD2, 0x1E1DDCF8, 0x595A5976)
      == Vars(0xE08C1F8E, 0x7086AE3F, 0xEA81E93E, 0x69719B10, 0x92A3AEA5)
  {
  }

  lemma {:induction false} OuterKeyFours2()
    ensures Four(Vars(0xE08C1F8E, 0x7086AE3F, 0xEA81E93E, 0x69719B10, 0x92A3AEA5), 64, 0x20A4BA57, 0xD2D2D2D2, 0x488B6F8B, 0x1D12AD3E)
      == Vars(0xFA3182D0, 0x166C0C58, 0xCC64A939, 0xE0A97E2F, 0xB82307E3)
    ensures Four(Vars(0xFA3182D0, 0x166C0C58, 0xCC64A939, 0xE0A97E2F, 0xB82307E3), 68, 0xCD94D1F4, 0x0C0C0C0C, 0xFAD39812, 0x63504D90)
      == Vars(0x6ABE4265, 0x8DA9C31A, 0x8220261A, 0xB43B3446, 0x3E8C60B4)
    ensures Four(Vars(0x6ABE4265, 0x8DA9C31A, 0x8220261A, 0xB43B3446, 0x3E8C60B4), 72, 0x34932EB6, 0xD2E012E2, 0xB7B79B9B, 0xC0F0C93B)
      == Vars(0x90E1B115, 0x5173972E, 0x6F480108, 0xD43F5BCC, 0x5AAF9099)
    ensures Four(Vars(0x90E1B115, 0x5173972E, 0x6F480108, 0xD43F5BCC, 0x5AAF9099), 76, 0xCD1963E6, 0x66666666, 0x09346F0C, 0x4B834BA4)
      == Vars(0xB9431429, 0x05386518, 0x5F74AE07, 0x7E19A9BC, 0x64386C45)
  {
  }

  lemma {:induction false} OuterKeyRounds()
    ensures Sixteen(INITIAL, 0, OUTER_KEY_0)
      == Vars(0x373946EB, 0x892FC8F9, 0xC6551936, 0x8A847EB1, 0x4C8D4AA6)
    ensures Sixteen(Vars(0x373946EB, 0x892FC8F9, 0xC6551936, 0x8A847EB1, 0x4C8D4AA6), 16, OUTER_KEY_1)
      == Vars(0xEBC09A0D, 0xE5A4F04E, 0x672569EE, 0x684AE099, 0xD692A097)
    ensures Sixteen(Vars(0xEBC09A0D, 0xE5A4F04E, 0x672569EE, 0x684AE099, 0xD692A097), 32, OUTER_KEY_2)
      == Vars(0xB227C5ED, 0xDE5586A4, 0x39D09A64, 0xA874C2EF, 0x5B433B27)
    ensures Sixteen(Vars(0xB227C5ED, 0xDE5586A4, 0x39D09A64, 0xA874C2EF, 0x5B433B27), 48, OUTER_KEY_3)
      == Vars(0xE08C1F8E, 0x7086AE3F, 0xEA81E93E, 0x69719B10, 0x92A3AEA5)
    ensures Sixteen(Vars(0xE08C1F8E, 0x7086AE3F, 0xEA81E93E, 0x69719B10, 0x92A3AEA5), 64, OUTER_KEY_4)
      == Vars(0xB9431429, 0x05386518, 0x5F74AE07, 0x7E19A9BC, 0x64386C45)
  {
    hide Four;
    OuterKeyFours0();
    OuterKeyFours1();
    OuterKeyFours2();
  }

  lemma {:induction false} OuterKey(block: seq<Octet>)
    requires Begins(block, OUTER_KEY_0)
    ensures Compress(INITIAL, block) == Vars(0x2088372A, 0xF50610A1, 0xF82F8B05, 0x8E4BFE32, 0x280B4E35)
  {
    hide Begins, Follows, Sixteen, Compress;
    OuterKeyWords0(); OuterKeyWords1(); OuterKeyWords2(); OuterKeyWords3();
    OuterKeyRounds();
    BlockIs(INITIAL, block, [OUTER_KEY_0, OUTER_KEY_1, OUTER_KEY_2, OUTER_KEY_3, OUTER_KEY_4],
      [INITIAL,
       Vars(0x373946EB, 0x892FC8F9, 0xC6551936, 0x8A847EB1, 0x4C8D4AA6),
       Vars(0xEBC09A0D, 0xE5A4F04E, 0x672569EE, 0x684AE099, 0xD692A097),
       Vars(0xB227C5ED, 0xDE5586A4, 0x39D09A64, 0xA874C2EF, 0x5B433B27),
       Vars(0xE08C1F8E, 0x7086AE3F, 0xEA81E93E, 0x69719B10, 0x92A3AEA5),
       Vars(0xB9431429, 0x05386518, 0x5F74AE07, 0x7E19A9BC, 0x64386C45)]);
  }

  // ----- the inner digest behind it, padded

  const OUTER_TEXT_0: seq<Word> := [
    0x98851244, 0x3AF91C57, 0xA38CE2DC, 0x8EC38796, 0x6C08DEC4, 0x80000000, 0x00000000, 0x00000000,
    0x00000000, 0x00000000, 0x00000000, 0x00000000, 0x00000000, 0x00000000, 0x00000000, 0x000002A0]

  const OUTER_TEXT_1: seq<Word> := [
    0x7613E130, 0x68753783, 0x9F087D71, 0xF1A0CD4C, 0x08FBD28E, 0x3E10FAE2, 0xE3419A99, 0x11F7A05C,
    0x900637A4, 0x16695A35, 0x1DFFBA5B, 0xC34DF5D0, 0x3D251176, 0x47DE8432, 0xAC3F1CF2, 0x894F0812]

  const OUTER_TEXT_2: seq<Word> := [
    0x7D865FAE, 0x47077810, 0x06863B6C, 0xE2F73BA0, 0x233042E3, 0xDD7FCBC0, 0x7B1F14DE, 0x5BC36131,
    0x5A003322, 0xD2798657, 0xFB3FE2E0, 0x78C8F2C0, 0xC0A79260, 0xD1A34A01, 0xA4DD4A85, 0xAA5906A6]

  const OUTER_TEXT_3: seq<Word> := [
    0xE1463BC3, 0xA6A91EC5, 0xE9A13B92, 0x4C0C72C7, 0x7C43B530, 0x7D7DB6C5, 0x939C3F7D, 0xBF40A9E0,
    0x7A08B988, 0x3F08AA5F, 0xDAF3C5E4, 0x3EDEE71D, 0x4E638F14, 0xB8E87F0D, 0xD1B3524D, 0xFBA67D2F]

  const OUTER_TEXT_4: seq<Word> := [
    0x940F8DA9, 0x083D2820, 0x696E6CD3, 0x37415D6D, 0x53025AF3, 0x277619F6, 0x1ECD13AA, 0x51D848C6,
    0x2705D066, 0x2E4CED90, 0x584CDDCB, 0x2CE42A37, 0xC53CD475, 0x78E98C3E, 0xEF2BCCF2, 0xCEFF9378]

  lemma {:induction false} OuterTextWords0()
    ensures Follows(OUTER_TEXT_0, OUTER_TEXT_1)
  {
  }

  lemma {:induction false} OuterTextWords1()
    ensures Follows(OUTER_TEXT_1, OUTER_TEXT_2)
  {
  }

  lemma {:induction false} OuterTextWords2()
    ensures Follows(OUTER_TEXT_2, OUTER_TEXT_3)
  {
  }

  lemma {:induction false} OuterTextWords3()
    ensures Follows(OUTER_TEXT_3, OUTER_TEXT_4)
  {
  }

  lemma {:induction false} OuterTextFours0()
    ensures Four(Vars(0x2088372A, 0xF50610A1, 0xF82F8B05, 0x8E4BFE32, 0x280B4E35), 0, 0x98851244, 0x3AF91C57, 0xA38CE2DC, 0x8EC38796)
      == Vars(0x2E9E371F, 0x73F8A33F, 0xFA49335C, 0x499A6B5A, 0x88220DCA)
    ensures Four(Vars(0x2E9E371F, 0x73F8A33F, 0xFA49335C, 0x499A6B5A, 0x88220DCA), 4, 0x6C08DEC4, 0x80000000, 0x00000000, 0x00000000)
      == Vars(0x7BB8FE21, 0x3808856F, 0x6634AC95, 0x272FAD5A, 0xCBA78DC7)
    ensures Four(Vars(0x7BB8FE21, 0x3808856F, 0x6634AC95, 0x272FAD5A, 0xCBA78DC7), 8, 0x00000000, 0x00000000, 0x00000000, 0x00000000)
      == Vars(0xB3AEFD35, 0xCBC0E214, 0x17794F08, 0x311C5DE9, 0x5EEE3F88)
    ensures Four(Vars(0xB3AEFD35, 0xCBC0E214, 0x17794F08, 0x311C5DE9, 0x5EEE3F88), 12, 0x00000000, 0x00000000, 0x00000000, 0x000002A0)
      == Vars(0x0915DDCE, 0xE7F5BB49, 0xC60A0266, 0x18AB2FF0, 0x6CEBBF4D)
    ensures Four(Vars(0x0915DDCE, 0xE7F5BB49, 0xC60A0266, 0x18AB2FF0, 0x6CEBBF4D), 16, 0x7613E130, 0x68753783, 0x9F087D71, 0xF1A0CD4C)
      == Vars(0xF263FB99, 0x7B438A71, 0x5CEF6235, 0xCF91F6B1, 0x82457773)
    ensures Four(Vars(0xF263FB99, 0x7B438A71, 0x5CEF6235, 0xCF91F6B1, 0x82457773), 20, 0x08FBD28E, 0x3E10FAE2, 0xE3419A99, 0x11F7A05C)
      == Vars(0x0F467389, 0xB5F52546, 0x51F494C2, 0x4BB5F1F5, 0x7C98FEE6)
    ensures Four(Vars(0x0F467389, 0xB5F52546, 0x51F494C2, 0x4BB5F1F5, 0x7C98FEE6), 24, 0x900637A4, 0x16695A35, 0x1DFFBA5B, 0xC34DF5D0)
      == Vars(0xB52F96D8, 0x6490F1B4, 0xD110D761, 0x44FEF4EF, 0x43D19CE2)
    ensures Four(Vars(0xB52F96D8, 0x6490F1B4, 0xD110D761, 0x44FEF4EF, 0x43D19CE2), 28, 0x3D251176, 0x47DE8432, 0xAC3F1CF2, 0x894F0812)
      == Vars(0x98ECDA1A, 0xC2D0F752, 0x9846F2F1, 0x61D091D2, 0x2D4BE5B6)
  {
  }

  lemma {:induction false} OuterTextFours1()
    ensures Four(Vars(0x98ECDA1A, 0xC2D0F752, 0x9846F2F1, 0x61D091D2, 0x2D4BE5B6), 32, 0x7D865FAE, 0x47077810, 0x06863B6C, 0xE2F73BA0)
      == Vars(0x5F226FED, 0xA3CC9B9C, 0x066448FC, 0x5CA38232, 0xA63B3686)
    ensures Four(Vars(0x5F226FED, 0xA3CC9B9C, 0x066448FC, 0x5CA38232, 0xA63B3686), 36, 0x233042E3, 0xDD7FCBC0, 0x7B1F14DE, 0x5BC36131)
      == Vars(0xD2F4002F, 0x2C19E00F, 0xF3A22F1A, 0xC567AD01, 0x57C89BFB)
    ensures Four(Vars(0xD2F4002F, 0x2C19E00F, 0xF3A22F1A, 0xC567AD01, 0x57C89BFB), 40, 0x5A003322, 0xD2798657, 0xFB3FE2E0, 0x78C8F2C0)
      == Vars(0x71B64A04, 0xB7E908D2, 0xE2EABE03, 0xA1220FBF, 0xF4BD000B)
    ensures Four(Vars(0x71B64A04, 0xB7E908D2, 0xE2EABE03, 0xA1220FBF, 0xF4BD000B), 44, 0xC0A79260, 0xD1A34A01, 0xA4DD4A85, 0xAA5906A6)
      == Vars(0xBE5E2CE8, 0x7E450BFD, 0xF293CB68, 0x07CCE79A, 0x1C6D9281)
    ensures Four(Vars(0xBE5E2CE8, 0x7E450BFD, 0xF293CB68, 0x07CCE79A, 0x1C6D9281), 48, 0xE1463BC3, 0xA6A91EC5, 0xE9A13B92, 0x4C0C72C7)
      == Vars(0xCD3242F1, 0xAB570999, 0x09E0E507, 0xF3D6BD0B, 0x2F978B3A)
    ensures Four(Vars(0xCD3242F1, 0xAB570999, 0x09E0E507, 0xF3D6BD0B, 0x2F978B3A), 52, 0x7C43B530, 0x7D7DB6C5, 0x939C3F7D, 0xBF40A9E0)
      == Vars(0x22347EAD, 0x3C2DEEAB, 0x3B488119, 0xA3458222, 0x734C90BC)
    ensures Four(Vars(0x22347EAD, 0x3C2DEEAB, 0x3B488119, 0xA3458222, 0x734C90BC), 56, 0x7A08B988, 0x3F08AA5F, 0xDAF3C5E4, 0x3EDEE71D)
      == Vars(0x719DBD55, 0x3B2FC430, 0x598F90C1, 0xFF9397BB, 0x488D1FAB)
    ensures Four(Vars(0x719DBD55, 0x3B2FC430, 0x598F90C1, 0xFF9397BB, 0x488D1FAB), 60, 0x4E638F14, 0xB8E87F0D, 0xD1B3524D, 0xFBA67D2F)
      == Vars(0xCF69B90C, 0x88C8C156, 0x3C6521B7, 0x4C8FB7A3, 0x5C676F55)
  {
  }

  lemma {:induction false} OuterTextFours2()
    ensures Four(Vars(0xCF69B90C, 0x88C8C156, 0x3C6521B7, 0x4C8FB7A3, 0x5C676F55), 64, 0x940F8DA9, 0x083D2820, 0x696E6CD3, 0x37415D6D)
      == Vars(0xE813645A, 0x7CB9C987, 0xDDB5501E, 0xE80CCDEB, 0x33DA6E43)
    ensures Four(Vars(0xE813645A, 0x7CB9C987, 0xDDB5501E, 0xE80CCDEB, 0x33DA6E43), 68, 0x53025AF3, 0x277619F6, 0x1ECD13AA, 0x51D848C6)
      == Vars(0xFAE82CAB, 0xFFD55135, 0xD67ED2D3, 0xE72B1AB6, 0xBA04D916)
    ensures Four(Vars(0xFAE82CAB, 0xFFD55135, 0xD67ED2D3, 0xE72B1AB6, 0xBA04D916), 72, 0x2705D066, 0x2E4CED90, 0x584CDDCB, 0x2CE42A37)
      == Vars(0xF63CB913, 0x8722491C, 0xC46C6E22, 0x75BCE688, 0xFEBA0B2A)
    ensures Four(Vars(0xF63CB913, 0x8722491C, 0xC46C6E22, 0x75BCE688, 0xFEBA0B2A), 76, 0xC53CD475, 0x78E98C3E, 0xEF2BCCF2, 0xCEFF9378)
      == Vars(0xCF74A840, 0xF0E51F01, 0xDA448BD0, 0x6338E16A, 0xFD8F2E44)
  {
  }

  lemma {:induction false} OuterTextRounds()
    ensures Sixteen(Vars(0x2088372A, 0xF50610A1, 0xF82F8B05, 0x8E4BFE32, 0x280B4E35), 0, OUTER_TEXT_0)
      == Vars(0x0915DDCE, 0xE7F5BB49, 0xC60A0266, 0x18AB2FF0, 0x6CEBBF4D)
    ensures Sixteen(Vars(0x0915DDCE, 0xE7F5BB49, 0xC60A0266, 0x18AB2FF0, 0x6CEBBF4D), 16, OUTER_TEXT_1)
      == Vars(0x98ECDA1A, 0xC2D0F752, 0x9846F2F1, 0x61D091D2, 0x2D4BE5B6)
    ensures Sixteen(Vars(0x98ECDA1A, 0xC2D0F752, 0x9846F2F1, 0x61D091D2, 0x2D4BE5B6), 32, OUTER_TEXT_2)
      == Vars(0xBE5E2CE8, 0x7E450BFD, 0xF293CB68, 0x07CCE79A, 0x1C6D9281)
    ensures Sixteen(Vars(0xBE5E2CE8, 0x7E450BFD, 0xF293CB68, 0x07CCE79A, 0x1C6D9281), 48, OUTER_TEXT_3)
      == Vars(0xCF69B90C, 0x88C8C156, 0x3C6521B7, 0x4C8FB7A3, 0x5C676F55)
    ensures Sixteen(Vars(0xCF69B90C, 0x88C8C156, 0x3C6521B7, 0x4C8FB7A3, 0x5C676F55), 64, OUTER_TEXT_4)
      == Vars(0xCF74A840, 0xF0E51F01, 0xDA448BD0, 0x6338E16A, 0xFD8F2E44)
  {
    hide Four;
    OuterTextFours0();
    OuterTextFours1();
    OuterTextFours2();
  }

  lemma {:induction false} OuterText(block: seq<Octet>)
    requires Begins(block, OUTER_TEXT_0)
    ensures Compress(Vars(0x2088372A, 0xF50610A1, 0xF82F8B05, 0x8E4BFE32, 0x280B4E35), block) == Vars(0xEFFCDF6A, 0xE5EB2FA2, 0xD27416D5, 0xF184DF9C, 0x259A7C79)
  {
    hide Begins, Follows, Sixteen, Compress;
    OuterTextWords0(); OuterTextWords1(); OuterTextWords2(); OuterTextWords3();
    OuterTextRounds();
    BlockIs(Vars(0x2088372A, 0xF50610A1, 0xF82F8B05, 0x8E4BFE32, 0x280B4E35), block, [OUTER_TEXT_0, OUTER_TEXT_1, OUTER_TEXT_2, OUTER_TEXT_3, OUTER_TEXT_4],
      [Vars(0x2088372A, 0xF50610A1, 0xF82F8B05, 0x8E4BFE32, 0x280B4E35),
       Vars(0x0915DDCE, 0xE7F5BB49, 0xC60A0266, 0x18AB2FF0, 0x6CEBBF4D),
       Vars(0x98ECDA1A, 0xC2D0F752, 0x9846F2F1, 0x61D091D2, 0x2D4BE5B6),
       Vars(0xBE5E2CE8, 0x7E450BFD, 0xF293CB68, 0x07CCE79A, 0x1C6D9281),
       Vars(0xCF69B90C, 0x88C8C156, 0x3C6521B7, 0x4C8FB7A3, 0x5C676F55),
       Vars(0xCF74A840, 0xF0E51F01, 0xDA448BD0, 0x6338E16A, 0xFD8F2E44)]);
  }
}
