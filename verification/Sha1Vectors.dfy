/**
 The published test values of SHA-1 (section 7.3 of RFC 3174) and of HMAC over it
 (test case 2 in section 3 of RFC 2202), and the constants of section 4.2.1 of
 FIPS 180-4 as square roots.
 */
module Sha1Vectors {
  import opened Sha1
  import opened Sha1Blocks

  // ----- the constants

  /** k is the integer part of the square root of n, times 2^30. */
  ghost predicate ScaledRoot(k: nat, n: nat)
  {
    k * k <= n * 0x1000_0000_0000_0000 < (k + 1) * (k + 1)
  }

  /** The four constants are the square roots of 2, 3, 5 and 10. */
  lemma ConstantsAreRoots(t: nat)
    requires t < 80
    ensures ScaledRoot(K(t) as nat, if t < 20 then 2 else if t < 40 then 3 else if t < 60 then 5 else 10)
  {
  }

  // ----- padding

  /** What stands where in a padded message. */
  lemma {:induction false} PaddedParts(m: seq<Octet>)
    requires |m| < 0x2000
    ensures var p := Padded(m); var n := |p|;
      && n % 64 == 0 && |m| + 9 <= n < |m| + 73 && p[..|m|] == m && p[|m|] == 0x80
      && (forall k | |m| < k < n - 2 :: p[k] == 0)
      && p[n - 2] == OctetOf(8 * |m| / 256) && p[n - 1] == OctetOf(8 * |m|)
  {
    hide OctetOf, BigEndian;
    var x := 8 * |m|;
    assert x % 0x1_0000_0000_0000_0000 == x;
    LengthOctets(x);
    SmallHigh(x / 256);
  }

  lemma {:induction false} LengthOctets(x: nat)
    ensures BigEndian(x, 8) == BigEndian(x / 256 / 256, 6) + [OctetOf(x / 256), OctetOf(x)]
  {
    assert BigEndian(x, 8) == BigEndian(x / 256, 7) + [OctetOf(x)];
    assert BigEndian(x / 256, 7) == BigEndian(x / 256 / 256, 6) + [OctetOf(x / 256)];
  }

  lemma {:induction false} SmallHigh(x: nat)
    requires x < 256
    ensures x / 256 == 0 && BigEndian(0, 6) == [0, 0, 0, 0, 0, 0]
  {
    ZeroOctets(6);
    assert Zeros(6) == [0, 0, 0, 0, 0, 0];
  }

  lemma {:induction false} ZeroOctets(n: nat)
    ensures BigEndian(0, n) == Zeros(n)
  {
    if n > 0 { ZeroOctets(n - 1); }
  }

  // ----- "abc"

  const ABC: seq<Octet> := [0x61, 0x62, 0x63]

  lemma {:induction false} AbcBegins()
    ensures Begins(Padded(ABC), ABC_0)
  {
    hide Padded;
    PaddedParts(ABC);
    var p := Padded(ABC);
    assert p[0] == p[..3][0] && p[1] == p[..3][1] && p[2] == p[..3][2];
  }

  lemma {:induction false} DigestOfAbc()
    ensures Digest(ABC) == [
      0xA9, 0x99, 0x3E, 0x36, 0x47, 0x06, 0x81, 0x6A, 0xBA, 0x3E, 0x25, 0x71, 0x78, 0x50, 0xC2, 0x6C,
      0x9C, 0xD0, 0xD8, 0x9D]
  {
    hide Compress, Padded, Absorb, BlockWord;
    AbcBegins();
    Abc(Padded(ABC));
    AbsorbOne(INITIAL, Padded(ABC));
  }

  // ----- a message of two blocks

  lemma {:induction false} TwoBlocks(s: Vars, p: seq<Octet>)
    requires |p| == 128
    ensures Absorb(s, p) == Compress(Compress(s, p[..64]), p[64..])
  {
    hide Compress, Absorb;
    assert p == p[..64] + p[64..];
    AbsorbAppend(s, p[..64], p[64..]);
    AbsorbOne(s, p[..64]);
    AbsorbOne(Compress(s, p[..64]), p[64..]);
  }

  /** A text by its words, the most significant byte of each first. */
  function Spelled(w: seq<Word>): (text: seq<Octet>)
    ensures |text| == 4 * |w|
  {
    if w == [] then [] else Spelled(w[..|w| - 1]) + WordOctets(w[|w| - 1])
  }

  /** "abcdbcdecdefdefgefghfghighijhijkijkljklmklmnlmnomnopnopq" */
  const LONG: seq<Octet> := Spelled(LONG_WORDS)

  const LONG_WORDS: seq<Word> := [
    0x61626364, 0x62636465, 0x63646566, 0x64656667, 0x65666768, 0x66676869, 0x6768696A, 0x68696A6B,
    0x696A6B6C, 0x6A6B6C6D, 0x6B6C6D6E, 0x6C6D6E6F, 0x6D6E6F70, 0x6E6F7071]

  /** The text holds the word x at index i. */
  ghost predicate TextWord(text: seq<Octet>, i: nat, x: Word)
  {
    4 * i + 3 < |text| && Joined(text[4 * i], text[4 * i + 1], text[4 * i + 2], text[4 * i + 3]) == x
  }

  /** A block that holds a text of n words, the mark 0x80 and nothing else but two bytes at its end. */
  lemma {:induction false} TextBegins(p: seq<Octet>, text: seq<Octet>, w: seq<Word>, n: nat)
    requires |p| == 64 && |w| == 16 && n < 15 && |text| == 4 * n && p[..4 * n] == text && p[4 * n] == 0x80
    requires (forall k | 4 * n < k < 62 :: p[k] == 0) && (forall i | 0 <= i < n :: TextWord(text, i, w[i]))
    requires w[n] == Joined(0x80, 0, 0, 0) && forall i | n < i < 15 :: w[i] == Joined(0, 0, 0, 0)
    requires w[15] == Joined(0, 0, p[62], p[63])
    ensures Begins(p, w)
  {
    hide Joined;
    forall i | 0 <= i < 16 ensures BlockWord(p, i) == w[i] {
      if i < n {
        assert TextWord(text, i, w[i]);
        assert forall k | 0 <= k < 4 * n :: p[k] == text[k];
      }
    }
  }

  lemma {:induction false} SpelledWord(w: seq<Word>, i: nat)
    requires i < |w|
    ensures TextWord(Spelled(w), i, w[i])
    decreases |w|
  {
    var n := |w| - 1;
    if i < n {
      SpelledWord(w[..n], i);
    } else {
      JoinedOctets(w[n]);
      hide OctetAt, Joined;
    }
  }

  lemma JoinedOctets(x: Word)
    ensures Joined(OctetAt(x, 3), OctetAt(x, 2), OctetAt(x, 1), OctetAt(x, 0)) == x
  {
  }

  /** The words of a block that begins with a text are those of the text. */
  lemma {:induction false} SpelledText(w: seq<Word>, v: seq<Word>)
    requires w <= v
    ensures forall i | 0 <= i < |w| :: TextWord(Spelled(w), i, v[i])
  {
    hide TextWord, Spelled;
    forall i | 0 <= i < |w| ensures TextWord(Spelled(w), i, v[i]) { SpelledWord(w, i); }
  }

  lemma {:induction false} LongBegins()
    ensures |Padded(LONG)| == 128 && Begins(Padded(LONG)[..64], FIRST_0)
  {
    hide Padded, TextWord, Begins, Spelled;
    PaddedParts(LONG);
    assert LONG_WORDS <= FIRST_0;
    SpelledText(LONG_WORDS, FIRST_0);
    var p := Padded(LONG);
    assert p[..64][..56] == p[..56];
    TextBegins(p[..64], LONG, FIRST_0, 14);
  }

  lemma {:induction false} LongGoesOn()
    ensures |Padded(LONG)| == 128 && Begins(Padded(LONG)[64..], SECOND_0)
  {
    hide Padded, Begins;
    PaddedParts(LONG);
    var p := Padded(LONG)[64..];
    hide Joined;
    NothingBut(p, SECOND_0);
  }

  /** Nothing but two bytes at the end. */
  lemma NothingBut(p: seq<Octet>, w: seq<Word>)
    requires |p| == 64 && |w| == 16 && (forall k | 0 <= k < 62 :: p[k] == 0)
    requires (forall i | 0 <= i < 15 :: w[i] == Joined(0, 0, 0, 0)) && w[15] == Joined(0, 0, p[62], p[63])
    ensures Begins(p, w)
  {
    hide Joined;
  }

  lemma {:induction false} DigestOfLong()
    ensures Digest(LONG) == [
      0x84, 0x98, 0x3E, 0x44, 0x1C, 0x3B, 0xD2, 0x6E, 0xBA, 0xAE, 0x4A, 0xA1, 0xF9, 0x51, 0x29, 0xE5,
      0xE5, 0x46, 0x70, 0xF1]
  {
    hide Compress, Padded, Absorb, BlockWord;
    LongBegins();
    LongGoesOn();
    First(Padded(LONG)[..64]);
    Second(Padded(LONG)[64..]);
    TwoBlocks(INITIAL, Padded(LONG));
  }

  // ----- the keyed hash

  /** "Jefe" */
  const KEY: seq<Octet> := [0x4A, 0x65, 0x66, 0x65]

  /** "what do ya want for nothing?" */
  const TEXT: seq<Octet> := Spelled(TEXT_WORDS)

  const TEXT_WORDS: seq<Word> := [
    0x77686174, 0x20646F20, 0x79612077, 0x616E7420, 0x666F7220, 0x6E6F7468, 0x696E673F]

  /** What stands where in a padded key combined with a constant. */
  lemma {:induction false} KeyParts(pad: Octet)
    ensures var x := Xored(KeyBlock(KEY), pad);
      && |x| == 64 && (forall k | 0 <= k < 4 :: x[k] == XorOctet(KEY[k], pad))
      && forall k | 4 <= k < 64 :: x[k] == XorOctet(0, pad)
  {
    hide Digest, XorOctet;
    assert forall k | 4 <= k < 64 :: KeyBlock(KEY)[k] == Zeros(60)[k - 4];
  }

  lemma {:induction false} InnerKeyBegins()
    ensures Begins(Xored(KeyBlock(KEY), 0x36), INNER_KEY_0)
  {
    hide Xored, KeyBlock;
    KeyParts(0x36);
  }

  lemma {:induction false} OuterKeyBegins()
    ensures Begins(Xored(KeyBlock(KEY), 0x5c), OUTER_KEY_0)
  {
    hide Xored, KeyBlock;
    KeyParts(0x5c);
  }

  /** A block and some text behind it, padded. */
  lemma {:induction false} Behind(x: seq<Octet>, m: seq<Octet>)
    requires |x| == 64 && |m| < 56
    ensures var p := Padded(x + m);
      && |p| == 128 && p[..64] == x && p[64..][..|m|] == m && p[64..][|m|] == 0x80
      && (forall k | |m| < k < 62 :: p[64..][k] == 0)
      && p[64..][62] == OctetOf(8 * (64 + |m|) / 256) && p[64..][63] == OctetOf(8 * (64 + |m|))
  {
    hide Padded, OctetOf;
    PaddedParts(x + m);
    var p := Padded(x + m);
    assert p[..64] == p[..64 + |m|][..64] == x;
    assert p[64..][..|m|] == p[..64 + |m|][64..] == m;
  }

  lemma {:induction false} InnerTextBegins(x: seq<Octet>)
    requires |x| == 64
    ensures |Padded(x + TEXT)| == 128 && Begins(Padded(x + TEXT)[64..], INNER_TEXT_0)
  {
    hide Padded, TextWord, Begins, Spelled;
    Behind(x, TEXT);
    hide OctetOf;
    InnerLength();
    assert TEXT_WORDS <= INNER_TEXT_0;
    SpelledText(TEXT_WORDS, INNER_TEXT_0);
    TextBegins(Padded(x + TEXT)[64..], TEXT, INNER_TEXT_0, 7);
  }

  lemma InnerLength()
    ensures INNER_TEXT_0[15] == Joined(0, 0, OctetOf(8 * 92 / 256), OctetOf(8 * 92))
  {
  }

  const INNER: seq<Octet> := Spelled(INNER_WORDS)

  const INNER_WORDS: seq<Word> := [0x98851244, 0x3AF91C57, 0xA38CE2DC, 0x8EC38796, 0x6C08DEC4]

  lemma {:induction false} OctetsSpelled(s: Vars)
    ensures Octets(s) == Spelled([s.a, s.b, s.c, s.d, s.e])
  {
    hide WordOctets, Spelled;
    SpelledSnoc([], s.a);
    SpelledSnoc([s.a], s.b);
    SpelledSnoc([s.a, s.b], s.c);
    SpelledSnoc([s.a, s.b, s.c], s.d);
    SpelledSnoc([s.a, s.b, s.c, s.d], s.e);
    assert [] + [s.a] == [s.a] && [s.a] + [s.b] == [s.a, s.b] && [s.a, s.b] + [s.c] == [s.a, s.b, s.c];
    assert [s.a, s.b, s.c] + [s.d] == [s.a, s.b, s.c, s.d];
    assert [s.a, s.b, s.c, s.d] + [s.e] == [s.a, s.b, s.c, s.d, s.e];
    assert [] + WordOctets(s.a) == WordOctets(s.a);
  }

  lemma {:induction false} SpelledSnoc(w: seq<Word>, x: Word)
    ensures Spelled(w + [x]) == Spelled(w) + WordOctets(x) && Spelled([]) == []
  {
    hide WordOctets;
    assert (w + [x])[..|w|] == w;
  }

  lemma {:induction false} InnerDigest()
    ensures Digest(Xored(KeyBlock(KEY), 0x36) + TEXT) == INNER
  {
    hide Compress, Padded, Absorb, BlockWord, Xored, KeyBlock, Octets, Spelled;
    var x := Xored(KeyBlock(KEY), 0x36);
    InnerKeyBegins();
    InnerTextBegins(x);
    Behind(x, TEXT);
    InnerKey(x);
    InnerText(Padded(x + TEXT)[64..]);
    TwoBlocks(INITIAL, Padded(x + TEXT));
    OctetsSpelled(Absorb(INITIAL, Padded(x + TEXT)));
  }

  lemma {:induction false} OuterTextBegins(x: seq<Octet>)
    requires |x| == 64
    ensures |Padded(x + INNER)| == 128 && Begins(Padded(x + INNER)[64..], OUTER_TEXT_0)
  {
    hide Padded, TextWord, Begins, Spelled;
    Behind(x, INNER);
    hide OctetOf;
    OuterLength();
    assert INNER_WORDS <= OUTER_TEXT_0;
    SpelledText(INNER_WORDS, OUTER_TEXT_0);
    TextBegins(Padded(x + INNER)[64..], INNER, OUTER_TEXT_0, 5);
  }

  lemma OuterLength()
    ensures OUTER_TEXT_0[15] == Joined(0, 0, OctetOf(8 * 84 / 256), OctetOf(8 * 84))
  {
  }

  lemma {:induction false} HmacOfText()
    ensures Hmac(KEY, TEXT) == [
      0xEF, 0xFC, 0xDF, 0x6A, 0xE5, 0xEB, 0x2F, 0xA2, 0xD2, 0x74, 0x16, 0xD5, 0xF1, 0x84, 0xDF, 0x9C,
      0x25, 0x9A, 0x7C, 0x79]
  {
    hide Compress, Padded, Absorb, BlockWord, Xored, KeyBlock;
    InnerDigest();
    var x := Xored(KeyBlock(KEY), 0x5c);
    OuterKeyBegins();
    OuterTextBegins(x);
    Behind(x, INNER);
    OuterKey(x);
    OuterText(Padded(x + INNER)[64..]);
    TwoBlocks(INITIAL, Padded(x + INNER));
  }

  lemma {:induction false} HexConcat(s: seq<Octet>, t: seq<Octet>)
    ensures Hex(s + t) == Hex(s) + Hex(t)
    decreases |t|
  {
    hide HexPair;
    if t == [] {
      assert s + t == s;
    } else {
      var n := |t| - 1;
      HexConcat(s, t[..n]);
      assert (s + t)[..|s| + n] == s + t[..n];
    }
  }

  lemma {:induction false} HexFive(a: Octet, b: Octet, c: Octet, d: Octet, e: Octet)
    ensures Hex([a, b, c, d, e]) == HexPair(a) + HexPair(b) + HexPair(c) + HexPair(d) + HexPair(e)
  {
    hide HexPair, Hex;
    HexOne(a);
    HexOne(b);
    HexOne(c);
    HexOne(d);
    HexOne(e);
    HexConcat([a], [b]);
    HexConcat([a, b], [c]);
    HexConcat([a, b, c], [d]);
    HexConcat([a, b, c, d], [e]);
    assert [a] + [b] == [a, b] && [a, b] + [c] == [a, b, c] && [a, b, c] + [d] == [a, b, c, d];
    assert [a, b, c, d] + [e] == [a, b, c, d, e];
  }

  lemma HexOne(a: Octet)
    ensures Hex([a]) == HexPair(a)
  {
    hide HexPair;
    assert [a][..0] == [] && [] + HexPair(a) == HexPair(a);
  }

  lemma FirstPairs()
    ensures Hex([0xEF, 0xFC, 0xDF, 0x6A, 0xE5]) == "effcdf6ae5"
  {
    hide Hex;
    HexFive(0xEF, 0xFC, 0xDF, 0x6A, 0xE5);
  }

  lemma SecondPairs()
    ensures Hex([0xEB, 0x2F, 0xA2, 0xD2, 0x74]) == "eb2fa2d274"
  {
    hide Hex;
    HexFive(0xEB, 0x2F, 0xA2, 0xD2, 0x74);
  }

  lemma ThirdPairs()
    ensures Hex([0x16, 0xD5, 0xF1, 0x84, 0xDF]) == "16d5f184df"
  {
    hide Hex;
    HexFive(0x16, 0xD5, 0xF1, 0x84, 0xDF);
  }

  lemma FourthPairs()
    ensures Hex([0x9C, 0x25, 0x9A, 0x7C, 0x79]) == "9c259a7c79"
  {
    hide Hex;
    HexFive(0x9C, 0x25, 0x9A, 0x7C, 0x79);
  }

  lemma {:induction false} Quarters(a: seq<Octet>, b: seq<Octet>, c: seq<Octet>, d: seq<Octet>)
    ensures Hex(a + b + c + d) == Hex(a) + Hex(b) + Hex(c) + Hex(d)
  {
    hide Hex;
    HexConcat(a, b);
    HexConcat(a + b, c);
    HexConcat(a + b + c, d);
  }

  lemma InQuarters(text: seq<Octet>)
    requires text == [
      0xEF, 0xFC, 0xDF, 0x6A, 0xE5, 0xEB, 0x2F, 0xA2, 0xD2, 0x74, 0x16, 0xD5, 0xF1, 0x84, 0xDF, 0x9C,
      0x25, 0x9A, 0x7C, 0x79]
    ensures text[..5] == [0xEF, 0xFC, 0xDF, 0x6A, 0xE5] && text[5..10] == [0xEB, 0x2F, 0xA2, 0xD2, 0x74]
    ensures text[10..15] == [0x16, 0xD5, 0xF1, 0x84, 0xDF] && text[15..] == [0x9C, 0x25, 0x9A, 0x7C, 0x79]
  {
  }

  lemma JoinedText()
    ensures "effcdf6ae5" + "eb2fa2d274" + "16d5f184df" + "9c259a7c79" == "effcdf6ae5eb2fa2d27416d5f184df9c259a7c79"
  {
  }

  /** The same digest as text. */
  lemma {:induction false} HmacAsText()
    ensures Hex(Hmac(KEY, TEXT)) == "effcdf6ae5eb2fa2d27416d5f184df9c259a7c79"
  {
    hide *;
    HmacOfText();
    var text := Hmac(KEY, TEXT);
    InQuarters(text);
    FirstPairs();
    SecondPairs();
    ThirdPairs();
    FourthPairs();
    Quarters(text[..5], text[5..10], text[10..15], text[15..]);
    JoinedText();
    assert text[..5] + text[5..10] + text[10..15] + text[15..] == text;
  }
}
