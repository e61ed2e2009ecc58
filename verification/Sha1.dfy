/**
 SHA-1 as section 6.1 of FIPS 180-4 defines it, with an 80-word message schedule and
 five variables that shift along, and HMAC as section 2 of RFC 2104 does.
 */
module Sha1 {

  type Word = bv32
  type Octet = x: bv32 | x <= 0xFF

  // ----- one block (sections 4.1.1, 4.2.1 and 6.1.2 of FIPS 180-4)

  function Choose(x: Word, y: Word, z: Word): Word { (x & y) ^ (!x & z) }

  function Parity(x: Word, y: Word, z: Word): Word { x ^ y ^ z }

  function Majority(x: Word, y: Word, z: Word): Word { (x & y) ^ (x & z) ^ (y & z) }

  function F(t: nat, x: Word, y: Word, z: Word): Word
  {
    if t < 20 then Choose(x, y, z) else if t < 40 then Parity(x, y, z) else if t < 60 then Majority(x, y, z) else Parity(x, y, z)
  }

  function K(t: nat): Word
  {
    if t < 20 then 0x5A827999 else if t < 40 then 0x6ED9EBA1 else if t < 60 then 0x8F1BBCDC else 0xCA62C1D6
  }

  /** Four bytes as a word, the most significant first. */
  function Joined(a: Word, b: Word, c: Word, d: Word): Word
  {
    (a << 24) | (b << 16) | (c << 8) | d
  }

  /** The big-endian word at index i of a block. */
  function BlockWord(block: seq<Octet>, i: nat): Word
    requires |block| == 64 && i < 16
  {
    Joined(block[4 * i], block[4 * i + 1], block[4 * i + 2], block[4 * i + 3])
  }

  /** W(t) of the message schedule. */
  function W(block: seq<Octet>, t: nat): Word
    requires |block| == 64
  {
    if t < 16 then BlockWord(block, t)
    else (W(block, t - 3) ^ W(block, t - 8) ^ W(block, t - 14) ^ W(block, t - 16)).RotateLeft(1)
  }

  datatype Vars = Vars(a: Word, b: Word, c: Word, d: Word, e: Word)

  function Add(x: Word, y: Word): Word { x + y }

  function Rotl5(x: Word): Word { x.RotateLeft(5) }

  function Rotl30(x: Word): Word { x.RotateLeft(30) }

  /** T of step 3 in section 6.1.2. */
  function Temp(a: Word, f: Word, e: Word, k: Word, w: Word): Word { a + f + e + k + w }

  function Round(s: Vars, t: nat, w: Word): Vars
  {
    Vars(Temp(Rotl5(s.a), F(t, s.b, s.c, s.d), s.e, K(t), w), s.a, Rotl30(s.b), s.c, s.d)
  }

  /** The variables after the first n rounds. */
  function Rounds(s: Vars, block: seq<Octet>, n: nat): Vars
    requires |block| == 64
  {
    if n == 0 then s else Round(Rounds(s, block, n - 1), n - 1, W(block, n - 1))
  }

  function Plus(s: Vars, t: Vars): Vars
  {
    Vars(Add(s.a, t.a), Add(s.b, t.b), Add(s.c, t.c), Add(s.d, t.d), Add(s.e, t.e))
  }

  function Compress(s: Vars, block: seq<Octet>): Vars
    requires |block| == 64
  {
    Plus(s, Rounds(s, block, 80))
  }

  // ----- a message (sections 5.1.1, 5.3.1 and 6.1.2)

  const INITIAL := Vars(0x67452301, 0xEFCDAB89, 0x98BADCFE, 0x10325476, 0xC3D2E1F0)

  /** The state after all complete blocks of m. */
  function Absorb(s: Vars, m: seq<Octet>): Vars
    decreases |m|
  {
    if |m| < 64 then s else Absorb(Compress(s, m[..64]), m[64..])
  }

  function OctetOf(x: nat): Octet { (x % 256) as bv32 }

  /** x as n bytes, the most significant first. */
  function BigEndian(x: nat, n: nat): (r: seq<Octet>)
    ensures |r| == n
  {
    if n == 0 then [] else BigEndian(x / 256, n - 1) + [OctetOf(x)]
  }

  function Zeros(n: nat): (r: seq<Octet>)
    ensures |r| == n && forall i | 0 <= i < n :: r[i] == 0
  {
    if n == 0 then [] else Zeros(n - 1) + [0]
  }

  /** The padded message: a 1 bit, zeros up to 56 bytes modulo 64, and the length in bits modulo 2^64. */
  function Padded(m: seq<Octet>): seq<Octet>
  {
    m + [0x80] + Zeros((119 - |m| % 64) % 64) + BigEndian(8 * |m| % 0x1_0000_0000_0000_0000, 8)
  }

  /** Byte k of a word, 3 being the most significant. */
  function OctetAt(x: Word, k: nat): Octet
  {
    if k == 3 then x >> 24 else if k == 2 then (x >> 16) & 0xFF else if k == 1 then (x >> 8) & 0xFF else x & 0xFF
  }

  function WordOctets(x: Word): (r: seq<Octet>)
    ensures |r| == 4
  {
    [OctetAt(x, 3), OctetAt(x, 2), OctetAt(x, 1), OctetAt(x, 0)]
  }

  function Octets(s: Vars): (r: seq<Octet>)
    ensures |r| == 20
  {
    WordOctets(s.a) + WordOctets(s.b) + WordOctets(s.c) + WordOctets(s.d) + WordOctets(s.e)
  }

  function Digest(m: seq<Octet>): (r: seq<Octet>)
    ensures |r| == 20
  {
    Octets(Absorb(INITIAL, Padded(m)))
  }

  // ----- HMAC

  function XorOctet(x: Octet, y: Octet): Octet { x ^ y }

  function Xored(s: seq<Octet>, pad: Octet): (r: seq<Octet>)
    ensures |r| == |s| && forall i | 0 <= i < |s| :: r[i] == XorOctet(s[i], pad)
  {
    if s == [] then [] else Xored(s[..|s| - 1], pad) + [XorOctet(s[|s| - 1], pad)]
  }

  /** The key as one block. */
  function KeyBlock(key: seq<Octet>): seq<Octet>
  {
    if |key| > 64 then Digest(key) + Zeros(44) else key + Zeros(64 - |key|)
  }

  function Hmac(key: seq<Octet>, m: seq<Octet>): seq<Octet>
  {
    Digest(Xored(KeyBlock(key), 0x5c) + Digest(Xored(KeyBlock(key), 0x36) + m))
  }

  /** A digest in hexadecimal. */
  function Hex(s: seq<Octet>): (r: string)
    ensures |r| == 2 * |s|
  {
    if s == [] then [] else Hex(s[..|s| - 1]) + HexPair(s[|s| - 1])
  }

  const HEX_DIGITS := "0123456789abcdef"

  function HexPair(x: Octet): (r: string)
    ensures |r| == 2
  {
    [HEX_DIGITS[((x & 0xf0) >> 4) as int], HEX_DIGITS[(x & 0x0f) as int]]
  }

  // ----- lemmas

  /** The forms the source computes the bit functions in. */
  lemma ChooseForm(x: Word, y: Word, z: Word)
    ensures (x & (y ^ z)) ^ z == Choose(x, y, z)
  {
  }

  lemma MajorityForm(x: Word, y: Word, z: Word)
    ensures ((x | y) & z) | (x & y) == Majority(x, y, z)
  {
  }

  /** The word that a little-endian machine reads at index i of a block. */
  function LittleWord(block: seq<Octet>, i: nat): Word
    requires |block| == 64 && i < 16
  {
    Joined(block[4 * i + 3], block[4 * i + 2], block[4 * i + 1], block[4 * i])
  }

  function SwapBytes(x: Word): Word
  {
    (x.RotateLeft(24) & 0xFF00FF00) | (x.RotateLeft(8) & 0x00FF00FF)
  }

  lemma SwapWord(a: Octet, b: Octet, c: Octet, d: Octet)
    ensures SwapBytes(Joined(d, c, b, a)) == Joined(a, b, c, d)
  {
  }

  lemma SwapIsBigEndian(block: seq<Octet>, i: nat)
    requires |block| == 64 && i < 16
    ensures SwapBytes(LittleWord(block, i)) == BlockWord(block, i)
  {
    hide SwapBytes, Joined;
    SwapWord(block[4 * i], block[4 * i + 1], block[4 * i + 2], block[4 * i + 3]);
  }

  /** Absorbing whole blocks first and the rest later is absorbing everything. */
  lemma {:induction false} AbsorbAppend(s: Vars, m: seq<Octet>, n: seq<Octet>)
    requires |m| % 64 == 0
    ensures Absorb(s, m + n) == Absorb(Absorb(s, m), n)
    decreases |m|
  {
    hide Compress;
    if m == [] {
      assert m + n == n;
    } else {
      assert (m + n)[..64] == m[..64] && (m + n)[64..] == m[64..] + n;
      AbsorbAppend(Compress(s, m[..64]), m[64..], n);
    }
  }

  lemma {:induction false} AbsorbOne(s: Vars, block: seq<Octet>)
    requires |block| == 64
    ensures Absorb(s, block) == Compress(s, block)
  {
    hide Compress;
    assert block[..64] == block && block[64..] == [];
  }

  /** What does not fill a block is not absorbed. */
  lemma {:induction false} AbsorbTail(s: Vars, m: seq<Octet>, n: seq<Octet>)
    requires |m| % 64 == 0 && |n| < 64
    ensures Absorb(s, m + n) == Absorb(s, m)
  {
    AbsorbAppend(s, m, n);
  }
}
