/** What text stands for which integer, for every spelling and every range. */
module IntegerLaws {
  import opened XmlText
  import opened IntegerText
  import opened XmlReferences

  /** A character is the digit d in either case, and no other digit. */
  lemma DigitOfExactly(c: char, d: nat)
    requires d < 16
    ensures DigitOf(c) == d <==> IsDigitFor(c, d)
    ensures DigitOf(c) <= 16
  {
  }

  /** The digits from i on, when they are followed by none. */
  lemma {:induction false} DigitsSpelled(s: string, i: nat, digits: string, ds: seq<nat>, base: nat)
    requires (base == 10 || base == 16) && Spells(digits, ds, base) && Has(s, i, digits)
    requires i + |digits| < |s| ==> DigitOf(s[i + |digits|]) >= base
    ensures DigitsFrom(s, i, base) == ds
    decreases |ds|
  {
    hide IsDigitFor, DigitOf;
    if ds != [] {
      HasAt(s, i, digits, 0);
      DigitOfExactly(digits[0], ds[0]);
      assert digits == digits[..1] + digits[1..];
      HasSplit(s, i, digits[..1], digits[1..]);
      DigitsSpelled(s, i + 1, digits[1..], ds[1..], base);
    }
  }

  /** The two ways to compute a value. */
  lemma {:induction false} ValueIs(ds: seq<nat>, base: nat)
    ensures Value(ds, base) == ValueOf(ds, base)
    decreases |ds|
  {
    if ds != [] { ValueIs(ds[..|ds| - 1], base); }
  }

  lemma {:induction false} SpaceSpelled(s: string, i: nat, space: string)
    requires Has(s, i, space) && (forall k | 0 <= k < |space| :: IsSpace(space[k])) && !IsSpace(At(s, i + |space|))
    ensures AfterSpace(s, i) == i + |space|
    decreases |space|
  {
    if space != [] {
      HasAt(s, i, space, 0);
      assert space == space[..1] + space[1..];
      HasSplit(s, i, space[..1], space[1..]);
      SpaceSpelled(s, i + 1, space[1..]);
    }
  }

  /** White space, a sign or none, 0x or 0X or nothing, digits, and whatever follows: the number is that of the digits. */
  lemma {:induction false} NumberSpelled(space: string, sign: string, prefix: string, digits: string, ds: seq<nat>, rest: string)
    requires forall k | 0 <= k < |space| :: IsSpace(space[k])
    requires sign in ["", "+", "-"] && prefix in ["", "0x", "0X"]
    requires var base := if prefix == "" then 10 else 16;
      && Spells(digits, ds, base) && (rest != [] ==> DigitOf(rest[0]) >= base)
      && (digits + rest != [] ==> !IsSpace((digits + rest)[0]))
    requires prefix == "" && digits == "0" && rest != [] ==> rest[0] != 'x' && rest[0] != 'X'
    requires prefix == "" && digits == "" && sign == "" && rest != [] ==> rest[0] != '+' && rest[0] != '-'
    ensures NumberIn(space + sign + prefix + digits + rest)
      == Number(sign == "-", ValueOf(ds, if prefix == "" then 10 else 16))
  {
    ZeroIsDigit();
    hide DigitsFrom, Value, AfterSpace, ValueOf, IsDigitFor, HexPrefix, IsSpace, Spells, DigitOf, At, Has, NumberIn;
    var s := space + sign + prefix + digits + rest;
    var j, base := |space| + |sign|, if prefix == "" then 10 else 16;
    var p := j + |prefix|;
    Parts(s, space, sign, prefix, digits, rest);
    DigitChars(digits, ds, base);
    Heads(s, space, sign, prefix, digits, rest);
    SpaceSpelled(s, 0, space);
    DigitsSpelled(s, p, digits, ds, base);
    ValueIs(ds, base);
    NumberByParts(s, |space|, sign, prefix != "", ds);
  }

  lemma NumberByParts(s: string, i: nat, sign: string, hex: bool, ds: seq<nat>)
    requires AfterSpace(s, 0) == i && |sign| <= 1
    requires (At(s, i) == '-' <==> sign == "-") && (At(s, i) == '+' || At(s, i) == '-' <==> sign != "")
    requires (HexPrefix(s, i + |sign|) <==> hex) && (if hex then DigitsFrom(s, i + |sign| + 2, 16) else DigitsFrom(s, i + |sign|, 10)) == ds
    ensures NumberIn(s) == Number(sign == "-", Value(ds, if hex then 16 else 10))
  {
    hide AfterSpace, At, HexPrefix, DigitsFrom, Value;
  }

  lemma ZeroIsDigit()
    ensures DigitOf('0') == 0
  {
  }

  /** What the sign and the prefix are told by. */
  lemma Heads(s: string, space: string, sign: string, prefix: string, digits: string, rest: string)
    requires s == space + sign + prefix + digits + rest && sign in ["", "+", "-"] && prefix in ["", "0x", "0X"]
    requires digits + rest != [] ==> !IsSpace((digits + rest)[0])
    requires forall k | 0 <= k < |digits| :: digits[k] !in "+-xX"
    requires prefix == "" && digits == "0" && rest != [] ==> rest[0] != 'x' && rest[0] != 'X'
    requires prefix == "" && digits == "" && rest != [] ==> rest[0] != '0'
    requires prefix == "" && digits == "" && sign == "" && rest != [] ==> rest[0] != '+' && rest[0] != '-'
    ensures var i := |space|;
      && !IsSpace(At(s, i)) && (At(s, i) == '-' <==> sign == "-") && (At(s, i) == '+' || At(s, i) == '-' <==> sign != "")
      && (HexPrefix(s, i + |sign|) <==> prefix != "")
  {
    hide HexPrefix, At;
    var tail := digits + rest;
    assert s == space + (sign + (prefix + tail)) == (space + sign) + (prefix + tail);
    assert prefix + tail != [] ==> (prefix + tail)[0] == if prefix != "" then '0' else tail[0];
    assert tail != [] ==> tail[0] == if digits != "" then digits[0] else rest[0];
    SignHead(s, space, sign, prefix + tail);
    PrefixHead(s, space + sign, prefix, digits, rest);
  }

  lemma SignHead(s: string, space: string, sign: string, tail: string)
    requires s == space + (sign + tail) && sign in ["", "+", "-"]
    requires tail != [] ==> !IsSpace(tail[0]) && (sign == "" ==> tail[0] != '+' && tail[0] != '-')
    ensures var i := |space|;
      !IsSpace(At(s, i)) && (At(s, i) == '-' <==> sign == "-") && (At(s, i) == '+' || At(s, i) == '-' <==> sign != "")
  {
    if sign + tail != [] { assert s[|space|] == (sign + tail)[0]; }
  }

  lemma PrefixHead(s: string, front: string, prefix: string, digits: string, rest: string)
    requires s == front + (prefix + (digits + rest)) && prefix in ["", "0x", "0X"]
    requires forall k | 0 <= k < |digits| :: digits[k] !in "xX"
    requires prefix == "" && digits == "0" && rest != [] ==> rest[0] != 'x' && rest[0] != 'X'
    requires prefix == "" && digits == "" && rest != [] ==> rest[0] != '0'
    ensures HexPrefix(s, |front|) <==> prefix != ""
  {
    var j, tail := |front|, digits + rest;
    assert forall k | j <= k < |s| :: s[k] == (prefix + tail)[k - j];
    if prefix == "" && digits != "" { assert digits == "0" || |digits| > 1 || digits[0] != '0'; }
  }

  lemma Parts(s: string, space: string, sign: string, prefix: string, digits: string, rest: string)
    requires s == space + sign + prefix + digits + rest
    ensures var i := |space|; var j := i + |sign|; var p := j + |prefix|; var e := p + |digits|;
      && Has(s, 0, space) && Has(s, p, digits) && |s| == e + |rest|
      && (forall k | i <= k < j :: s[k] == sign[k - i]) && (forall k | j <= k < p :: s[k] == prefix[k - j])
      && (forall k | p <= k < e :: s[k] == digits[k - p]) && (forall k | e <= k < |s| :: s[k] == rest[k - e])
  {
  }

  lemma DigitChars(digits: string, ds: seq<nat>, base: nat)
    requires Spells(digits, ds, base) && base <= 16
    ensures |digits| == |ds| && forall k | 0 <= k < |digits| :: digits[k] !in "+-xX"
  {
  }

  // ----- the range

  /** The nearest integer in the range. */
  function Nearest(x: int, least: int, most: int): int
  {
    if x < least then least else if x > most then most else x
  }

  function Signed(n: Number): int
  {
    if n.negative then -(n.magnitude as int) else n.magnitude
  }

  /** The result is the nearest integer in the range, as a value of U. */
  lemma SaturatedIsNearest(n: Number, size: Size, minneg: nat, maxpos: nat)
    requires minneg < Limit(size) && maxpos < Limit(size)
    ensures Saturated(n, size, minneg, maxpos)
      == Nearest(Signed(n), -(minneg as int), maxpos) % Limit(size)
  {
  }
}
