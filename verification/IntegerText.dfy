/**
 Integers as text: parsing saturates although overflow is only inferred from the
 number of digits, the leading digit and the top bit of the wrapped result.
 */
module IntegerText {
  import opened Sequences
  import opened XmlText

  // ----- widths

  /** sizeof(U) */
  type Size = n: nat | n == 2 || n == 4 || n == 8 witness 4

  /** The number of values of U. */
  function Limit(size: Size): (n: nat)
    ensures n > 0
  {
    if size == 2 then 0x1_0000 else if size == 4 then 0x1_0000_0000 else 0x1_0000_0000_0000_0000
  }

  function MaxDigits(size: Size): nat
  {
    if size == 8 then 20 else if size == 4 then 10 else 5
  }

  function MaxLead(size: Size): nat
  {
    if size == 8 then 1 else if size == 4 then 4 else 6
  }

  // ----- digits

  /** The value of c as a digit, 16 if it is none. */
  function DigitOf(c: char): nat
  {
    if '0' <= c <= '9' then c as int - '0' as int
    else if 'a' <= c <= 'f' then c as int - 'a' as int + 10
    else if 'A' <= c <= 'F' then c as int - 'A' as int + 10
    else 16
  }

  /** The longest run of digits from position i on. */
  function DigitsFrom(s: string, i: nat, base: nat): (ds: seq<nat>)
    requires base <= 16
    ensures forall k | 0 <= k < |ds| :: ds[k] < base
    ensures |ds| <= if i <= |s| then |s| - i else 0
    decreases |s| - i
  {
    if i < |s| && DigitOf(s[i]) < base then [DigitOf(s[i])] + DigitsFrom(s, i + 1, base) else []
  }

  function Value(ds: seq<nat>, base: nat): nat
  {
    if ds == [] then 0 else Value(ds[..|ds| - 1], base) * base + ds[|ds| - 1]
  }

  function Pow10(n: nat): (p: nat)
    ensures p > 0
  {
    if n == 0 then 1 else 10 * Pow10(n - 1)
  }

  lemma ValueNext(ds: seq<nat>, d: nat, base: nat)
    ensures Value(ds + [d], base) == Value(ds, base) * base + d
  {
    assert (ds + [d])[..|ds|] == ds;
  }

  /** A leading zero does not count. */
  lemma {:induction false} ValueZero(ds: seq<nat>, base: nat)
    ensures Value([0] + ds, base) == Value(ds, base)
    decreases |ds|
  {
    if ds == [] {
      assert ([0] + ds)[..0] == [];
    } else {
      ValueZero(ds[..|ds| - 1], base);
      assert ([0] + ds)[..|ds|] == [0] + ds[..|ds| - 1];
    }
  }

  /** A decimal number lies between its leading digit and the next one, scaled. */
  lemma {:induction false} ValueBounds(ds: seq<nat>)
    requires ds != [] && forall k | 0 <= k < |ds| :: ds[k] < 10
    ensures ds[0] * Pow10(|ds| - 1) <= Value(ds, 10) < (ds[0] + 1) * Pow10(|ds| - 1)
    decreases |ds|
  {
    var t := ds[..|ds| - 1];
    if t == [] {
      assert Value(t, 10) == 0 && Pow10(0) == 1;
    } else {
      ValueBounds(t);
      Scale(ds[0], Pow10(|t| - 1), Value(t, 10), ds[|ds| - 1]);
    }
  }

  lemma Scale(lead: nat, p: nat, v: nat, d: nat)
    requires lead * p <= v < (lead + 1) * p && d < 10
    ensures lead * (10 * p) <= v * 10 + d < (lead + 1) * (10 * p)
  {
    assert lead * (10 * p) == 10 * (lead * p) && (lead + 1) * (10 * p) == 10 * ((lead + 1) * p);
  }

  lemma {:induction false} PowMonotone(m: nat, n: nat)
    requires m <= n
    ensures Pow10(m) <= Pow10(n)
    decreases n
  {
    if m < n { PowMonotone(m, n - 1); }
  }

  lemma PowFive(n: nat)
    ensures Pow10(n + 5) == 100000 * Pow10(n)
  {
    assert Pow10(n + 5) == 10 * Pow10(n + 4) && Pow10(n + 4) == 10 * Pow10(n + 3);
    assert Pow10(n + 3) == 10 * Pow10(n + 2) && Pow10(n + 2) == 10 * Pow10(n + 1) && Pow10(n + 1) == 10 * Pow10(n);
  }

  lemma Powers()
    ensures Pow10(4) == 10000 && Pow10(5) == 100000
    ensures Pow10(9) == 1000000000 && Pow10(10) == 10000000000
    ensures Pow10(19) == 10000000000000000000 && Pow10(20) == 100000000000000000000
  {
    assert Pow10(0) == 1 && Pow10(1) == 10 && Pow10(2) == 100 && Pow10(3) == 1000 && Pow10(4) == 10000;
    PowFive(0);
    PowFive(4);
    PowFive(5);
    PowFive(9);
    PowFive(10);
    PowFive(14);
    PowFive(15);
  }

  /** The overflow test for decimal digits without leading zeros is exact. */
  predicate Overflows(size: Size, digits: nat, lead: nat, wrapped: nat)
  {
    digits >= MaxDigits(size)
    && !(digits == MaxDigits(size) && (lead < MaxLead(size) || (lead == MaxLead(size) && wrapped >= Limit(size) / 2)))
  }

  lemma OverflowExact(size: Size, ds: seq<nat>)
    requires forall k | 0 <= k < |ds| :: ds[k] < 10
    requires ds != [] ==> ds[0] != 0
    ensures Overflows(size, |ds|, if ds == [] then 0 else ds[0], Value(ds, 10) % Limit(size)) <==> Value(ds, 10) >= Limit(size)
  {
    if ds != [] {
      ValueBounds(ds);
      var m, v := MaxDigits(size), Value(ds, 10);
      hide Pow10, Value;
      Between(ds[0], Pow10(|ds| - 1), v);
      if |ds| < m {
        PowMonotone(|ds| - 1, m - 2);
        FewDigits(size, v);
      } else if |ds| > m {
        PowMonotone(m, |ds| - 1);
        ManyDigits(size, v);
      } else {
        AllDigits(size, ds[0], v);
      }
    }
  }

  lemma FewDigits(size: Size, v: nat)
    requires v < 10 * Pow10(MaxDigits(size) - 2)
    ensures v < Limit(size)
  {
    Powers();
    PowStep(3);
    PowStep(8);
    PowStep(18);
    hide Pow10;
  }

  lemma ManyDigits(size: Size, v: nat)
    requires v >= Pow10(MaxDigits(size))
    ensures v >= Limit(size)
  {
    Powers();
    hide Pow10;
  }

  lemma AllDigits(size: Size, lead: nat, v: nat)
    requires 0 < lead < 10 && lead * Pow10(MaxDigits(size) - 1) <= v < (lead + 1) * Pow10(MaxDigits(size) - 1)
    ensures (lead < MaxLead(size) || (lead == MaxLead(size) && v % Limit(size) >= Limit(size) / 2)) <==> v < Limit(size)
  {
    Powers();
    hide Pow10;
    if size == 8 {
      LeadingDigit(lead, 1, v, 10000000000000000000, 20000000000000000000, 0x1_0000_0000_0000_0000);
    } else if size == 4 {
      LeadingDigit(lead, 4, v, 4000000000, 5000000000, 0x1_0000_0000);
    } else {
      LeadingDigit(lead, 6, v, 60000, 70000, 0x1_0000);
    }
  }

  /** With the greatest leading digit, the wrapped result keeps its top bit exactly if nothing was lost. */
  lemma LeadingDigit(lead: nat, most: nat, v: nat, least: nat, next: nat, limit: nat)
    requires lead < most ==> v < least
    requires lead == most ==> least <= v < next
    requires lead > most ==> next <= v
    requires 0 < limit / 2 <= least < limit < next <= limit + limit / 2
    ensures (lead < most || (lead == most && v % limit >= limit / 2)) <==> v < limit
  {
    if lead == most { Wrapped(v, limit); }
  }

  lemma Wrapped(v: nat, limit: nat)
    requires 0 < limit && v < 2 * limit
    ensures v % limit == if v < limit then v else v - limit
  {
  }

  lemma PowStep(n: nat)
    ensures Pow10(n + 1) == 10 * Pow10(n)
  {
  }

  lemma Between(lead: nat, p: nat, v: nat)
    requires lead * p <= v < (lead + 1) * p && 1 <= lead < 10
    ensures p <= v < 10 * p
  {
  }

  // ----- parsing

  /** The character at i, the terminating NUL past the end. */
  function At(s: string, i: nat): char
  {
    if i < |s| then s[i] else 0 as char
  }

  /** The first position from i on that holds no white space. */
  function AfterSpace(s: string, i: nat): (j: nat)
    ensures i <= j && !IsSpace(At(s, j)) && forall k | i <= k < j :: IsSpace(At(s, k))
    decreases |s| - i
  {
    if IsSpace(At(s, i)) then AfterSpace(s, i + 1) else i
  }

  datatype Number = Number(negative: bool, magnitude: nat)

  predicate HexPrefix(s: string, i: nat)
  {
    At(s, i) == '0' && (At(s, i + 1) == 'x' || At(s, i + 1) == 'X')
  }

  /** The number that s begins with: white space, a sign, and decimal or hexadecimal digits. */
  function NumberIn(s: string): Number
  {
    var i := AfterSpace(s, 0);
    var j := if At(s, i) == '+' || At(s, i) == '-' then i + 1 else i;
    Number(At(s, i) == '-',
           if HexPrefix(s, j) then Value(DigitsFrom(s, j + 2, 16), 16) else Value(DigitsFrom(s, j, 10), 10))
  }

  /** n in the range from -minneg to maxpos, nearest first, as a value of U. */
  function Saturated(n: Number, size: Size, minneg: nat, maxpos: nat): nat
  {
    if n.negative then (Limit(size) - (if n.magnitude > minneg then minneg else n.magnitude)) % Limit(size)
    else if n.magnitude > maxpos then maxpos else n.magnitude
  }

  lemma NotDigitAtEnd(s: string, i: nat, base: nat)
    requires base <= 16
    ensures DigitOf(At(s, i)) < base <==> DigitsFrom(s, i, base) != []
    ensures DigitOf(At(s, i)) < base ==> i < |s| && DigitsFrom(s, i, base) == [DigitOf(s[i])] + DigitsFrom(s, i + 1, base)
  {
  }

  /** Leading zeros are skipped: they do not change the value, and leave a digit that is not zero in front. */
  method SkipZeros(s: string, from: nat, base: nat) returns (i: nat)
    requires base == 10 || base == 16
    ensures Value(DigitsFrom(s, i, base), base) == Value(DigitsFrom(s, from, base), base)
    ensures DigitsFrom(s, i, base) != [] ==> DigitsFrom(s, i, base)[0] != 0
    ensures from <= i
  {
    hide Value, DigitsFrom;
    i := from;
    while At(s, i) == '0'
      invariant from <= i && Value(DigitsFrom(s, i, base), base) == Value(DigitsFrom(s, from, base), base)
      decreases |s| - i
    {
      NotDigitAtEnd(s, i, base);
      ValueZero(DigitsFrom(s, i + 1, base), base);
      i := i + 1;
    }
    NotDigitAtEnd(s, i, base);
  }

  /** A digit more. */
  function Append(r: nat, base: nat, d: nat): nat { r * base + d }

  lemma WrapStep(r: nat, v: nat, base: nat, d: nat, size: Size)
    requires (base == 10 || base == 16) && r == v % Limit(size)
    ensures Append(r, base, d) % Limit(size) == Append(v, base, d) % Limit(size)
  {
    var q := v / Limit(size);
    if base == 10 {
      AddMultiple(r * 10 + d, q * 10, size);
    } else {
      AddMultiple(r * 16 + d, q * 16, size);
    }
  }

  lemma AppendValue(ds: seq<nat>, d: nat, base: nat)
    ensures Value(ds + [d], base) == Append(Value(ds, base), base, d)
  {
    ValueNext(ds, d, base);
  }

  lemma AddMultiple(x: nat, k: nat, size: Size)
    ensures (k * Limit(size) + x) % Limit(size) == x % Limit(size)
  {
  }

  /** The digits from start on, their value wrapping round in U. */
  method ReadDigits(s: string, start: nat, base: nat, size: Size) returns (result: nat, count: nat)
    requires base == 10 || base == 16
    ensures count == |DigitsFrom(s, start, base)| && result == Value(DigitsFrom(s, start, base), base) % Limit(size)
  {
    hide Value, DigitsFrom, Limit, Append;
    ghost var all, seen: seq<nat> := DigitsFrom(s, start, base), [];
    NoValue(base, size);
    result, count := 0, 0;
    while true
      invariant all == seen + DigitsFrom(s, start + count, base) && |seen| == count
      invariant result == Value(seen, base) % Limit(size)
      decreases |all| - count
    {
      NotDigitAtEnd(s, start + count, base);
      var d := DigitOf(At(s, start + count));
      if d >= base {
        assert all == seen;
        return;
      }
      AppendValue(seen, d, base);
      WrapStep(result, Value(seen, base), base, d, size);
      assert seen + ([d] + DigitsFrom(s, start + count + 1, base)) == seen + [d] + DigitsFrom(s, start + count + 1, base);
      seen := seen + [d];
      result := Append(result, base, d) % Limit(size);
      count := count + 1;
    }
  }

  lemma NoValue(base: nat, size: Size)
    ensures 0 == Value([], base) % Limit(size)
  {
  }

  /** string_to_integer: the number the text begins with, saturated to the target range. */
  method StringToInteger(s: string, size: Size, minneg: nat, maxpos: nat) returns (r: nat)
    requires minneg < Limit(size) && maxpos < Limit(size)
    ensures r == Saturated(NumberIn(s), size, minneg, maxpos)
  {
    hide Value, DigitsFrom, Limit, Overflows;
    var i := 0;
    while IsSpace(At(s, i))
      invariant AfterSpace(s, i) == AfterSpace(s, 0)
      decreases |s| - i
    {
      i := i + 1;
    }
    var negative := At(s, i) == '-';
    if At(s, i) == '+' || At(s, i) == '-' { i := i + 1; }
    var start, count;
    var overflow;
    if HexPrefix(s, i) {
      start := SkipZeros(s, i + 2, 16);
      r, count := ReadDigits(s, start, 16, size);
      overflow := count > size * 2;
      HexOverflow(size, DigitsFrom(s, start, 16));
    } else {
      start := SkipZeros(s, i, 10);
      r, count := ReadDigits(s, start, 10, size);
      overflow := Overflows(size, count, DigitOf(At(s, start)), r);
      DecimalOverflow(s, start, size);
    }
    ghost var v := NumberIn(s).magnitude;
    Kept(v, size);
    r := if negative then (Limit(size) - if overflow || r > minneg then minneg else r) % Limit(size)
         else if overflow || r > maxpos then maxpos else r;
  }

  lemma DecimalOverflow(s: string, start: nat, size: Size)
    requires DigitsFrom(s, start, 10) != [] ==> DigitsFrom(s, start, 10)[0] != 0
    ensures var ds := DigitsFrom(s, start, 10);
      Overflows(size, |ds|, DigitOf(At(s, start)), Value(ds, 10) % Limit(size)) <==> Value(ds, 10) >= Limit(size)
  {
    NotDigitAtEnd(s, start, 10);
    var ds := DigitsFrom(s, start, 10);
    hide DigitsFrom, Value;
    OverflowExact(size, ds);
    if ds == [] { assert Overflows(size, 0, 0, 0) == Overflows(size, 0, 16, 0); }
  }

  lemma Kept(v: nat, size: Size)
    ensures v < Limit(size) ==> v % Limit(size) == v
  {
  }

  function Pow16(n: nat): (p: nat)
    ensures p > 0
  {
    if n == 0 then 1 else 16 * Pow16(n - 1)
  }

  /** Hexadecimal digits without leading zeros overflow exactly when there are too many. */
  lemma HexOverflow(size: Size, ds: seq<nat>)
    requires forall k | 0 <= k < |ds| :: ds[k] < 16
    requires ds != [] ==> ds[0] != 0
    ensures |ds| > size * 2 <==> Value(ds, 16) >= Limit(size)
  {
    Pow16Limit(size);
    if ds != [] {
      HexBounds(ds);
      hide Pow16, Value;
      if |ds| > size * 2 {
        Pow16Monotone(size * 2, |ds| - 1);
      } else {
        Pow16Monotone(|ds|, size * 2);
      }
    }
  }

  lemma {:induction false} HexBounds(ds: seq<nat>)
    requires ds != [] && ds[0] != 0 && forall k | 0 <= k < |ds| :: ds[k] < 16
    ensures Pow16(|ds| - 1) <= Value(ds, 16) < Pow16(|ds|)
    decreases |ds|
  {
    var t := ds[..|ds| - 1];
    if t == [] {
      assert Value(t, 16) == 0 && Pow16(0) == 1 && Pow16(1) == 16;
    } else {
      HexBounds(t);
      assert Pow16(|ds|) == 16 * Pow16(|t|) && Pow16(|t|) == 16 * Pow16(|t| - 1);
    }
  }

  lemma {:induction false} Pow16Monotone(m: nat, n: nat)
    requires m <= n
    ensures Pow16(m) <= Pow16(n)
    decreases n
  {
    if m < n { Pow16Monotone(m, n - 1); }
  }

  lemma Pow16Four(n: nat)
    ensures Pow16(n + 4) == 0x1_0000 * Pow16(n)
  {
    assert Pow16(n + 4) == 16 * Pow16(n + 3) && Pow16(n + 3) == 16 * Pow16(n + 2);
    assert Pow16(n + 2) == 16 * Pow16(n + 1) && Pow16(n + 1) == 16 * Pow16(n);
  }

  lemma Pow16Limit(size: Size)
    ensures Pow16(size * 2) == Limit(size)
  {
    Pow16Four(0);
    Pow16Four(4);
    Pow16Four(8);
    Pow16Four(12);
  }

  // ----- printing

  function DigitChar(d: nat): char
    requires d < 10
  {
    ('0' as int + d) as char
  }

  /** The decimal digits of v, without leading zeros. */
  function Decimal(v: nat): (s: string)
    ensures s != []
  {
    if v < 10 then [DigitChar(v)] else Decimal(v / 10) + [DigitChar(v % 10)]
  }

  function Text(v: nat, negative: bool): string
  {
    (if negative then ['-'] else []) + Decimal(v)
  }

  /** integer_to_string: the text ends at the end of the buffer, and begins at the position returned. */
  method IntegerToString(buf: array<char>, value: nat, negative: bool, size: Size) returns (begin: nat)
    requires value < Limit(size)
    requires buf.Length > |Decimal(if negative then (Limit(size) - value) % Limit(size) else value)|
    modifies buf
    ensures begin <= buf.Length
    ensures buf[begin..] == Text(if negative then (Limit(size) - value) % Limit(size) else value, negative)
  {
    hide Limit, Decimal;
    var rest: nat := if negative then (Limit(size) - value) % Limit(size) else value;
    var result := WriteDigits(buf, rest);
    buf[result] := '-';
    begin := if negative then result else result + 1;
    assert buf[result..] == ['-'] + buf[result + 1..];
  }

  /** The digits of value, from the end of the buffer on down; the position before them is returned. */
  method WriteDigits(buf: array<char>, value: nat) returns (result: nat)
    requires buf.Length > |Decimal(value)|
    modifies buf
    ensures result < buf.Length && buf[result + 1..] == Decimal(value)
  {
    hide Decimal, DigitChar;
    var rest, at := value, buf.Length;
    ghost var tail: string := [];
    while true
      invariant 0 <= rest && |Decimal(rest)| < at <= buf.Length
      invariant Decimal(rest) + tail == Decimal(value) && buf[at..] == tail
      decreases rest
    {
      DecimalStep(rest);
      at := at - 1;
      buf[at] := DigitChar(rest % 10);
      assert buf[at..] == [DigitChar(rest % 10)] + tail;
      tail := [DigitChar(rest % 10)] + tail;
      if rest / 10 == 0 { return at - 1; }
      Assoc(Decimal(rest / 10), [DigitChar(rest % 10)], tail[1..]);
      rest := rest / 10;
    }
  }

  lemma DecimalStep(v: nat)
    ensures Decimal(v) == (if v / 10 == 0 then [] else Decimal(v / 10)) + [DigitChar(v % 10)]
  {
  }

  // ----- round trip

  /** The digits of v. */
  function ValuesOf(v: nat): (ds: seq<nat>)
    ensures ds != [] && forall k | 0 <= k < |ds| :: ds[k] < 10
  {
    if v < 10 then [v] else ValuesOf(v / 10) + [v % 10]
  }

  lemma {:induction false} DecimalValue(v: nat)
    ensures Value(ValuesOf(v), 10) == v
  {
    if v < 10 {
      assert [v][..0] == [];
    } else {
      DecimalValue(v / 10);
      ValueNext(ValuesOf(v / 10), v % 10, 10);
    }
  }

  lemma {:induction false} DecimalIs(v: nat)
    ensures |Decimal(v)| == |ValuesOf(v)| && forall k | 0 <= k < |Decimal(v)| :: Decimal(v)[k] == DigitChar(ValuesOf(v)[k])
  {
    if v >= 10 { DecimalIs(v / 10); }
  }

  lemma {:induction false} DigitsRead(s: string, i: nat, ds: seq<nat>)
    requires i + |ds| == |s| && forall k | 0 <= k < |ds| :: ds[k] < 10
    requires forall k | i <= k < |s| :: s[k] == DigitChar(ds[k - i])
    ensures DigitsFrom(s, i, 10) == ds
    decreases |ds|
  {
    if ds != [] {
      assert s[i] == DigitChar(ds[0]);
      DigitsRead(s, i + 1, ds[1..]);
    }
  }

  lemma {:induction false} LeadingDigitOf(v: nat)
    requires v > 0
    ensures Decimal(v)[0] != '0' && Decimal(v)[0] != '-'
  {
    if v >= 10 { LeadingDigitOf(v / 10); }
  }

  /** Printed text begins with just that number. */
  lemma {:induction false} TextRead(v: nat, negative: bool)
    ensures NumberIn(Text(v, negative)) == Number(negative, v)
  {
    var s, front := Text(v, negative), if negative then 1 else 0;
    DecimalIs(v);
    DecimalValue(v);
    assert forall k | front <= k < |s| :: s[k] == Decimal(v)[k - front];
    DigitsRead(s, front, ValuesOf(v));
    if v > 0 { LeadingDigitOf(v); }
    hide DigitsFrom, Value, ValuesOf;
    assert Decimal(v)[0] == s[front] && '0' <= s[front] <= '9' by { DigitFirst(v); }
    assert AfterSpace(s, 0) == 0;
    assert !HexPrefix(s, front);
  }

  lemma DigitFirst(v: nat)
    ensures '0' <= Decimal(v)[0] <= '9'
  {
    DecimalIs(v);
  }

  /** A signed value, printed as set_value does and parsed as get_value does, comes back. */
  lemma RoundTripSigned(x: int, size: Size)
    requires -(Limit(size) / 2) <= x < Limit(size) / 2
    ensures var value := x % Limit(size); var negative := x < 0;
      var rest := if negative then (Limit(size) - value) % Limit(size) else value;
      Saturated(NumberIn(Text(rest, negative)), size, Limit(size) / 2, Limit(size) / 2 - 1) == value
  {
    Magnitude(x, size);
    TextRead(if x < 0 then -x else x, x < 0);
    hide Text, NumberIn;
  }

  lemma Magnitude(x: int, size: Size)
    requires -(Limit(size) / 2) <= x < Limit(size) / 2
    ensures x < 0 ==> x % Limit(size) == Limit(size) + x && (Limit(size) - x % Limit(size)) % Limit(size) == -x
    ensures x >= 0 ==> x % Limit(size) == x
  {
  }

  /** So does an unsigned one. */
  lemma RoundTripUnsigned(x: nat, size: Size)
    requires x < Limit(size)
    ensures Saturated(NumberIn(Text(x, false)), size, 0, Limit(size) - 1) == x
  {
    TextRead(x, false);
  }
}
