/**
 One SHA-1 block in place: sixteen words that are overwritten in a circle, and five
 variables that stay where they are while their roles move round.
 */
module Sha1Transform {
  import opened Sha1

  // ----- five variables in changing roles

  /** The variable that plays role r (0 for a to 4 for e) in round t. */
  function Place(t: nat, r: nat): (k: nat)
    ensures k < 5
  {
    (4 * t + r) % 5
  }

  function Roles(vars: seq<Word>, t: nat): Vars
    requires |vars| == 5
  {
    Vars(vars[Place(t, 0)], vars[Place(t, 1)], vars[Place(t, 2)], vars[Place(t, 3)], vars[Place(t, 4)])
  }

  /** The bit function of round t as the source writes it. */
  function Mix(t: nat, w: Word, x: Word, y: Word): Word
  {
    if t < 20 then (w & (x ^ y)) ^ y else if t < 40 then w ^ x ^ y
    else if t < 60 then ((w | x) & y) | (w & x) else w ^ x ^ y
  }

  lemma MixIsF(t: nat, w: Word, x: Word, y: Word)
    ensures Mix(t, w, x, y) == F(t, w, x, y)
  {
    hide Choose, Majority;
    ChooseForm(w, x, y);
    MajorityForm(w, x, y);
  }

  lemma PlaceNext(t: nat, r: nat)
    ensures Place(t + 1, r + 1) == Place(t, r) && Place(t + 1, 0) == Place(t, 4)
  {
    assert 4 * (t + 1) + (r + 1) == 4 * t + r + 5;
  }

  lemma PlaceOther(t: nat, r: nat, q: nat)
    requires r < q < 5
    ensures Place(t, r) != Place(t, q)
  {
    var x := 4 * t;
    assert (x + q) - (x + r) == q - r;
  }

  /** What a round adds to the variable in role e. */
  function Accumulate(z: Word, f: Word, w: Word, k: Word, v: Word): Word { z + (f + w + k + v) }

  lemma AccumulateIsTemp(z: Word, f: Word, w: Word, k: Word, v: Word)
    ensures Accumulate(z, f, w, k, v) == Temp(v, f, z, k, w)
  {
  }

  /** One round: two variables change, and the roles move on by one place. */
  function RoundInPlace(vars: seq<Word>, t: nat, word: Word): (r: seq<Word>)
    requires |vars| == 5
    ensures |r| == 5
  {
    var v, w, x, y, z := Place(t, 0), Place(t, 1), Place(t, 2), Place(t, 3), Place(t, 4);
    vars[z := Accumulate(vars[z], Mix(t, vars[w], vars[x], vars[y]), word, K(t), Rotl5(vars[v]))][w := Rotl30(vars[w])]
  }

  /** That is a round of the standard's, in which the values shift along. */
  lemma RoundInPlaceIsRound(vars: seq<Word>, t: nat, word: Word)
    requires |vars| == 5
    ensures Roles(RoundInPlace(vars, t, word), t + 1) == Round(Roles(vars, t), t, word)
  {
    hide Place, F, K, Mix, Accumulate, Temp, Rotl5, Rotl30;
    var s := Roles(vars, t);
    PlaceNext(t, 0); PlaceNext(t, 1); PlaceNext(t, 2); PlaceNext(t, 3);
    PlaceOther(t, 0, 1); PlaceOther(t, 1, 2); PlaceOther(t, 1, 3); PlaceOther(t, 1, 4);
    PlaceOther(t, 0, 4); PlaceOther(t, 2, 4); PlaceOther(t, 3, 4);
    MixIsF(t, s.b, s.c, s.d);
    AccumulateIsTemp(s.e, F(t, s.b, s.c, s.d), word, K(t), Rotl5(s.a));
  }

  // ----- sixteen words in a circle

  /** Before round t: slot j % 16 holds W(j) for the last sixteen j, and what is still unread is as it was read in. */
  ghost predicate Window(l: seq<Word>, block: seq<Octet>, t: nat)
    requires |block| == 64
  {
    && |l| == 16
    && (forall k | t <= k < 16 :: l[k] == LittleWord(block, k))
    && (forall j | 0 <= j < t && t - 16 <= j :: l[j % 16] == W(block, j))
  }

  /** The word of round t, which replaces the one of round t - 16. */
  function NextWord(l: seq<Word>, t: nat): Word
    requires |l| == 16
  {
    if t < 16 then SwapBytes(l[t])
    else (l[(t + 13) % 16] ^ l[(t + 8) % 16] ^ l[(t + 2) % 16] ^ l[t % 16]).RotateLeft(1)
  }

  lemma Slots(t: nat)
    requires t >= 16
    ensures (t + 13) % 16 == (t - 3) % 16 && (t + 8) % 16 == (t - 8) % 16 && (t + 2) % 16 == (t - 14) % 16
    ensures t % 16 == (t - 16) % 16
  {
  }

  lemma OtherSlot(j: nat, t: nat)
    requires t - 16 < j < t
    ensures j % 16 != t % 16
  {
  }

  lemma {:induction false} NextWordComputes(l: seq<Word>, block: seq<Octet>, t: nat)
    requires |block| == 64 && Window(l, block, t)
    ensures NextWord(l, t) == W(block, t)
  {
    hide SwapBytes, LittleWord, BlockWord;
    if t < 16 {
      SwapIsBigEndian(block, t);
      assert t % 16 == t;
    } else {
      Slots(t);
      assert l[(t - 3) % 16] == W(block, t - 3) && l[(t - 8) % 16] == W(block, t - 8);
      assert l[(t - 14) % 16] == W(block, t - 14) && l[(t - 16) % 16] == W(block, t - 16);
    }
  }

  /** The circular schedule produces the 80-word one. */
  lemma {:induction false} NextWordIsW(l: seq<Word>, block: seq<Octet>, t: nat)
    requires |block| == 64 && Window(l, block, t)
    ensures NextWord(l, t) == W(block, t) && Window(l[t % 16 := W(block, t)], block, t + 1)
  {
    NextWordComputes(l, block, t);
    hide W, NextWord, SwapBytes, LittleWord;
    var w := W(block, t);
    forall j | 0 <= j < t + 1 && t + 1 - 16 <= j ensures l[t % 16 := w][j % 16] == W(block, j) {
      if j < t { OtherSlot(j, t); }
    }
  }

  // ----- Transform

  ghost function StateOf(s: seq<Word>): Vars
    requires |s| == 5
  {
    Vars(s[0], s[1], s[2], s[3], s[4])
  }

  /** memcpy of a block into the workspace, as a little-endian machine sees it. */
  method Load(l: array<Word>, block: seq<Octet>)
    requires l.Length == 16 && |block| == 64
    modifies l
    ensures Window(l[..], block, 0)
  {
    hide LittleWord;
    var i := 0;
    while i < 16
      invariant i <= 16 && forall k | 0 <= k < i :: l[k] == LittleWord(block, k)
    {
      l[i] := LittleWord(block, i);
      i := i + 1;
    }
  }

  /** One use of SHABLK0 or SHABLK. */
  method Expand(l: array<Word>, ghost block: seq<Octet>, t: nat) returns (word: Word)
    requires l.Length == 16 && |block| == 64 && Window(l[..], block, t)
    modifies l
    ensures word == W(block, t) && Window(l[..], block, t + 1)
  {
    ghost var s := l[..];
    NextWordIsW(s, block, t);
    word := NextWord(l[..], t);
    hide Window, W, NextWord;
    l[t % 16] := word;
    assert l[..] == s[t % 16 := word];
  }

  /** Transform adds to the state what 80 rounds make of it and the block. */
  method Transform(state: array<Word>, l: array<Word>, block: seq<Octet>)
    requires state.Length == 5 && l.Length == 16 && state != l && |block| == 64
    modifies state, l
    ensures StateOf(state[..]) == Compress(StateOf(old(state[..])), block)
  {
    hide Window, W, Round, RoundInPlace;
    ghost var s := StateOf(state[..]);
    var vars := state[..];
    Load(l, block);
    assert Roles(vars, 0) == s;
    var t := 0;
    while t < 80
      invariant t <= 80 && |vars| == 5 && state[..] == old(state[..])
      invariant Window(l[..], block, t) && Roles(vars, t) == Rounds(s, block, t)
    {
      var word := Expand(l, block, t);
      RoundInPlaceIsRound(vars, t, word);
      vars := RoundInPlace(vars, t, word);
      t := t + 1;
    }
    assert Roles(vars, 80) == StateOf(vars);
    AddBack(state, vars);
  }

  method AddBack(state: array<Word>, vars: seq<Word>)
    requires state.Length == 5 && |vars| == 5
    modifies state
    ensures StateOf(state[..]) == Plus(StateOf(old(state[..])), StateOf(vars))
  {
    hide Add;
    state[0] := Add(state[0], vars[0]);
    state[1] := Add(state[1], vars[1]);
    state[2] := Add(state[2], vars[2]);
    state[3] := Add(state[3], vars[3]);
    state[4] := Add(state[4], vars[4]);
  }
}
