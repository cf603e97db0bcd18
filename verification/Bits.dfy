/** Machine words as vectors of bits, least significant first, and the masked comparison
    of event data on them, at any width. */
module Bits {
  import opened Types

  type Word = seq<bool>

  /** The low w bits of n. */
  function ToBits(n: nat, w: nat): (b: Word)
    ensures |b| == w
  {
    if w == 0 then [] else [n % 2 == 1] + ToBits(n / 2, w - 1)
  }

  function And(x: Word, y: Word): Word
    requires |x| == |y|
  {
    seq(|x|, i requires 0 <= i < |x| => x[i] && y[i])
  }

  function Or(x: Word, y: Word): Word
    requires |x| == |y|
  {
    seq(|x|, i requires 0 <= i < |x| => x[i] || y[i])
  }

  function Not(x: Word): Word {
    seq(|x|, i requires 0 <= i < |x| => !x[i])
  }

  predicate AllZero(x: Word) {
    forall i | 0 <= i < |x| :: !x[i]
  }

  predicate AllOne(x: Word) {
    forall i | 0 <= i < |x| :: x[i]
  }

  function Pow2(k: nat): (p: nat)
    ensures p >= 1
  {
    if k == 0 then 1 else 2 * Pow2(k - 1)
  }

  /** `(x & flag) == flag` for a flag with one bit set. */
  predicate Has(x: nat, flag: nat)
    requires flag > 0
  {
    x / flag % 2 == 1
  }

  /** Has tests exactly the flag's bit of the word. */
  lemma {:induction false} HasIsBit(x: nat, w: nat, k: nat)
    requires k < w
    ensures Has(x, Pow2(k)) <==> ToBits(x, w)[k]
  {
    if k > 0 {
      HasIsBit(x / 2, w - 1, k - 1);
      DivDiv(x, Pow2(k - 1));
    }
  }

  lemma {:induction false} DivDiv(x: nat, p: nat)
    requires p > 0
    ensures x / 2 / p == x / (2 * p)
  {
    var q := x / (2 * p);
    var r := x % (2 * p);
    assert x == q * (2 * p) + r;
    assert x / 2 == q * p + r / 2;
    assert 0 <= r / 2 < p;
    QuotientUnique(x / 2, p, q, r / 2);
  }

  lemma {:induction false} QuotientUnique(x: int, p: int, q: int, r: int)
    requires 0 <= r < p && x == q * p + r
    ensures x / p == q
  {
    var d := x / p - q;
    assert d * p == r - x % p;
    Multiples(d, p);
  }

  lemma {:induction false} Multiples(d: int, p: int)
    requires 0 < p
    ensures d >= 1 ==> d * p >= p
    ensures d <= -1 ==> d * p <= -p
  {
  }

  /** What the comparison means (section 17.9 of the IPMI v2.0 specification): every exact
      position of the masked value equals the wanted bit, and, when some positions are not
      exact, at least one of those equals its wanted bit too. */
  ghost predicate MaskedMatch(value: Word, mask: Word, exact: Word, want: Word)
    requires |value| == |mask| == |exact| == |want|
  {
    && (forall i | 0 <= i < |value| && exact[i] :: (value[i] && mask[i]) == want[i])
    && (AllOne(exact)
        || exists i | 0 <= i < |value| :: !exact[i] && (value[i] && mask[i]) == want[i])
  }

  /** The exact positions agree just when the two masked words are equal. */
  lemma {:induction false} ExactPositions(temp1: Word, cmp1: Word, cmp2: Word)
    requires |temp1| == |cmp1| == |cmp2|
    ensures And(temp1, cmp1) == And(cmp2, cmp1)
            <==> forall i | 0 <= i < |temp1| && cmp1[i] :: temp1[i] == cmp2[i]
  {
    if forall i | 0 <= i < |temp1| && cmp1[i] :: temp1[i] == cmp2[i] {
      assert And(temp1, cmp1) == And(cmp2, cmp1);
    } else {
      var i :| 0 <= i < |temp1| && cmp1[i] && temp1[i] != cmp2[i];
      assert And(temp1, cmp1)[i] != And(cmp2, cmp1)[i];
    }
  }

  /** A position that is not exact agrees either on a one or on a zero. */
  lemma {:induction false} FreePositions(temp1: Word, cmp1: Word, cmp2: Word)
    requires |temp1| == |cmp1| == |cmp2|
    ensures var temp2 := And(temp1, Not(cmp1));
            (exists i | 0 <= i < |temp1| :: !cmp1[i] && temp1[i] == cmp2[i])
            <==> !AllZero(And(temp2, cmp2)) || !AllZero(And(Not(Or(temp2, cmp1)), Not(cmp2)))
  {
    var temp2 := And(temp1, Not(cmp1));
    var ones := And(temp2, cmp2);
    var zeros := And(Not(Or(temp2, cmp1)), Not(cmp2));
    assert forall i | 0 <= i < |temp1| :: (!cmp1[i] && temp1[i] == cmp2[i]) <==> (ones[i] || zeros[i]);
  }

  method PefEveDataMatch(value: Word, andMask: Word, cmp1: Word, cmp2: Word) returns (matched: uint8)
    requires |value| == |andMask| == |cmp1| == |cmp2|
    ensures matched == 0 || matched == 1
    ensures matched == 1 <==> MaskedMatch(value, andMask, cmp1, cmp2)
  {
    var cmp2Flag := 1;
    var temp1 := And(value, andMask);
    ExactPositions(temp1, cmp1, cmp2);
    if And(temp1, cmp1) == And(cmp2, cmp1) {
      matched := 1;
      if !AllOne(cmp1) {
        FreePositions(temp1, cmp1, cmp2);
        var temp2 := And(temp1, Not(cmp1));
        if !AllZero(cmp2) {
          if AllZero(And(temp2, cmp2)) {
            matched := 0;
          } else {
            cmp2Flag := 0;
          }
        }
        if cmp2Flag != 0 && !AllOne(cmp2) {
          if AllZero(And(Not(Or(temp2, cmp1)), Not(cmp2))) {
            matched := 0;
          } else {
            matched := 1;
          }
        }
      }
    } else {
      matched := 0;
    }
  }

  /** With a full mask the comparison treats ones and zeros alike. */
  lemma {:induction false} ComplementInvariance(value: Word, ones: Word, cmp1: Word, cmp2: Word)
    requires |value| == |ones| == |cmp1| == |cmp2|
    requires AllOne(ones)
    ensures MaskedMatch(Not(value), ones, cmp1, Not(cmp2)) <==> MaskedMatch(value, ones, cmp1, cmp2)
  {
    assert forall i | 0 <= i < |value| ::
        ((Not(value)[i] && ones[i]) == Not(cmp2)[i]) <==> ((value[i] && ones[i]) == cmp2[i]);
  }
}
