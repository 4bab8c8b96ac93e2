/** The Luhn checksum of card candidates (ISO/IEC 7812-1, Annex B). */
module LuhnCheck {

  type Digit = d: int | 0 <= d < 10

  /** A card candidate: digits with the separators the pattern allows. */
  datatype Symbol = Number(digit: Digit) | Space | Dash

  /** The candidate's digits, separators removed. */
  function DigitsOf(number: seq<Symbol>): seq<Digit> {
    if number == [] then []
    else (if number[0].Number? then [number[0].digit] else []) + DigitsOf(number[1..])
  }

  function Weigh(d: Digit, doubled: bool): (w: Digit)
    ensures doubled ==> w == if d == 9 then 9 else 2 * d % 9
  {
    if !doubled then d else if 2 * d > 9 then 2 * d - 9 else 2 * d
  }

  /** The weighted sum, counted from the right; `doubled` says whether the last digit is doubled. */
  function Total(ds: seq<Digit>, doubled: bool): nat {
    if ds == [] then 0
    else Weigh(ds[|ds| - 1], doubled) + Total(ds[..|ds| - 1], !doubled)
  }

  predicate Passes(ds: seq<Digit>) {
    Total(ds, false) % 10 == 0
  }

  /** The digits of a candidate, in order; separators count for nothing. */
  lemma {:induction false} DigitsJoin(a: seq<Symbol>, b: seq<Symbol>, d: Digit)
    ensures DigitsOf(a + b) == DigitsOf(a) + DigitsOf(b)
    ensures DigitsOf([Number(d)]) == [d] && DigitsOf([Space]) == [] && DigitsOf([Dash]) == []
  {
    assert [Number(d)][1..] == [] && [Space][1..] == [] && [Dash][1..] == [];
    if a == [] {
      assert a + b == b;
    } else {
      assert (a + b)[1..] == a[1..] + b;
      DigitsJoin(a[1..], b, d);
    }
  }

  /** Every second digit from the right is doubled, whatever stands before it: the total of a number is
      that of its end and that of its beginning, the beginning shifted by the length of the end. */
  lemma {:induction false} TotalSplits(a: seq<Digit>, b: seq<Digit>, doubled: bool)
    ensures Total(a + b, doubled) == Total(b, doubled) + Total(a, doubled != (|b| % 2 == 1))
  {
    if b == [] {
      assert a + b == a;
    } else {
      var n := |b| - 1;
      assert (a + b)[..|a| + n] == a + b[..n];
      TotalSplits(a, b[..n], !doubled);
    }
  }

  /** The two rightmost digits: the last counts as it is, the one before with the digits of its double. */
  lemma LastTwoDigits(ds: seq<Digit>, a: Digit, b: Digit)
    ensures Total(ds + [a, b], false) == b + 2 * a / 10 + 2 * a % 10 + Total(ds, false)
  {
    TotalSplits(ds, [a, b], false);
    assert [a, b][..1] == [a] && [a][..0] == [];
    assert Total([a], true) == Weigh(a, true) + Total([], false);
    assert Total([a, b], false) == Weigh(b, false) + Total([a], true);
  }

  /** The loop of the source over the reversed digits. */
  method PassesLuhn(number: seq<Symbol>) returns (passes: bool)
    ensures passes == Passes(DigitsOf(number))
  {
    var digits := DigitsOf(number);
    var n := |digits|;
    var total: nat := 0;
    assert digits[..n] == digits;
    for position := 0 to n
      invariant Total(digits, false) == total + Total(digits[..n - position], position % 2 == 1)
    {
      var digit: int := digits[n - 1 - position];
      assert digits[..n - position][..n - position - 1] == digits[..n - position - 1];
      if position % 2 == 1 {
        digit := digit * 2;
        if digit > 9 {
          digit := digit - 9;
        }
      }
      total := total + digit;
    }
    passes := total % 10 == 0;
  }

  /** Changing one digit changes the total by the change of its own weight. */
  lemma {:induction false} TotalAfterChange(ds: seq<Digit>, i: nat, x: Digit, doubled: bool)
    requires i < |ds|
    ensures var d := doubled != ((|ds| - 1 - i) % 2 == 1);
      Total(ds[i := x], doubled) == Total(ds, doubled) - Weigh(ds[i], d) + Weigh(x, d)
  {
    var n := |ds| - 1;
    if i == n {
      assert ds[i := x][..n] == ds[..n];
    } else {
      TotalAfterChange(ds[..n], i, x, !doubled);
      assert ds[i := x][..n] == ds[..n][i := x];
    }
  }

  /** Every single-digit substitution in a passing number, of any length, is rejected. */
  lemma SubstitutionIsRejected(ds: seq<Digit>, i: nat, x: Digit)
    requires i < |ds| && Passes(ds) && x != ds[i]
    ensures !Passes(ds[i := x])
  {
    TotalAfterChange(ds, i, x, false);
  }

  /** What swapping `a` (at a doubled or undoubled place) with the `b` after it does to the total. */
  function SwapChange(a: Digit, b: Digit, doubled: bool): int {
    Weigh(b, doubled) - Weigh(a, doubled) + Weigh(a, !doubled) - Weigh(b, !doubled)
  }

  lemma SwappedWeights(a: Digit, b: Digit, doubled: bool)
    ensures SwapChange(a, b, doubled) % 10 == 0 <==> a == b || (a == 0 && b == 9) || (a == 9 && b == 0)
  {
  }

  lemma SwapTotal(ds: seq<Digit>, i: nat, doubled: bool)
    requires i + 1 < |ds| && doubled == ((|ds| - 1 - i) % 2 == 1)
    ensures Total(ds[i := ds[i + 1]][i + 1 := ds[i]], false) == Total(ds, false) + SwapChange(ds[i], ds[i + 1], doubled)
  {
    var once := ds[i := ds[i + 1]];
    TotalAfterChange(ds, i, ds[i + 1], false);
    TotalAfterChange(once, i + 1, ds[i], false);
  }

  /** An adjacent transposition in a passing number is rejected exactly unless the digits are equal or
      are 0 and 9. */
  lemma TranspositionIsRejectedUnless09(ds: seq<Digit>, i: nat)
    requires i + 1 < |ds| && Passes(ds)
    ensures Passes(ds[i := ds[i + 1]][i + 1 := ds[i]])
       <==> ds[i] == ds[i + 1] || (ds[i] == 0 && ds[i + 1] == 9) || (ds[i] == 9 && ds[i + 1] == 0)
  {
    var doubled := (|ds| - 1 - i) % 2 == 1;
    SwapTotal(ds, i, doubled);
    SwapPasses(Total(ds, false), ds[i], ds[i + 1], doubled);
  }

  lemma SwapPasses(total: nat, a: Digit, b: Digit, doubled: bool)
    requires total % 10 == 0
    ensures (total + SwapChange(a, b, doubled)) % 10 == 0 <==> a == b || (a == 0 && b == 9) || (a == 9 && b == 0)
  {
    SwappedWeights(a, b, doubled);
    assert (total + SwapChange(a, b, doubled)) % 10 == SwapChange(a, b, doubled) % 10;
  }

  /** Every prefix has exactly one check digit that makes it pass. */
  lemma OneCheckDigit(prefix: seq<Digit>, d: Digit)
    ensures Passes(prefix + [d]) <==> d == (10 - Total(prefix, true) % 10) % 10
  {
    assert (prefix + [d])[..|prefix|] == prefix;
  }
}
